/**
 * The affectation service: an audit assignment names auditors and target IPs.
 * Auditors are found by email and IPs by address, or created; a newly created
 * IP gets the ports listed with it. Auditors can also be deleted or edited.
 */
module Affectations {
  import opened Common

  /** An auditor row. */
  datatype Auditeur = Auditeur(id: nat, nom: string, prenom: string, email: string, phone: string,
                               prestataireId: int)

  /** The auditor fields of a request, without an id. */
  datatype AuditeurData = AuditeurData(nom: string, prenom: string, email: string, phone: string,
                                       prestataireId: int)

  /** An IP row: the affectation that first brought it in, and its address. */
  datatype Ip = Ip(id: nat, affectationId: nat, adresseIp: string)

  /** A port row, owned by one IP. */
  datatype Port = Port(id: nat, port: int, status: string, ipId: nat)

  datatype PortData = PortData(port: int, status: string)

  datatype IpData = IpData(adresseIp: string, ports: seq<PortData>)

  /** An affectation row with its auditor and IP association lists (ids, in order). */
  datatype Affectation = Affectation(id: nat, demandeAuditId: int, prestataireId: int, typeAudit: string,
                                     auditeurs: seq<nat>, ips: seq<nat>, affectationPath: Option<string>)

  datatype AffectData = AffectData(demandeAuditId: int, prestataireId: int, typeAudit: string,
                                   auditeurs: seq<AuditeurData>, ips: seq<IpData>)

  // ---------------------------------------------------------------------------
  // Lookups: `.filter(...).first()`, taken as the first row in table order.

  function FindByEmail(t: seq<Auditeur>, email: string): (r: Option<nat>)
    ensures r.Some? ==> r.value < |t| && t[r.value].email == email
    ensures r.Some? ==> forall k :: 0 <= k < r.value ==> t[k].email != email
    ensures r.None? ==> forall k :: 0 <= k < |t| ==> t[k].email != email
    decreases |t|
  {
    if t == [] then None
    else match FindByEmail(t[..|t| - 1], email)
      case Some(i) => Some(i)
      case None => if t[|t| - 1].email == email then Some(|t| - 1) else None
  }

  function FindByAddress(t: seq<Ip>, address: string): (r: Option<nat>)
    ensures r.Some? ==> r.value < |t| && t[r.value].adresseIp == address
    ensures r.Some? ==> forall k :: 0 <= k < r.value ==> t[k].adresseIp != address
    ensures r.None? ==> forall k :: 0 <= k < |t| ==> t[k].adresseIp != address
    decreases |t|
  {
    if t == [] then None
    else match FindByAddress(t[..|t| - 1], address)
      case Some(i) => Some(i)
      case None => if t[|t| - 1].adresseIp == address then Some(|t| - 1) else None
  }

  function IndexOfAuditeur(t: seq<Auditeur>, id: nat): (r: Option<nat>)
    ensures r.Some? ==> r.value < |t| && t[r.value].id == id
    ensures r.None? ==> forall k :: 0 <= k < |t| ==> t[k].id != id
    decreases |t|
  {
    if t == [] then None
    else match IndexOfAuditeur(t[..|t| - 1], id)
      case Some(i) => Some(i)
      case None => if t[|t| - 1].id == id then Some(|t| - 1) else None
  }

  /** A match found in a table is still the first match once rows are appended. */
  lemma FindByEmailExtends(t: seq<Auditeur>, u: seq<Auditeur>, email: string)
    requires FindByEmail(t, email).Some?
    ensures FindByEmail(t + u, email) == FindByEmail(t, email)
  {
    var i := FindByEmail(t, email).value;
    assert (t + u)[i] == t[i];
    assert forall k :: 0 <= k < |t| ==> (t + u)[k] == t[k];
  }

  lemma FindByAddressExtends(t: seq<Ip>, u: seq<Ip>, address: string)
    requires FindByAddress(t, address).Some?
    ensures FindByAddress(t + u, address) == FindByAddress(t, address)
  {
    var i := FindByAddress(t, address).value;
    assert (t + u)[i] == t[i];
    assert forall k :: 0 <= k < |t| ==> (t + u)[k] == t[k];
  }

  // ---------------------------------------------------------------------------
  // Id bookkeeping: every table hands out ids from a counter.

  predicate FreshIds(ids: seq<nat>, next: nat)
  {
    && (forall k :: 0 <= k < |ids| ==> ids[k] < next)
    && NoDuplicates(ids)
  }

  function AuditeurIds(t: seq<Auditeur>): (ids: seq<nat>)
    ensures |ids| == |t| && forall k :: 0 <= k < |t| ==> ids[k] == t[k].id
  {
    seq(|t|, k requires 0 <= k < |t| => t[k].id)
  }

  function IpIds(t: seq<Ip>): (ids: seq<nat>)
    ensures |ids| == |t| && forall k :: 0 <= k < |t| ==> ids[k] == t[k].id
  {
    seq(|t|, k requires 0 <= k < |t| => t[k].id)
  }

  function PortIds(t: seq<Port>): (ids: seq<nat>)
    ensures |ids| == |t| && forall k :: 0 <= k < |t| ==> ids[k] == t[k].id
  {
    seq(|t|, k requires 0 <= k < |t| => t[k].id)
  }

  function AffectationIds(t: seq<Affectation>): (ids: seq<nat>)
    ensures |ids| == |t| && forall k :: 0 <= k < |t| ==> ids[k] == t[k].id
  {
    seq(|t|, k requires 0 <= k < |t| => t[k].id)
  }

  /** Appending a row whose id is the counter keeps the ids fresh under the bumped counter. */
  lemma FreshIdsAppend(ids: seq<nat>, next: nat)
    requires FreshIds(ids, next)
    ensures FreshIds(ids + [next], next + 1)
  {
  }

  // ---------------------------------------------------------------------------
  // The auditor loop of `create_affect`.

  /** The auditor table, its id counter and the ids attached so far. */
  datatype AuditeurStep = AuditeurStep(table: seq<Auditeur>, nextId: nat, ids: seq<nat>)

  function NewAuditeur(id: nat, d: AuditeurData): Auditeur
  {
    Auditeur(id, d.nom, d.prenom, d.email, d.phone, d.prestataireId)
  }

  /** One auditor of the request: reuse the first auditor with the email, or insert a new one. */
  function AttachAuditeur(prev: AuditeurStep, d: AuditeurData): AuditeurStep
  {
    match FindByEmail(prev.table, d.email)
    case Some(i) => prev.(ids := prev.ids + [prev.table[i].id])
    case None => AuditeurStep(prev.table + [NewAuditeur(prev.nextId, d)], prev.nextId + 1, prev.ids + [prev.nextId])
  }

  /** The auditor loop of `create_affect` over `inputs`. */
  function AttachAuditeurs(table: seq<Auditeur>, nextId: nat, inputs: seq<AuditeurData>): (r: AuditeurStep)
    ensures |r.ids| == |inputs|
    ensures table <= r.table
    ensures r.nextId == nextId + (|r.table| - |table|)
    decreases |inputs|
  {
    if inputs == [] then AuditeurStep(table, nextId, [])
    else AttachAuditeur(AttachAuditeurs(table, nextId, inputs[..|inputs| - 1]), inputs[|inputs| - 1])
  }

  /** Every attached id is the id of the first auditor in `t` with the requested email. */
  predicate AuditeursKnown(t: seq<Auditeur>, inputs: seq<AuditeurData>, ids: seq<nat>)
  {
    |ids| == |inputs| &&
    forall j :: 0 <= j < |inputs| ==>
      FindByEmail(t, inputs[j].email).Some? && ids[j] == t[FindByEmail(t, inputs[j].email).value].id
  }

  /**
   * After the loop, the j-th attached id is the id of the first auditor with
   * the j-th email: requests naming one email twice share one auditor.
   */
  lemma {:induction false} AttachAuditeursFirstMatch(table: seq<Auditeur>, nextId: nat, inputs: seq<AuditeurData>)
    ensures AuditeursKnown(AttachAuditeurs(table, nextId, inputs).table, inputs, AttachAuditeurs(table, nextId, inputs).ids)
    decreases |inputs|
  {
    if inputs != [] {
      var init := inputs[..|inputs| - 1];
      var d := inputs[|inputs| - 1];
      AttachAuditeursFirstMatch(table, nextId, init);
      var prev := AttachAuditeurs(table, nextId, init);
      var r := AttachAuditeurs(table, nextId, inputs);
      var extra := if FindByEmail(prev.table, d.email).Some? then [] else [NewAuditeur(prev.nextId, d)];
      assert r.table == prev.table + extra;
      forall j | 0 <= j < |init|
        ensures FindByEmail(r.table, inputs[j].email).Some?
        ensures r.ids[j] == r.table[FindByEmail(r.table, inputs[j].email).value].id
      {
        assert inputs[j] == init[j] && r.ids[j] == prev.ids[j];
        FindByEmailExtends(prev.table, extra, init[j].email);
        var i := FindByEmail(prev.table, init[j].email).value;
        assert r.table[i] == prev.table[i];
      }
      if extra != [] {
        assert r.table[..|r.table| - 1] == prev.table;
        assert FindByEmail(r.table, d.email) == Some(|prev.table|);
      }
    }
  }

  /** Every inserted row comes from one request entry: its five fields and the id attached to that entry. */
  predicate InsertedFromInputs(t: seq<Auditeur>, start: nat, inputs: seq<AuditeurData>, ids: seq<nat>)
  {
    |ids| == |inputs| &&
    forall k :: start <= k < |t| ==> exists j :: 0 <= j < |inputs| && t[k] == NewAuditeur(ids[j], inputs[j])
  }

  lemma {:induction false} AttachAuditeursRowsFromInputs(table: seq<Auditeur>, nextId: nat, inputs: seq<AuditeurData>)
    ensures InsertedFromInputs(AttachAuditeurs(table, nextId, inputs).table, |table|, inputs,
                               AttachAuditeurs(table, nextId, inputs).ids)
    decreases |inputs|
  {
    if inputs != [] {
      var init := inputs[..|inputs| - 1];
      var d := inputs[|inputs| - 1];
      AttachAuditeursRowsFromInputs(table, nextId, init);
      var prev := AttachAuditeurs(table, nextId, init);
      var r := AttachAuditeurs(table, nextId, inputs);
      forall k | |table| <= k < |r.table|
        ensures exists j :: 0 <= j < |inputs| && r.table[k] == NewAuditeur(r.ids[j], inputs[j])
      {
        if k < |prev.table| {
          var j :| 0 <= j < |init| && prev.table[k] == NewAuditeur(prev.ids[j], init[j]);
          assert r.table[k] == prev.table[k] && r.ids[j] == prev.ids[j] && inputs[j] == init[j];
        } else {
          assert r.table[k] == NewAuditeur(r.ids[|inputs| - 1], inputs[|inputs| - 1]);
        }
      }
    }
  }

  /** Entry `j` is the first of the request with its email. */
  predicate FirstWithEmail(inputs: seq<AuditeurData>, j: nat)
  {
    j < |inputs| && forall l :: 0 <= l < j ==> inputs[l].email != inputs[j].email
  }

  /** Each email neither stored nor named earlier in the request gets a new auditor with that entry's five fields. */
  predicate NewEmailsInserted(table: seq<Auditeur>, inputs: seq<AuditeurData>, r: AuditeurStep)
  {
    |r.ids| == |inputs| &&
    forall j :: 0 <= j < |inputs| && FirstWithEmail(inputs, j) && FindByEmail(table, inputs[j].email).None? ==>
      exists k :: |table| <= k < |r.table| && r.table[k] == NewAuditeur(r.ids[j], inputs[j])
  }

  /** An email absent from the stored rows and from every entry is absent from the rows inserted for them. */
  lemma EmailNotInserted(table: seq<Auditeur>, t: seq<Auditeur>, inputs: seq<AuditeurData>, ids: seq<nat>, email: string)
    requires table <= t && InsertedFromInputs(t, |table|, inputs, ids)
    requires FindByEmail(table, email).None?
    requires forall l :: 0 <= l < |inputs| ==> inputs[l].email != email
    ensures FindByEmail(t, email).None?
  {
    forall i | 0 <= i < |t|
      ensures t[i].email != email
    {
      if i < |table| {
        assert table[i] == t[i];
      } else {
        var l :| 0 <= l < |inputs| && t[i] == NewAuditeur(ids[l], inputs[l]);
      }
    }
  }

  lemma {:induction false} AttachAuditeursCreates(table: seq<Auditeur>, nextId: nat, inputs: seq<AuditeurData>)
    ensures NewEmailsInserted(table, inputs, AttachAuditeurs(table, nextId, inputs))
    decreases |inputs|
  {
    if inputs != [] {
      var init := inputs[..|inputs| - 1];
      AttachAuditeursCreates(table, nextId, init);
      AttachAuditeursRowsFromInputs(table, nextId, init);
      assert inputs == init + [inputs[|inputs| - 1]];
      AttachAuditeurCreatesStep(table, AttachAuditeurs(table, nextId, init), init, inputs[|inputs| - 1]);
    }
  }

  /** One step of the loop keeps `NewEmailsInserted`. */
  lemma AttachAuditeurCreatesStep(table: seq<Auditeur>, prev: AuditeurStep, init: seq<AuditeurData>, d: AuditeurData)
    requires table <= prev.table
    requires NewEmailsInserted(table, init, prev) && InsertedFromInputs(prev.table, |table|, init, prev.ids)
    ensures NewEmailsInserted(table, init + [d], AttachAuditeur(prev, d))
  {
    var inputs := init + [d];
    var r := AttachAuditeur(prev, d);
    assert prev.table <= r.table && prev.ids <= r.ids;
    forall j | 0 <= j < |inputs| && FirstWithEmail(inputs, j) && FindByEmail(table, inputs[j].email).None?
      ensures exists k :: |table| <= k < |r.table| && r.table[k] == NewAuditeur(r.ids[j], inputs[j])
    {
      if j < |init| {
        assert forall l :: 0 <= l <= j ==> inputs[l] == init[l];
        assert FirstWithEmail(init, j);
        var k :| |table| <= k < |prev.table| && prev.table[k] == NewAuditeur(prev.ids[j], init[j]);
        assert r.table[k] == prev.table[k] && r.ids[j] == prev.ids[j];
      } else {
        assert forall l :: 0 <= l < |init| ==> init[l].email != d.email by {
          assert forall l :: 0 <= l < |init| ==> inputs[l] == init[l];
        }
        EmailNotInserted(table, prev.table, init, prev.ids, d.email);
        assert r.table[|prev.table|] == NewAuditeur(r.ids[j], inputs[j]);
      }
    }
  }

  /** An input whose email was already stored gets the first stored auditor with that email. */
  lemma AttachAuditeursReuses(table: seq<Auditeur>, nextId: nat, inputs: seq<AuditeurData>)
    ensures var r := AttachAuditeurs(table, nextId, inputs);
      forall j :: 0 <= j < |inputs| && FindByEmail(table, inputs[j].email).Some? ==>
        r.ids[j] == table[FindByEmail(table, inputs[j].email).value].id
  {
    var r := AttachAuditeurs(table, nextId, inputs);
    AttachAuditeursFirstMatch(table, nextId, inputs);
    var extra := r.table[|table|..];
    assert r.table == table + extra;
    forall j | 0 <= j < |inputs| && FindByEmail(table, inputs[j].email).Some?
      ensures r.ids[j] == table[FindByEmail(table, inputs[j].email).value].id
    {
      FindByEmailExtends(table, extra, inputs[j].email);
      assert r.table[FindByEmail(table, inputs[j].email).value] == table[FindByEmail(table, inputs[j].email).value];
    }
  }

  /** Every row from `start` on has an email that no earlier row has. */
  predicate FreshEmailsFrom(t: seq<Auditeur>, start: nat)
  {
    forall k, l :: 0 <= l < k < |t| && start <= k ==> t[l].email != t[k].email
  }

  /** Each inserted auditor's email appears in no row before it: no stored email is inserted again. */
  lemma {:induction false} AttachAuditeursFresh(table: seq<Auditeur>, nextId: nat, inputs: seq<AuditeurData>)
    ensures FreshEmailsFrom(AttachAuditeurs(table, nextId, inputs).table, |table|)
    decreases |inputs|
  {
    if inputs != [] {
      var init := inputs[..|inputs| - 1];
      AttachAuditeursFresh(table, nextId, init);
      var prev := AttachAuditeurs(table, nextId, init);
      var r := AttachAuditeurs(table, nextId, inputs);
      var d := inputs[|inputs| - 1];
      if FindByEmail(prev.table, d.email).None? {
        assert r.table == prev.table + [NewAuditeur(prev.nextId, d)];
        forall k, l | 0 <= l < k < |r.table| && |table| <= k
          ensures r.table[l].email != r.table[k].email
        {
          assert r.table[l] == prev.table[l];
          if k < |prev.table| {
            assert r.table[k] == prev.table[k];
          }
        }
      }
    }
  }

  predicate UniqueEmails(t: seq<Auditeur>)
  {
    forall k, l :: 0 <= l < k < |t| ==> t[l].email != t[k].email
  }

  /** Hence a table with unique emails keeps them unique. */
  lemma AttachAuditeursKeepsEmailsUnique(table: seq<Auditeur>, nextId: nat, inputs: seq<AuditeurData>)
    requires UniqueEmails(table)
    ensures UniqueEmails(AttachAuditeurs(table, nextId, inputs).table)
  {
    AttachAuditeursFresh(table, nextId, inputs);
    var r := AttachAuditeurs(table, nextId, inputs);
    forall k, l | 0 <= l < k < |r.table|
      ensures r.table[l].email != r.table[k].email
    {
      if k < |table| {
        assert r.table[l] == table[l] && r.table[k] == table[k];
      }
    }
  }

  /** Ids stay fresh: each inserted auditor takes the counter. */
  lemma {:induction false} AttachAuditeursIds(table: seq<Auditeur>, nextId: nat, inputs: seq<AuditeurData>)
    requires FreshIds(AuditeurIds(table), nextId)
    ensures var r := AttachAuditeurs(table, nextId, inputs);
      FreshIds(AuditeurIds(r.table), r.nextId)
    decreases |inputs|
  {
    if inputs != [] {
      var init := inputs[..|inputs| - 1];
      AttachAuditeursIds(table, nextId, init);
      var prev := AttachAuditeurs(table, nextId, init);
      var d := inputs[|inputs| - 1];
      if FindByEmail(prev.table, d.email).None? {
        assert AuditeurIds(prev.table + [NewAuditeur(prev.nextId, d)]) == AuditeurIds(prev.table) + [prev.nextId];
        FreshIdsAppend(AuditeurIds(prev.table), prev.nextId);
      }
    }
  }

  // ---------------------------------------------------------------------------
  // The IP loop of `create_affect`.

  /** The port rows inserted for a new IP, numbered from `firstId`, in request order. */
  function PortRows(ps: seq<PortData>, ipId: nat, firstId: nat): (r: seq<Port>)
    ensures |r| == |ps|
    ensures forall k :: 0 <= k < |ps| ==> r[k] == Port(firstId + k, ps[k].port, ps[k].status, ipId)
    decreases |ps|
  {
    if ps == [] then []
    else
      var last := ps[|ps| - 1];
      PortRows(ps[..|ps| - 1], ipId, firstId) + [Port(firstId + |ps| - 1, last.port, last.status, ipId)]
  }

  /** The IP and port tables, their id counters and the IP ids attached so far. */
  datatype IpStep = IpStep(ips: seq<Ip>, ports: seq<Port>, nextIpId: nat, nextPortId: nat, ids: seq<nat>)

  /** One IP of the request: reuse the first IP with the address, or insert a new one with its ports. */
  function AttachIp(prev: IpStep, affectId: nat, d: IpData): IpStep
  {
    match FindByAddress(prev.ips, d.adresseIp)
    case Some(i) => prev.(ids := prev.ids + [prev.ips[i].id])
    case None =>
      IpStep(prev.ips + [Ip(prev.nextIpId, affectId, d.adresseIp)],
             prev.ports + PortRows(d.ports, prev.nextIpId, prev.nextPortId),
             prev.nextIpId + 1, prev.nextPortId + |d.ports|, prev.ids + [prev.nextIpId])
  }

  /** The IP loop of `create_affect` over `inputs`, for affectation `affectId`. */
  function AttachIps(ips: seq<Ip>, ports: seq<Port>, nextIpId: nat, nextPortId: nat, affectId: nat,
                     inputs: seq<IpData>): (r: IpStep)
    ensures |r.ids| == |inputs|
    ensures ips <= r.ips && ports <= r.ports
    ensures r.nextIpId == nextIpId + (|r.ips| - |ips|)
    ensures r.nextPortId == nextPortId + (|r.ports| - |ports|)
    decreases |inputs|
  {
    if inputs == [] then IpStep(ips, ports, nextIpId, nextPortId, [])
    else AttachIp(AttachIps(ips, ports, nextIpId, nextPortId, affectId, inputs[..|inputs| - 1]), affectId,
                  inputs[|inputs| - 1])
  }

  /** Every attached id is the id of the first IP in `ips` with the requested address. */
  predicate KnownIds(ips: seq<Ip>, inputs: seq<IpData>, ids: seq<nat>)
  {
    |ids| == |inputs| &&
    forall j :: 0 <= j < |inputs| ==>
      FindByAddress(ips, inputs[j].adresseIp).Some? && ids[j] == ips[FindByAddress(ips, inputs[j].adresseIp).value].id
  }

  /**
   * After the loop, the j-th attached id is the id of the first IP with the
   * j-th address: requests naming one address twice share one IP.
   */
  lemma {:induction false} AttachIpsFirstMatch(ips: seq<Ip>, ports: seq<Port>, nextIpId: nat, nextPortId: nat,
                                               affectId: nat, inputs: seq<IpData>)
    ensures KnownIds(AttachIps(ips, ports, nextIpId, nextPortId, affectId, inputs).ips, inputs,
                     AttachIps(ips, ports, nextIpId, nextPortId, affectId, inputs).ids)
    decreases |inputs|
  {
    if inputs != [] {
      var init := inputs[..|inputs| - 1];
      var d := inputs[|inputs| - 1];
      AttachIpsFirstMatch(ips, ports, nextIpId, nextPortId, affectId, init);
      var prev := AttachIps(ips, ports, nextIpId, nextPortId, affectId, init);
      var r := AttachIps(ips, ports, nextIpId, nextPortId, affectId, inputs);
      var extra := if FindByAddress(prev.ips, d.adresseIp).Some? then [] else [Ip(prev.nextIpId, affectId, d.adresseIp)];
      assert r.ips == prev.ips + extra;
      forall j | 0 <= j < |init|
        ensures FindByAddress(r.ips, inputs[j].adresseIp).Some?
        ensures r.ids[j] == r.ips[FindByAddress(r.ips, inputs[j].adresseIp).value].id
      {
        assert inputs[j] == init[j] && r.ids[j] == prev.ids[j];
        FindByAddressExtends(prev.ips, extra, init[j].adresseIp);
        var i := FindByAddress(prev.ips, init[j].adresseIp).value;
        assert r.ips[i] == prev.ips[i];
      }
      if extra != [] {
        assert r.ips[..|r.ips| - 1] == prev.ips;
        assert FindByAddress(r.ips, d.adresseIp) == Some(|prev.ips|);
      }
    }
  }

  /** Every address of the request already stored: no IP and no port is inserted, and each stored IP is reused. */
  lemma {:induction false} AttachIpsKnown(ips: seq<Ip>, ports: seq<Port>, nextIpId: nat, nextPortId: nat,
                                          affectId: nat, inputs: seq<IpData>)
    requires forall j :: 0 <= j < |inputs| ==> FindByAddress(ips, inputs[j].adresseIp).Some?
    ensures AttachIps(ips, ports, nextIpId, nextPortId, affectId, inputs).ips == ips
    ensures AttachIps(ips, ports, nextIpId, nextPortId, affectId, inputs).ports == ports
    ensures AttachIps(ips, ports, nextIpId, nextPortId, affectId, inputs).nextIpId == nextIpId
    ensures AttachIps(ips, ports, nextIpId, nextPortId, affectId, inputs).nextPortId == nextPortId
    ensures KnownIds(ips, inputs, AttachIps(ips, ports, nextIpId, nextPortId, affectId, inputs).ids)
    decreases |inputs|
  {
    if inputs != [] {
      var init := inputs[..|inputs| - 1];
      var last := inputs[|inputs| - 1];
      assert forall j :: 0 <= j < |init| ==> init[j] == inputs[j];
      AttachIpsKnown(ips, ports, nextIpId, nextPortId, affectId, init);
      var prev := AttachIps(ips, ports, nextIpId, nextPortId, affectId, init);
      var i := FindByAddress(ips, last.adresseIp).value;
      var r := AttachIps(ips, ports, nextIpId, nextPortId, affectId, inputs);
      assert r == prev.(ids := prev.ids + [ips[i].id]);
      assert forall j :: 0 <= j < |init| ==> r.ids[j] == prev.ids[j];
    }
  }


  /** Every port row from `start` on belongs to an IP row from `ipStart` on. */
  predicate PortsOwnedFrom(ips: seq<Ip>, ipStart: nat, ports: seq<Port>, start: nat)
  {
    forall k :: start <= k < |ports| ==> IpFrom(ips, ipStart, ports[k].ipId)
  }

  /** Some IP row from `ipStart` on has this id. */
  predicate IpFrom(ips: seq<Ip>, ipStart: nat, id: nat)
  {
    exists m :: ipStart <= m < |ips| && ips[m].id == id
  }

  /** Ports are attached only to IPs this request created, never to a reused IP. */
  lemma {:induction false} AttachIpsPortsOwned(ips: seq<Ip>, ports: seq<Port>, nextIpId: nat, nextPortId: nat,
                                               affectId: nat, inputs: seq<IpData>)
    ensures PortsOwnedFrom(AttachIps(ips, ports, nextIpId, nextPortId, affectId, inputs).ips, |ips|,
                           AttachIps(ips, ports, nextIpId, nextPortId, affectId, inputs).ports, |ports|)
    decreases |inputs|
  {
    if inputs != [] {
      var init := inputs[..|inputs| - 1];
      AttachIpsPortsOwned(ips, ports, nextIpId, nextPortId, affectId, init);
      var prev := AttachIps(ips, ports, nextIpId, nextPortId, affectId, init);
      var r := AttachIps(ips, ports, nextIpId, nextPortId, affectId, inputs);
      var d := inputs[|inputs| - 1];
      if FindByAddress(prev.ips, d.adresseIp).None? {
        var added := PortRows(d.ports, prev.nextIpId, prev.nextPortId);
        assert r.ips == prev.ips + [Ip(prev.nextIpId, affectId, d.adresseIp)];
        assert r.ports == prev.ports + added;
        forall k | |ports| <= k < |r.ports|
          ensures IpFrom(r.ips, |ips|, r.ports[k].ipId)
        {
          if k < |prev.ports| {
            assert IpFrom(prev.ips, |ips|, prev.ports[k].ipId);
            var m :| |ips| <= m < |prev.ips| && prev.ips[m].id == prev.ports[k].ipId;
            assert r.ips[m] == prev.ips[m] && r.ports[k] == prev.ports[k];
          } else {
            assert r.ports[k] == added[k - |prev.ports|];
            assert r.ips[|prev.ips|].id == prev.nextIpId;
          }
        }
      } else {
        assert r.ips == prev.ips && r.ports == prev.ports;
      }
    }
  }


  /** The rows of `ps` owned by the IP `ipId`, in order. */
  function PortsOwnedBy(ps: seq<Port>, ipId: nat): (r: seq<Port>)
    ensures |r| <= |ps|
    ensures forall k :: 0 <= k < |r| ==> r[k].ipId == ipId
    decreases |ps|
  {
    if ps == [] then []
    else PortsOwnedBy(ps[..|ps| - 1], ipId) + (if ps[|ps| - 1].ipId == ipId then [ps[|ps| - 1]] else [])
  }

  lemma {:induction false} PortsOwnedByAppend(a: seq<Port>, b: seq<Port>, ipId: nat)
    ensures PortsOwnedBy(a + b, ipId) == PortsOwnedBy(a, ipId) + PortsOwnedBy(b, ipId)
    decreases |b|
  {
    if b == [] {
      assert a + b == a;
    } else {
      var init := b[..|b| - 1];
      assert (a + b)[..|a + b| - 1] == a + init;
      PortsOwnedByAppend(a, init, ipId);
    }
  }

  lemma {:induction false} PortsOwnedByNone(ps: seq<Port>, ipId: nat)
    requires forall k :: 0 <= k < |ps| ==> ps[k].ipId != ipId
    ensures PortsOwnedBy(ps, ipId) == []
    decreases |ps|
  {
    if ps != [] {
      PortsOwnedByNone(ps[..|ps| - 1], ipId);
    }
  }

  lemma {:induction false} PortsOwnedByAll(ps: seq<Port>, ipId: nat)
    requires forall k :: 0 <= k < |ps| ==> ps[k].ipId == ipId
    ensures PortsOwnedBy(ps, ipId) == ps
    decreases |ps|
  {
    if ps != [] {
      PortsOwnedByAll(ps[..|ps| - 1], ipId);
      assert ps == ps[..|ps| - 1] + [ps[|ps| - 1]];
    }
  }

  /** Every inserted IP comes from one request entry: its address and the id attached to that entry. */
  predicate IpsFromInputs(t: seq<Ip>, start: nat, affectId: nat, inputs: seq<IpData>, ids: seq<nat>)
  {
    |ids| == |inputs| &&
    forall k :: start <= k < |t| ==> exists j :: 0 <= j < |inputs| && t[k] == Ip(ids[j], affectId, inputs[j].adresseIp)
  }

  lemma {:induction false} AttachIpsRowsFromInputs(ips: seq<Ip>, ports: seq<Port>, nextIpId: nat, nextPortId: nat,
                                                   affectId: nat, inputs: seq<IpData>)
    ensures IpsFromInputs(AttachIps(ips, ports, nextIpId, nextPortId, affectId, inputs).ips, |ips|, affectId, inputs,
                          AttachIps(ips, ports, nextIpId, nextPortId, affectId, inputs).ids)
    decreases |inputs|
  {
    if inputs != [] {
      var init := inputs[..|inputs| - 1];
      AttachIpsRowsFromInputs(ips, ports, nextIpId, nextPortId, affectId, init);
      var prev := AttachIps(ips, ports, nextIpId, nextPortId, affectId, init);
      var r := AttachIps(ips, ports, nextIpId, nextPortId, affectId, inputs);
      forall k | |ips| <= k < |r.ips|
        ensures exists j :: 0 <= j < |inputs| && r.ips[k] == Ip(r.ids[j], affectId, inputs[j].adresseIp)
      {
        if k < |prev.ips| {
          var j :| 0 <= j < |init| && prev.ips[k] == Ip(prev.ids[j], affectId, init[j].adresseIp);
          assert r.ips[k] == prev.ips[k] && r.ids[j] == prev.ids[j] && inputs[j] == init[j];
        } else {
          assert r.ips[k] == Ip(r.ids[|inputs| - 1], affectId, inputs[|inputs| - 1].adresseIp);
        }
      }
    }
  }

  /** Every port row from `start` on belongs to an IP id below `bound`. */
  predicate PortsOwnedBelow(ports: seq<Port>, start: nat, bound: nat)
  {
    forall k :: start <= k < |ports| ==> ports[k].ipId < bound
  }

  lemma {:induction false} AttachIpsPortsBelow(ips: seq<Ip>, ports: seq<Port>, nextIpId: nat, nextPortId: nat,
                                               affectId: nat, inputs: seq<IpData>)
    ensures PortsOwnedBelow(AttachIps(ips, ports, nextIpId, nextPortId, affectId, inputs).ports, |ports|,
                            AttachIps(ips, ports, nextIpId, nextPortId, affectId, inputs).nextIpId)
    decreases |inputs|
  {
    if inputs != [] {
      var init := inputs[..|inputs| - 1];
      AttachIpsPortsBelow(ips, ports, nextIpId, nextPortId, affectId, init);
      var prev := AttachIps(ips, ports, nextIpId, nextPortId, affectId, init);
      var r := AttachIps(ips, ports, nextIpId, nextPortId, affectId, inputs);
      var d := inputs[|inputs| - 1];
      if FindByAddress(prev.ips, d.adresseIp).None? {
        var added := PortRows(d.ports, prev.nextIpId, prev.nextPortId);
        assert r.ports == prev.ports + added;
        forall k | |ports| <= k < |r.ports|
          ensures r.ports[k].ipId < r.nextIpId
        {
          if k < |prev.ports| {
            assert r.ports[k] == prev.ports[k];
          } else {
            assert r.ports[k] == added[k - |prev.ports|];
          }
        }
      }
    }
  }

  /** Entry `j` is the first of the request with its address. */
  predicate FirstWithAddress(inputs: seq<IpData>, j: nat)
  {
    j < |inputs| && forall l :: 0 <= l < j ==> inputs[l].adresseIp != inputs[j].adresseIp
  }

  /** Among `newPorts`, the IP `ipId` owns exactly the rows of `ps`, numbered consecutively from some id. */
  ghost predicate OwnsExactly(newPorts: seq<Port>, ipId: nat, ps: seq<PortData>)
  {
    exists s: nat :: PortsOwnedBy(newPorts, ipId) == PortRows(ps, ipId, s)
  }

  /**
   * The entry `d` got a new IP with id `id`, fresh under the counter and held
   * by this affectation, which owns exactly the entry's listed ports among the
   * rows inserted after `ports`.
   */
  ghost predicate CreatedAs(ips: seq<Ip>, ports: seq<Port>, affectId: nat, d: IpData, r: IpStep, id: nat)
  {
    && id < r.nextIpId
    && (exists k :: |ips| <= k < |r.ips| && r.ips[k] == Ip(id, affectId, d.adresseIp))
    && |ports| <= |r.ports|
    && OwnsExactly(r.ports[|ports|..], id, d.ports)
  }

  /** Each address neither stored nor named earlier in the request gets its own new IP. */
  ghost predicate NewAddressesInserted(ips: seq<Ip>, ports: seq<Port>, affectId: nat, inputs: seq<IpData>, r: IpStep)
  {
    |r.ids| == |inputs| &&
    forall j :: 0 <= j < |inputs| && FirstWithAddress(inputs, j) && FindByAddress(ips, inputs[j].adresseIp).None? ==>
      CreatedAs(ips, ports, affectId, inputs[j], r, r.ids[j])
  }

  /** An address absent from the stored IPs and from every entry is absent from the IPs inserted for them. */
  lemma AddressNotInserted(ips: seq<Ip>, t: seq<Ip>, affectId: nat, inputs: seq<IpData>, ids: seq<nat>, address: string)
    requires ips <= t && IpsFromInputs(t, |ips|, affectId, inputs, ids)
    requires FindByAddress(ips, address).None?
    requires forall l :: 0 <= l < |inputs| ==> inputs[l].adresseIp != address
    ensures FindByAddress(t, address).None?
  {
    forall i | 0 <= i < |t|
      ensures t[i].adresseIp != address
    {
      if i < |ips| {
        assert ips[i] == t[i];
      } else {
        var l :| 0 <= l < |inputs| && t[i] == Ip(ids[l], affectId, inputs[l].adresseIp);
      }
    }
  }

  lemma {:induction false} AttachIpsCreates(ips: seq<Ip>, ports: seq<Port>, nextIpId: nat, nextPortId: nat,
                                            affectId: nat, inputs: seq<IpData>)
    ensures NewAddressesInserted(ips, ports, affectId, inputs, AttachIps(ips, ports, nextIpId, nextPortId, affectId, inputs))
    decreases |inputs|
  {
    if inputs != [] {
      var init := inputs[..|inputs| - 1];
      var d := inputs[|inputs| - 1];
      AttachIpsCreates(ips, ports, nextIpId, nextPortId, affectId, init);
      AttachIpsRowsFromInputs(ips, ports, nextIpId, nextPortId, affectId, init);
      AttachIpsPortsBelow(ips, ports, nextIpId, nextPortId, affectId, init);
      var prev := AttachIps(ips, ports, nextIpId, nextPortId, affectId, init);
      assert inputs == init + [d];
      assert AttachIps(ips, ports, nextIpId, nextPortId, affectId, inputs) == AttachIp(prev, affectId, d);
      AttachIpCreatesStep(ips, ports, affectId, prev, init, d);
    }
  }

  /** One step of the loop keeps `NewAddressesInserted`. */
  lemma AttachIpCreatesStep(ips: seq<Ip>, ports: seq<Port>, affectId: nat, prev: IpStep, init: seq<IpData>, d: IpData)
    requires ips <= prev.ips && ports <= prev.ports
    requires NewAddressesInserted(ips, ports, affectId, init, prev)
    requires IpsFromInputs(prev.ips, |ips|, affectId, init, prev.ids)
    requires PortsOwnedBelow(prev.ports, |ports|, prev.nextIpId)
    ensures NewAddressesInserted(ips, ports, affectId, init + [d], AttachIp(prev, affectId, d))
  {
    var inputs := init + [d];
    var r := AttachIp(prev, affectId, d);
    forall j | 0 <= j < |inputs| && FirstWithAddress(inputs, j) && FindByAddress(ips, inputs[j].adresseIp).None?
      ensures CreatedAs(ips, ports, affectId, inputs[j], r, r.ids[j])
    {
      if j < |init| {
        assert forall l :: 0 <= l <= j ==> inputs[l] == init[l];
        assert FirstWithAddress(init, j);
        AttachIpKeepsCreated(ips, ports, affectId, prev, init[j], prev.ids[j], d);
      } else {
        assert forall l :: 0 <= l < |init| ==> init[l].adresseIp != d.adresseIp by {
          assert forall l :: 0 <= l < |init| ==> inputs[l] == init[l];
        }
        AddressNotInserted(ips, prev.ips, affectId, init, prev.ids, d.adresseIp);
        AttachIpCreatesNew(ips, ports, affectId, prev, d);
      }
    }
  }

  /** An IP created earlier in the request keeps its row and its ports when one more entry is attached. */
  lemma AttachIpKeepsCreated(ips: seq<Ip>, ports: seq<Port>, affectId: nat, prev: IpStep, e: IpData, id: nat, d: IpData)
    requires ports <= prev.ports
    requires CreatedAs(ips, ports, affectId, e, prev, id)
    ensures CreatedAs(ips, ports, affectId, e, AttachIp(prev, affectId, d), id)
  {
    var r := AttachIp(prev, affectId, d);
    var added := if FindByAddress(prev.ips, d.adresseIp).None? then PortRows(d.ports, prev.nextIpId, prev.nextPortId) else [];
    var before := prev.ports[|ports|..];
    assert r.ports == prev.ports + added;
    assert r.ports[|ports|..] == before + added;
    var k :| |ips| <= k < |prev.ips| && prev.ips[k] == Ip(id, affectId, e.adresseIp);
    assert r.ips[k] == prev.ips[k];
    var s0: nat :| PortsOwnedBy(before, id) == PortRows(e.ports, id, s0);
    PortsOwnedByAppend(before, added, id);
    PortsOwnedByNone(added, id);
    assert PortsOwnedBy(r.ports[|ports|..], id) == PortRows(e.ports, id, s0);
  }

  /** An entry whose address is nowhere yet gets a new IP under the counter, owning exactly its listed ports. */
  lemma AttachIpCreatesNew(ips: seq<Ip>, ports: seq<Port>, affectId: nat, prev: IpStep, d: IpData)
    requires ips <= prev.ips && ports <= prev.ports
    requires PortsOwnedBelow(prev.ports, |ports|, prev.nextIpId)
    requires FindByAddress(prev.ips, d.adresseIp).None?
    ensures CreatedAs(ips, ports, affectId, d, AttachIp(prev, affectId, d), prev.nextIpId)
  {
    var r := AttachIp(prev, affectId, d);
    var added := PortRows(d.ports, prev.nextIpId, prev.nextPortId);
    var before := prev.ports[|ports|..];
    assert r.ports == prev.ports + added;
    assert r.ports[|ports|..] == before + added;
    assert r.ips[|prev.ips|] == Ip(prev.nextIpId, affectId, d.adresseIp);
    assert forall k :: 0 <= k < |before| ==> before[k] == prev.ports[|ports| + k];
    PortsOwnedByNone(before, prev.nextIpId);
    PortsOwnedByAll(added, prev.nextIpId);
    PortsOwnedByAppend(before, added, prev.nextIpId);
    assert PortsOwnedBy(r.ports[|ports|..], prev.nextIpId) == PortRows(d.ports, prev.nextIpId, prev.nextPortId);
  }

  /** Every IP row from `start` on has an address that no earlier row has. */
  predicate FreshAddressesFrom(t: seq<Ip>, start: nat)
  {
    forall k, l :: 0 <= l < k < |t| && start <= k ==> t[l].adresseIp != t[k].adresseIp
  }

  /** No stored address is inserted again, and a request naming one address twice inserts it once. */
  lemma {:induction false} AttachIpsFresh(ips: seq<Ip>, ports: seq<Port>, nextIpId: nat, nextPortId: nat,
                                          affectId: nat, inputs: seq<IpData>)
    ensures FreshAddressesFrom(AttachIps(ips, ports, nextIpId, nextPortId, affectId, inputs).ips, |ips|)
    decreases |inputs|
  {
    if inputs != [] {
      var init := inputs[..|inputs| - 1];
      AttachIpsFresh(ips, ports, nextIpId, nextPortId, affectId, init);
      var prev := AttachIps(ips, ports, nextIpId, nextPortId, affectId, init);
      var r := AttachIps(ips, ports, nextIpId, nextPortId, affectId, inputs);
      var d := inputs[|inputs| - 1];
      if FindByAddress(prev.ips, d.adresseIp).None? {
        assert r.ips == prev.ips + [Ip(prev.nextIpId, affectId, d.adresseIp)];
        forall k, l | 0 <= l < k < |r.ips| && |ips| <= k
          ensures r.ips[l].adresseIp != r.ips[k].adresseIp
        {
          assert r.ips[l] == prev.ips[l];
          if k < |prev.ips| {
            assert r.ips[k] == prev.ips[k];
          }
        }
      }
    }
  }

  /** IP and port ids stay fresh: each inserted row takes its table's counter. */
  lemma {:induction false} AttachIpsIds(ips: seq<Ip>, ports: seq<Port>, nextIpId: nat, nextPortId: nat,
                                        affectId: nat, inputs: seq<IpData>)
    requires FreshIds(IpIds(ips), nextIpId) && FreshIds(PortIds(ports), nextPortId)
    ensures var r := AttachIps(ips, ports, nextIpId, nextPortId, affectId, inputs);
      FreshIds(IpIds(r.ips), r.nextIpId) && FreshIds(PortIds(r.ports), r.nextPortId)
    decreases |inputs|
  {
    if inputs != [] {
      var init := inputs[..|inputs| - 1];
      AttachIpsIds(ips, ports, nextIpId, nextPortId, affectId, init);
      var prev := AttachIps(ips, ports, nextIpId, nextPortId, affectId, init);
      var d := inputs[|inputs| - 1];
      if FindByAddress(prev.ips, d.adresseIp).None? {
        assert IpIds(prev.ips + [Ip(prev.nextIpId, affectId, d.adresseIp)]) == IpIds(prev.ips) + [prev.nextIpId];
        FreshIdsAppend(IpIds(prev.ips), prev.nextIpId);
        PortRowsIds(prev.ports, d.ports, prev.nextIpId, prev.nextPortId);
      }
    }
  }

  /** Appending the port rows numbered from the counter keeps port ids fresh. */
  lemma PortRowsIds(ports: seq<Port>, ps: seq<PortData>, ipId: nat, nextPortId: nat)
    requires FreshIds(PortIds(ports), nextPortId)
    ensures FreshIds(PortIds(ports + PortRows(ps, ipId, nextPortId)), nextPortId + |ps|)
  {
    var all := ports + PortRows(ps, ipId, nextPortId);
    forall k | |ports| <= k < |all|
      ensures all[k].id == nextPortId + (k - |ports|)
    {
      assert all[k] == PortRows(ps, ipId, nextPortId)[k - |ports|];
    }
    forall k | 0 <= k < |ports|
      ensures all[k] == ports[k]
    {
    }
  }

  // ---------------------------------------------------------------------------
  // `delete_auditeur` and `update_auditeur`.

  /** `list.remove`: drop the first occurrence of `x`, if any. */
  function RemoveFirst(s: seq<nat>, x: nat): (r: seq<nat>)
    ensures x in s ==> |r| == |s| - 1
    ensures x !in s ==> r == s
    ensures multiset(r) == multiset(s) - multiset{x}
    decreases |s|
  {
    if s == [] then []
    else
      assert s == [s[0]] + s[1..];
      if s[0] == x then s[1..] else [s[0]] + RemoveFirst(s[1..], x)
  }

  /** In a list without duplicates, removing an id removes it entirely. */
  lemma {:induction false} RemoveFirstNoDuplicates(s: seq<nat>, x: nat)
    requires NoDuplicates(s)
    ensures x !in RemoveFirst(s, x)
    decreases |s|
  {
    if s != [] {
      if s[0] == x {
        assert forall j :: 0 <= j < |s[1..]| ==> s[1..][j] == s[j + 1];
      } else {
        RemoveFirstNoDuplicates(s[1..], x);
      }
    }
  }

  /** Every other id stays listed, and nothing new is listed. */
  lemma RemoveFirstKeepsOthers(s: seq<nat>, x: nat, y: nat)
    requires y != x
    ensures y in RemoveFirst(s, x) <==> y in s
  {
    var r := RemoveFirst(s, x);
    assert y in r <==> y in multiset(r);
    assert y in s <==> y in multiset(s);
  }

  /** The loop body of `delete_auditeur` for one affectation listing the auditor. */
  function DetachFrom(a: Affectation, id: nat): (r: Affectation)
    ensures r.id == a.id && r.ips == a.ips
    ensures multiset(r.auditeurs) == multiset(a.auditeurs) - multiset{id}
  {
    if id in a.auditeurs then a.(auditeurs := RemoveFirst(a.auditeurs, id)) else a
  }

  /** `for affect in auditeur.affects: affect.auditeurs.remove(auditeur)` over the whole table. */
  function Detach(affs: seq<Affectation>, id: nat): (r: seq<Affectation>)
    ensures |r| == |affs| && forall k :: 0 <= k < |affs| ==> r[k] == DetachFrom(affs[k], id)
  {
    seq(|affs|, k requires 0 <= k < |affs| => DetachFrom(affs[k], id))
  }

  /** With duplicate-free association lists, no affectation refers to the deleted auditor afterwards. */
  lemma DetachLeavesNoReference(affs: seq<Affectation>, id: nat)
    requires forall k :: 0 <= k < |affs| ==> NoDuplicates(affs[k].auditeurs)
    ensures forall k :: 0 <= k < |affs| ==> id !in Detach(affs, id)[k].auditeurs
    ensures forall k, x :: 0 <= k < |affs| && x != id ==> (x in Detach(affs, id)[k].auditeurs <==> x in affs[k].auditeurs)
  {
    forall k | 0 <= k < |affs|
      ensures id !in Detach(affs, id)[k].auditeurs
      ensures forall x :: x != id ==> (x in Detach(affs, id)[k].auditeurs <==> x in affs[k].auditeurs)
    {
      RemoveFirstNoDuplicates(affs[k].auditeurs, id);
      forall x | x != id
        ensures x in Detach(affs, id)[k].auditeurs <==> x in affs[k].auditeurs
      {
        RemoveFirstKeepsOthers(affs[k].auditeurs, id, x);
      }
    }
  }

  /** The table without row `i`. */
  function RemoveAt(t: seq<Auditeur>, i: nat): (r: seq<Auditeur>)
    requires i < |t|
    ensures |r| == |t| - 1
    ensures forall k :: 0 <= k < i ==> r[k] == t[k]
    ensures forall k :: i <= k < |r| ==> r[k] == t[k + 1]
  {
    t[..i] + t[i + 1..]
  }

  /** Deleting a row keeps ids fresh, and with distinct ids no row with the deleted id remains. */
  lemma RemoveAtIds(t: seq<Auditeur>, i: nat, next: nat)
    requires i < |t| && FreshIds(AuditeurIds(t), next)
    ensures FreshIds(AuditeurIds(RemoveAt(t, i)), next)
    ensures forall k :: 0 <= k < |t| - 1 ==> RemoveAt(t, i)[k].id != t[i].id
  {
    var r := RemoveAt(t, i);
    var ids := AuditeurIds(t);
    forall k, l | 0 <= k < l < |r|
      ensures r[k].id != r[l].id
    {
      var k' := if k < i then k else k + 1;
      var l' := if l < i then l else l + 1;
      assert r[k] == t[k'] && r[l] == t[l'] && ids[k'] == t[k'].id && ids[l'] == t[l'].id;
    }
    forall k | 0 <= k < |r|
      ensures r[k].id != t[i].id
    {
      var k' := if k < i then k else k + 1;
      assert r[k] == t[k'] && ids[k'] == t[k'].id && ids[i] == t[i].id;
    }
  }

  /** The row `update_auditeur` writes: same id, the five request fields. */
  function Edited(a: Auditeur, d: AuditeurData): (r: Auditeur)
    ensures r.id == a.id
  {
    NewAuditeur(a.id, d)
  }

  /** Editing a row keeps the id column as it was. */
  lemma EditKeepsIds(t: seq<Auditeur>, i: nat, d: AuditeurData)
    requires i < |t|
    ensures AuditeurIds(t[i := Edited(t[i], d)]) == AuditeurIds(t)
  {
  }

  // ---------------------------------------------------------------------------
  // The tables the service works on.

  class Registry {
    var auditeurs: seq<Auditeur>
    var ips: seq<Ip>
    var ports: seq<Port>
    var affectations: seq<Affectation>
    var nextAuditeurId: nat
    var nextIpId: nat
    var nextPortId: nat
    var nextAffectationId: nat

    /** Every table's ids are distinct and below its counter. */
    ghost predicate Valid()
      reads this
    {
      && FreshIds(AuditeurIds(auditeurs), nextAuditeurId)
      && FreshIds(IpIds(ips), nextIpId)
      && FreshIds(PortIds(ports), nextPortId)
      && FreshIds(AffectationIds(affectations), nextAffectationId)
    }

    constructor ()
      ensures Valid()
      ensures auditeurs == [] && ips == [] && ports == [] && affectations == []
    {
      auditeurs := [];
      ips := [];
      ports := [];
      affectations := [];
      nextAuditeurId := 0;
      nextIpId := 0;
      nextPortId := 0;
      nextAffectationId := 0;
    }

    /** The auditor loop of `create_affect`. */
    method InsertAuditeurs(inputs: seq<AuditeurData>) returns (ids: seq<nat>)
      modifies this
      ensures AuditeurStep(auditeurs, nextAuditeurId, ids) == AttachAuditeurs(old(auditeurs), old(nextAuditeurId), inputs)
      ensures ips == old(ips) && ports == old(ports) && affectations == old(affectations)
      ensures nextIpId == old(nextIpId) && nextPortId == old(nextPortId) && nextAffectationId == old(nextAffectationId)
    {
      ids := [];
      for i := 0 to |inputs|
        invariant AuditeurStep(auditeurs, nextAuditeurId, ids) == AttachAuditeurs(old(auditeurs), old(nextAuditeurId), inputs[..i])
        invariant ips == old(ips) && ports == old(ports) && affectations == old(affectations)
        invariant nextIpId == old(nextIpId) && nextPortId == old(nextPortId) && nextAffectationId == old(nextAffectationId)
      {
        var d := inputs[i];
        assert inputs[..i + 1][..i] == inputs[..i];
        assert AttachAuditeurs(old(auditeurs), old(nextAuditeurId), inputs[..i + 1]) ==
          AttachAuditeur(AuditeurStep(auditeurs, nextAuditeurId, ids), d);
        match FindByEmail(auditeurs, d.email)
        case Some(k) =>
          ids := ids + [auditeurs[k].id];
        case None =>
          auditeurs := auditeurs + [NewAuditeur(nextAuditeurId, d)];
          ids := ids + [nextAuditeurId];
          nextAuditeurId := nextAuditeurId + 1;
      }
      assert inputs[..|inputs|] == inputs;
    }

    /** The port loop for a newly created IP. */
    method InsertPorts(ipId: nat, ps: seq<PortData>)
      modifies this
      ensures ports == old(ports) + PortRows(ps, ipId, old(nextPortId)) && nextPortId == old(nextPortId) + |ps|
      ensures auditeurs == old(auditeurs) && ips == old(ips) && affectations == old(affectations)
      ensures nextAuditeurId == old(nextAuditeurId) && nextIpId == old(nextIpId)
      ensures nextAffectationId == old(nextAffectationId)
    {
      for k := 0 to |ps|
        invariant ports == old(ports) + PortRows(ps[..k], ipId, old(nextPortId)) && nextPortId == old(nextPortId) + k
        invariant auditeurs == old(auditeurs) && ips == old(ips) && affectations == old(affectations)
        invariant nextAuditeurId == old(nextAuditeurId) && nextIpId == old(nextIpId)
        invariant nextAffectationId == old(nextAffectationId)
      {
        assert ps[..k + 1][..k] == ps[..k];
        ports := ports + [Port(nextPortId, ps[k].port, ps[k].status, ipId)];
        nextPortId := nextPortId + 1;
      }
      assert ps[..|ps|] == ps;
    }

    /** The IP loop of `create_affect` for affectation `affectId`. */
    method InsertIps(affectId: nat, inputs: seq<IpData>) returns (ids: seq<nat>)
      modifies this
      ensures IpStep(ips, ports, nextIpId, nextPortId, ids) ==
        AttachIps(old(ips), old(ports), old(nextIpId), old(nextPortId), affectId, inputs)
      ensures auditeurs == old(auditeurs) && affectations == old(affectations)
      ensures nextAuditeurId == old(nextAuditeurId) && nextAffectationId == old(nextAffectationId)
    {
      ids := [];
      for i := 0 to |inputs|
        invariant IpStep(ips, ports, nextIpId, nextPortId, ids) ==
          AttachIps(old(ips), old(ports), old(nextIpId), old(nextPortId), affectId, inputs[..i])
        invariant auditeurs == old(auditeurs) && affectations == old(affectations)
        invariant nextAuditeurId == old(nextAuditeurId) && nextAffectationId == old(nextAffectationId)
      {
        var d := inputs[i];
        assert inputs[..i + 1][..i] == inputs[..i];
        assert AttachIps(old(ips), old(ports), old(nextIpId), old(nextPortId), affectId, inputs[..i + 1]) ==
          AttachIp(IpStep(ips, ports, nextIpId, nextPortId, ids), affectId, d);
        match FindByAddress(ips, d.adresseIp)
        case Some(k) =>
          ids := ids + [ips[k].id];
        case None =>
          var ipId := nextIpId;
          ips := ips + [Ip(ipId, affectId, d.adresseIp)];
          nextIpId := nextIpId + 1;
          InsertPorts(ipId, d.ports);
          ids := ids + [ipId];
      }
      assert inputs[..|inputs|] == inputs;
    }

    /**
     * `create_affect`: store the affectation, attach the auditors and the IPs,
     * then record the path of the rendered PDF (`pdfPath`).
     */
    method CreateAffect(data: AffectData, pdfPath: string) returns (affect: Affectation)
      requires Valid()
      modifies this
      ensures Valid()
      ensures var a := AttachAuditeurs(old(auditeurs), old(nextAuditeurId), data.auditeurs);
        && auditeurs == a.table && nextAuditeurId == a.nextId
        && affect.auditeurs == a.ids
      ensures var i := AttachIps(old(ips), old(ports), old(nextIpId), old(nextPortId), old(nextAffectationId), data.ips);
        && ips == i.ips && ports == i.ports && nextIpId == i.nextIpId && nextPortId == i.nextPortId
        && affect.ips == i.ids
      ensures affect.id == old(nextAffectationId) && affect.affectationPath == Some(pdfPath)
      ensures affect.demandeAuditId == data.demandeAuditId && affect.prestataireId == data.prestataireId
      ensures affect.typeAudit == data.typeAudit
      ensures affectations == old(affectations) + [affect] && nextAffectationId == old(nextAffectationId) + 1
    {
      var affectId := nextAffectationId;
      ghost var before := affectations;
      AttachAuditeursIds(auditeurs, nextAuditeurId, data.auditeurs);
      AttachIpsIds(ips, ports, nextIpId, nextPortId, affectId, data.ips);
      var auditeurIds := InsertAuditeurs(data.auditeurs);
      var ipIds := InsertIps(affectId, data.ips);
      affect := Affectation(affectId, data.demandeAuditId, data.prestataireId, data.typeAudit,
                            auditeurIds, ipIds, Some(pdfPath));
      assert AffectationIds(affectations + [affect]) == AffectationIds(affectations) + [affectId];
      FreshIdsAppend(AffectationIds(affectations), affectId);
      affectations := affectations + [affect];
      nextAffectationId := nextAffectationId + 1;
    }

    /**
     * `delete_auditeur`: not found yields `None`; otherwise the auditor leaves
     * every affectation listing it, then its row is deleted.
     */
    method DeleteAuditeur(id: nat) returns (r: Option<Auditeur>)
      requires Valid()
      modifies this
      ensures Valid()
      ensures ips == old(ips) && ports == old(ports)
      ensures nextAuditeurId == old(nextAuditeurId) && nextIpId == old(nextIpId)
      ensures nextPortId == old(nextPortId) && nextAffectationId == old(nextAffectationId)
      ensures old(IndexOfAuditeur(auditeurs, id)).None? ==>
        r.None? && auditeurs == old(auditeurs) && affectations == old(affectations)
      ensures old(IndexOfAuditeur(auditeurs, id)).Some? ==>
        var i := old(IndexOfAuditeur(auditeurs, id)).value;
        && r == Some(old(auditeurs)[i])
        && auditeurs == RemoveAt(old(auditeurs), i)
        && affectations == Detach(old(affectations), id)
    {
      var found := IndexOfAuditeur(auditeurs, id);
      if found.None? {
        return None;
      }
      var i := found.value;
      var auditeur := auditeurs[i];
      for k := 0 to |affectations|
        invariant |affectations| == |old(affectations)|
        invariant forall j :: 0 <= j < k ==> affectations[j] == DetachFrom(old(affectations)[j], id)
        invariant forall j :: k <= j < |affectations| ==> affectations[j] == old(affectations)[j]
        invariant auditeurs == old(auditeurs) && nextAffectationId == old(nextAffectationId)
        invariant ips == old(ips) && ports == old(ports)
        invariant nextAuditeurId == old(nextAuditeurId) && nextIpId == old(nextIpId) && nextPortId == old(nextPortId)
      {
        if id in affectations[k].auditeurs {
          affectations := affectations[k := affectations[k].(auditeurs := RemoveFirst(affectations[k].auditeurs, id))];
        }
      }
      assert affectations == Detach(old(affectations), id);
      assert AffectationIds(affectations) == AffectationIds(old(affectations));
      RemoveAtIds(auditeurs, i, nextAuditeurId);
      auditeurs := RemoveAt(auditeurs, i);
      r := Some(auditeur);
    }

    /**
     * `update_auditeur`: not found yields `None`; otherwise the five fields of
     * the request overwrite the row, whose id stays.
     */
    method UpdateAuditeur(id: nat, data: AuditeurData) returns (r: Option<Auditeur>)
      requires Valid()
      modifies this
      ensures Valid()
      ensures ips == old(ips) && ports == old(ports) && affectations == old(affectations)
      ensures nextAuditeurId == old(nextAuditeurId) && nextIpId == old(nextIpId)
      ensures nextPortId == old(nextPortId) && nextAffectationId == old(nextAffectationId)
      ensures old(IndexOfAuditeur(auditeurs, id)).None? ==> r.None? && auditeurs == old(auditeurs)
      ensures old(IndexOfAuditeur(auditeurs, id)).Some? ==>
        var i := old(IndexOfAuditeur(auditeurs, id)).value;
        && auditeurs == old(auditeurs)[i := NewAuditeur(id, data)]
        && r == Some(NewAuditeur(id, data))
    {
      var found := IndexOfAuditeur(auditeurs, id);
      if found.None? {
        return None;
      }
      var i := found.value;
      EditKeepsIds(auditeurs, i, data);
      auditeurs := auditeurs[i := Edited(auditeurs[i], data)];
      r := Some(auditeurs[i]);
    }
  }
}
