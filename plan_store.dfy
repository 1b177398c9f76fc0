/**
 * The plan service over the `plans` table: spreadsheet import, update,
 * filtered listing and the flattening done by the spreadsheet export.
 */
module PlanStore {
  import opened Common
  import opened Vulnerabilities
  import opened Plans
  import opened PlanImport

  /** The columns every uploaded spreadsheet must have. */
  const RequiredColumns: set<string> := {
    "ref", "application", "type_application", "type_audit",
    "date_realisation", "date_cloture", "date_rapport",
    "nb_vulnerabilites", "niveau_securite", "commentaire_dcsg",
    "commentaire_cp", "taux_remediation",
    "titre", "criticite", "pourcentage_remediation", "statut_remediation", "actions"}

  predicate EndsWith(s: string, suffix: string)
  {
    |suffix| <= |s| && s[|s| - |suffix|..] == suffix
  }

  /** The accepted spreadsheet extensions. */
  predicate ExcelFileName(filename: string)
  {
    EndsWith(filename, ".xls") || EndsWith(filename, ".xlsx")
  }

  /**
   * The upload's answer: a 400 for a wrong extension, a 500 for any
   * whole-file failure (missing columns included), otherwise success even
   * when some or all groups were rolled back.
   */
  datatype ImportOutcome = UnsupportedFormat | ProcessingFailed | Imported

  /** An update: `None` marks a field left unset; a set field carries its new value. */
  datatype PlanUpdate = PlanUpdate(
    ref: Option<string>,
    application: Option<Option<string>>,
    typeApplication: Option<Option<string>>,
    typeAudit: Option<Option<string>>,
    dateRealisation: Option<Option<Date>>,
    dateCloture: Option<Option<Date>>,
    dateRapport: Option<Option<Date>>,
    niveauSecurite: Option<Option<string>>,
    nbVulnerabilites: Option<string>,
    tauxRemediation: Option<Option<real>>,
    commentaireDcsg: Option<Option<string>>,
    commentaireCp: Option<Option<string>>,
    vulnerabilites: Option<seq<Vulnerability>>)

  /**
   * The plan after an update: every set field is written, the others are
   * kept; a supplied vulnerability list replaces the old one entirely and
   * both summary fields are recomputed from it.
   */
  function PatchPlan(p: Plan, u: PlanUpdate): (r: Plan)
    ensures r.id == p.id
    ensures r.ref == (if u.ref.Some? then u.ref.value else p.ref)
    ensures r.application == (if u.application.Some? then u.application.value else p.application)
    ensures r.typeApplication == (if u.typeApplication.Some? then u.typeApplication.value else p.typeApplication)
    ensures r.typeAudit == (if u.typeAudit.Some? then u.typeAudit.value else p.typeAudit)
    ensures r.dateRealisation == (if u.dateRealisation.Some? then u.dateRealisation.value else p.dateRealisation)
    ensures r.dateCloture == (if u.dateCloture.Some? then u.dateCloture.value else p.dateCloture)
    ensures r.dateRapport == (if u.dateRapport.Some? then u.dateRapport.value else p.dateRapport)
    ensures r.niveauSecurite == (if u.niveauSecurite.Some? then u.niveauSecurite.value else p.niveauSecurite)
    ensures r.commentaireDcsg == (if u.commentaireDcsg.Some? then u.commentaireDcsg.value else p.commentaireDcsg)
    ensures r.commentaireCp == (if u.commentaireCp.Some? then u.commentaireCp.value else p.commentaireCp)
    ensures u.vulnerabilites.Some? ==>
      && r.vulnerabilites == u.vulnerabilites.value
      && r.nbVulnerabilites == Counts(ComputeVulnerabilitySummary(u.vulnerabilites.value))
      && r.nbVulnerabilites.summary.total == |u.vulnerabilites.value|
      && r.tauxRemediation == Some(ComputeTauxRemediation(u.vulnerabilites.value))
    ensures u.vulnerabilites.None? ==> r.vulnerabilites == p.vulnerabilites
    ensures u.vulnerabilites.None? ==>
      r.nbVulnerabilites == (if u.nbVulnerabilites.Some? then Text(u.nbVulnerabilites.value) else p.nbVulnerabilites)
    ensures u.vulnerabilites.None? ==>
      r.tauxRemediation == (if u.tauxRemediation.Some? then u.tauxRemediation.value else p.tauxRemediation)
  {
    var fields := p.(
      ref := Patch(p.ref, u.ref),
      application := Patch(p.application, u.application),
      typeApplication := Patch(p.typeApplication, u.typeApplication),
      typeAudit := Patch(p.typeAudit, u.typeAudit),
      dateRealisation := Patch(p.dateRealisation, u.dateRealisation),
      dateCloture := Patch(p.dateCloture, u.dateCloture),
      dateRapport := Patch(p.dateRapport, u.dateRapport),
      niveauSecurite := Patch(p.niveauSecurite, u.niveauSecurite),
      nbVulnerabilites := if u.nbVulnerabilites.Some? then Text(u.nbVulnerabilites.value) else p.nbVulnerabilites,
      tauxRemediation := Patch(p.tauxRemediation, u.tauxRemediation),
      commentaireDcsg := Patch(p.commentaireDcsg, u.commentaireDcsg),
      commentaireCp := Patch(p.commentaireCp, u.commentaireCp));
    match u.vulnerabilites
    case None => fields
    case Some(vs) =>
      fields.(vulnerabilites := vs,
              nbVulnerabilites := Counts(ComputeVulnerabilitySummary(vs)),
              tauxRemediation := Some(ComputeTauxRemediation(vs)))
  }

  /** An update of nothing leaves the plan as it was. */
  lemma EmptyUpdateIsIdentity(p: Plan)
    ensures PatchPlan(p, PlanUpdate(None, None, None, None, None, None, None, None, None, None, None, None, None)) == p
  {
  }

  /** Applying the same update twice is applying it once: `setattr` of the same values again changes nothing. */
  lemma PatchIdempotent(p: Plan, u: PlanUpdate)
    ensures PatchPlan(PatchPlan(p, u), u) == PatchPlan(p, u)
  {
  }

  /** The position of the plan with id `id`, if it is stored. */
  function IndexOfId(plans: seq<Plan>, id: nat): (r: Option<nat>)
    ensures r.Some? ==> r.value < |plans| && plans[r.value].id == id
    ensures r.None? ==> forall i :: 0 <= i < |plans| ==> plans[i].id != id
  {
    if plans == [] then None
    else if plans[|plans| - 1].id == id then Some(|plans| - 1)
    else IndexOfId(plans[..|plans| - 1], id)
  }

  /** Whether a plan other than the one at `i` already carries `ref` (the unique constraint). */
  predicate RefTakenByOther(plans: seq<Plan>, i: nat, ref: string)
  {
    exists j :: 0 <= j < |plans| && j != i && plans[j].ref == ref
  }

  datatype UpdateOutcome = PlanNotFound | UpdateFailed | Updated(plan: Plan)

  /** Python truthiness of an optional integer filter: given and not zero. */
  predicate ActiveNumber(n: Option<int>)
  {
    n.Some? && n.value != 0
  }

  function LowerChar(c: char): char
  {
    if 'A' <= c <= 'Z' then (c as int + 32) as char else c
  }

  function Lower(s: string): (r: string)
    ensures |r| == |s|
  {
    seq(|s|, i requires 0 <= i < |s| => LowerChar(s[i]))
  }

  predicate OccursAt(hay: string, needle: string, i: nat)
  {
    i + |needle| <= |hay| && hay[i..i + |needle|] == needle
  }

  /** `ilike '%needle%'`: `needle` occurs in `hay`, ignoring the case of ASCII letters. */
  predicate ContainsIgnoreCase(hay: string, needle: string)
  {
    exists i: nat | i <= |hay| :: OccursAt(Lower(hay), Lower(needle), i)
  }

  /** The filters of the listing and of the export; a filter that is unset or falsy is not applied. */
  datatype PlanFilters = PlanFilters(
    ref: Option<string>,
    application: Option<string>,
    typeAudit: Option<string>,
    niveauSecurite: Option<string>,
    dateRealisation: Option<Date>,
    dateCloture: Option<Date>,
    dateRapport: Option<Date>,
    realisationYear: Option<int>,
    realisationMonth: Option<int>,
    clotureYear: Option<int>,
    clotureMonth: Option<int>,
    rapportYear: Option<int>,
    rapportMonth: Option<int>)

  /** `extract(year|month, column) == n`; a null column never matches. */
  predicate YearIs(d: Option<Date>, n: int)
  {
    d.Some? && d.value.year == n
  }

  predicate MonthIs(d: Option<Date>, n: int)
  {
    d.Some? && d.value.month == n
  }

  /** The conjunction of every applied filter. */
  predicate Matches(p: Plan, f: PlanFilters)
  {
    && (Truthy(f.ref) ==> ContainsIgnoreCase(p.ref, f.ref.value))
    && (Truthy(f.application) ==> p.application.Some? && ContainsIgnoreCase(p.application.value, f.application.value))
    && (Truthy(f.typeAudit) ==> p.typeAudit == f.typeAudit)
    && (Truthy(f.niveauSecurite) ==> p.niveauSecurite == f.niveauSecurite)
    && (f.dateRealisation.Some? ==> p.dateRealisation == f.dateRealisation)
    && (f.dateCloture.Some? ==> p.dateCloture == f.dateCloture)
    && (f.dateRapport.Some? ==> p.dateRapport == f.dateRapport)
    && (ActiveNumber(f.realisationYear) ==> YearIs(p.dateRealisation, f.realisationYear.value))
    && (ActiveNumber(f.realisationMonth) ==> MonthIs(p.dateRealisation, f.realisationMonth.value))
    && (ActiveNumber(f.clotureYear) ==> YearIs(p.dateCloture, f.clotureYear.value))
    && (ActiveNumber(f.clotureMonth) ==> MonthIs(p.dateCloture, f.clotureMonth.value))
    && (ActiveNumber(f.rapportYear) ==> YearIs(p.dateRapport, f.rapportYear.value))
    && (ActiveNumber(f.rapportMonth) ==> MonthIs(p.dateRapport, f.rapportMonth.value))
  }

  /** `get_filtered_plans`: the stored plans that pass every applied filter, in table order. */
  function GetFilteredPlans(plans: seq<Plan>, f: PlanFilters): (r: seq<Plan>)
    ensures |r| <= |plans|
    ensures forall p :: p in r <==> p in plans && Matches(p, f)
  {
    if plans == [] then []
    else
      var last := plans[|plans| - 1];
      assert plans == plans[..|plans| - 1] + [last];
      GetFilteredPlans(plans[..|plans| - 1], f) + (if Matches(last, f) then [last] else [])
  }
  /** Filtering works plan by plan: each stored plan is listed once, in place, exactly when it matches. */
  lemma {:induction false} GetFilteredPlansAppend(a: seq<Plan>, b: seq<Plan>, f: PlanFilters)
    ensures GetFilteredPlans(a + b, f) == GetFilteredPlans(a, f) + GetFilteredPlans(b, f)
    decreases |b|
  {
    if b == [] {
      assert a + b == a;
    } else {
      var init := b[..|b| - 1];
      assert (a + b)[..|a + b| - 1] == a + init;
      GetFilteredPlansAppend(a, init, f);
    }
  }

  lemma GetFilteredPlansSingle(p: Plan, f: PlanFilters)
    ensures GetFilteredPlans([p], f) == (if Matches(p, f) then [p] else [])
  {
    assert [p][..0] == [];
  }


  /** With no filter applied every plan is listed, in order. */
  /** The listing's query with no filter parameter given. */
  const NoFilters := PlanFilters(None, None, None, None, None, None, None, None, None, None, None, None, None)

  /** No filter rejects a plan. */
  lemma NoFilterMatches(p: Plan)
    ensures Matches(p, NoFilters)
  {
  }

  /** A filter every stored plan passes lists the whole table, in order. */
  lemma {:induction false} AllMatchListsAll(plans: seq<Plan>, f: PlanFilters)
    requires forall i :: 0 <= i < |plans| ==> Matches(plans[i], f)
    ensures GetFilteredPlans(plans, f) == plans
    decreases |plans|
  {
    if plans != [] {
      var init, last := plans[..|plans| - 1], plans[|plans| - 1];
      AllMatchListsAll(init, f);
      assert plans == init + [last];
    }
  }

  lemma NoFilterListsAll(plans: seq<Plan>)
    ensures GetFilteredPlans(plans, NoFilters) == plans
  {
    forall i | 0 <= i < |plans|
      ensures Matches(plans[i], NoFilters)
    {
      NoFilterMatches(plans[i]);
    }
    AllMatchListsAll(plans, NoFilters);
  }

  /** One output line of the export: the plan's columns and one vulnerability, or blanks (`None`). */
  datatype ExportRow = ExportRow(
    planId: nat,
    ref: string,
    application: Option<string>,
    typeApplication: Option<string>,
    typeAudit: Option<string>,
    dateRealisation: Option<Date>,
    dateCloture: Option<Date>,
    dateRapport: Option<Date>,
    niveauSecurite: Option<string>,
    nbVulnerabilites: SummaryCache,
    commentaireDcsg: Option<string>,
    commentaireCp: Option<string>,
    vulnerability: Option<Vulnerability>)

  function ExportRowOf(p: Plan, v: Option<Vulnerability>): ExportRow
  {
    ExportRow(p.id, p.ref, p.application, p.typeApplication, p.typeAudit, p.dateRealisation,
              p.dateCloture, p.dateRapport, p.niveauSecurite, p.nbVulnerabilites,
              p.commentaireDcsg, p.commentaireCp, v)
  }

  /** The lines of one plan: one per vulnerability, or a single blank line for a plan with none. */
  function PlanRows(p: Plan): (rows: seq<ExportRow>)
    ensures |rows| == if p.vulnerabilites == [] then 1 else |p.vulnerabilites|
  {
    if p.vulnerabilites == [] then [ExportRowOf(p, None)]
    else seq(|p.vulnerabilites|, j requires 0 <= j < |p.vulnerabilites| => ExportRowOf(p, Some(p.vulnerabilites[j])))
  }

  /** The export's `combined_data`: the lines of every plan, plan after plan. */
  function Flatten(plans: seq<Plan>): seq<ExportRow>
  {
    if plans == [] then [] else Flatten(plans[..|plans| - 1]) + PlanRows(plans[|plans| - 1])
  }

  /** The number of export lines of a list of plans. */
  function LineCount(plans: seq<Plan>): nat
  {
    if plans == [] then 0
    else LineCount(plans[..|plans| - 1]) + (if plans[|plans| - 1].vulnerabilites == [] then 1 else |plans[|plans| - 1].vulnerabilites|)
  }

  /** Each plan contributes max(1, its number of vulnerabilities) lines. */
  lemma {:induction false} FlattenLength(plans: seq<Plan>)
    ensures |Flatten(plans)| == LineCount(plans)
    ensures |Flatten(plans)| >= |plans|
  {
    if plans != [] {
      FlattenLength(plans[..|plans| - 1]);
    }
  }

  /**
   * Every vulnerability of every exported plan appears on a line of its own
   * beside its plan's columns, and a plan without vulnerabilities gets one
   * blank line.
   */
  lemma {:induction false} FlattenCovers(plans: seq<Plan>, i: nat)
    requires i < |plans|
    ensures forall j :: 0 <= j < |plans[i].vulnerabilites| ==>
      ExportRowOf(plans[i], Some(plans[i].vulnerabilites[j])) in Flatten(plans)
    ensures plans[i].vulnerabilites == [] ==> ExportRowOf(plans[i], None) in Flatten(plans)
  {
    var init := plans[..|plans| - 1];
    var p := plans[i];
    if i == |plans| - 1 {
      assert forall j :: 0 <= j < |p.vulnerabilites| ==> PlanRows(p)[j] == ExportRowOf(p, Some(p.vulnerabilites[j]));
      assert forall x :: x in PlanRows(p) ==> x in Flatten(plans);
    } else {
      FlattenCovers(init, i);
      assert init[i] == p;
      assert forall x :: x in Flatten(init) ==> x in Flatten(plans);
    }
  }

  /** `row` is a line of plan `p`: blanks when it has no vulnerability, otherwise one of its vulnerabilities. */
  predicate LineOfPlan(row: ExportRow, p: Plan)
  {
    if p.vulnerabilites == [] then row == ExportRowOf(p, None)
    else row.vulnerability.Some? && row.vulnerability.value in p.vulnerabilites && row == ExportRowOf(p, row.vulnerability)
  }

  /** Every export line belongs to one of the plans, and carries one of its vulnerabilities or blanks when it has none. */
  lemma {:induction false} FlattenSound(plans: seq<Plan>, row: ExportRow)
    requires row in Flatten(plans)
    ensures exists i :: 0 <= i < |plans| && LineOfPlan(row, plans[i])
  {
    var init := plans[..|plans| - 1];
    var p := plans[|plans| - 1];
    if row in Flatten(init) {
      FlattenSound(init, row);
      var i :| 0 <= i < |init| && LineOfPlan(row, init[i]);
      assert plans[i] == init[i];
    } else {
      assert row in PlanRows(p);
      if p.vulnerabilites != [] {
        var j :| 0 <= j < |p.vulnerabilites| && PlanRows(p)[j] == row;
        assert row == ExportRowOf(p, Some(p.vulnerabilites[j]));
      }
      assert plans[|plans| - 1] == p;
    }
  }

  /** The stored plans, as the service sees them within one session. */
  class Store {
    var plans: seq<Plan>
    var nextId: nat

    ghost predicate Valid()
      reads this
    {
      TableInvariant(plans, nextId)
    }

    constructor ()
      ensures Valid() && plans == [] && nextId == 0
    {
      plans := [];
      nextId := 0;
    }

    /**
     * `process_uploaded_plan`: checks the file name and the columns, drops the
     * incomplete rows, groups the rest by ref and inserts each group in its
     * own transaction, in first-seen order.
     */
    method ProcessUploadedPlan(filename: string, columns: set<string>, rows: seq<Row>, parse: DateParser)
      returns (r: ImportOutcome)
      requires Valid()
      modifies this
      ensures Valid()
      ensures !ExcelFileName(filename) ==> r == UnsupportedFormat && plans == old(plans) && nextId == old(nextId)
      ensures ExcelFileName(filename) && !(RequiredColumns <= columns) ==>
        r == ProcessingFailed && plans == old(plans) && nextId == old(nextId)
      ensures ExcelFileName(filename) && RequiredColumns <= columns ==>
        var kept := DropIncomplete(rows);
        && r == Imported
        && GroupsCover(DistinctRefs(kept), GroupMap(kept))
        && Table(plans, nextId) == ImportGroups(Table(old(plans), old(nextId)), DistinctRefs(kept), GroupMap(kept), parse)
    {
      if !ExcelFileName(filename) {
        return UnsupportedFormat;
      }
      if !(RequiredColumns <= columns) {
        return ProcessingFailed;
      }
      var kept := DropIncomplete(rows);
      var keys, grouped := GroupRows(kept);
      InsertGroups(keys, grouped, parse);
      r := Imported;
    }

    /** The insert loop: each group is committed as one plan or rolled back, in key order. */
    method InsertGroups(keys: seq<string>, grouped: map<string, seq<Row>>, parse: DateParser)
      requires Valid() && GroupsCover(keys, grouped)
      modifies this
      ensures Valid()
      ensures Table(plans, nextId) == ImportGroups(Table(old(plans), old(nextId)), keys, grouped, parse)
    {
      ghost var start := Table(plans, nextId);
      for i := 0 to |keys|
        invariant Table(plans, nextId) == ImportGroups(start, keys[..i], grouped, parse)
        invariant Valid()
      {
        assert keys[..i + 1][..i] == keys[..i];
        assert keys[..i + 1][i] == keys[i];
        var groupRows := grouped[keys[i]];
        var result := PlanOfGroup(plans, nextId, groupRows, parse);
        if result.Created? {
          AppendKeepsInvariant(plans, nextId, result.plan);
          plans := plans + [result.plan];
          nextId := nextId + 1;
        }
      }
      assert keys[..|keys|] == keys;
    }

    /**
     * `update_plan`: a missing plan is not found; otherwise the update is
     * applied, and a ref already carried by another plan makes the commit
     * fail and the update roll back.
     */
    method UpdatePlan(planId: nat, u: PlanUpdate) returns (r: UpdateOutcome)
      requires Valid()
      modifies this
      ensures Valid() && nextId == old(nextId)
      ensures IndexOfId(old(plans), planId).None? ==> r == PlanNotFound && plans == old(plans)
      ensures IndexOfId(old(plans), planId).Some? ==>
        var i := IndexOfId(old(plans), planId).value;
        var patched := PatchPlan(old(plans)[i], u);
        if RefTakenByOther(old(plans), i, patched.ref) then r == UpdateFailed && plans == old(plans)
        else r == Updated(patched) && plans == old(plans)[i := patched]
    {
      var found := IndexOfId(plans, planId);
      if found.None? {
        return PlanNotFound;
      }
      var i := found.value;
      var patched := PatchPlan(plans[i], u);
      if RefTakenByOther(plans, i, patched.ref) {
        return UpdateFailed;
      }
      plans := plans[i := patched];
      r := Updated(patched);
    }

    /**
     * The flattening of `export_plans_to_excel`: nothing when no plan passes
     * the filters, otherwise one line per vulnerability of each selected plan
     * and one blank line per selected plan without any.
     */
    method ExportPlans(f: PlanFilters) returns (r: Option<seq<ExportRow>>)
      ensures r.None? <==> GetFilteredPlans(plans, f) == []
      ensures r.Some? ==> r.value == Flatten(GetFilteredPlans(plans, f))
    {
      var selected := GetFilteredPlans(plans, f);
      if selected == [] {
        return None;
      }
      var combined: seq<ExportRow> := [];
      for i := 0 to |selected|
        invariant combined == Flatten(selected[..i])
      {
        assert selected[..i + 1][..i] == selected[..i];
        var plan := selected[i];
        if plan.vulnerabilites != [] {
          for j := 0 to |plan.vulnerabilites|
            invariant combined == Flatten(selected[..i]) + PlanRows(plan)[..j]
          {
            assert PlanRows(plan)[..j + 1] == PlanRows(plan)[..j] + [ExportRowOf(plan, Some(plan.vulnerabilites[j]))];
            combined := combined + [ExportRowOf(plan, Some(plan.vulnerabilites[j]))];
          }
          assert PlanRows(plan)[..|plan.vulnerabilites|] == PlanRows(plan);
        } else {
          combined := combined + [ExportRowOf(plan, None)];
        }
      }
      assert selected[..|selected|] == selected;
      r := Some(combined);
    }
  }

  /** Three complete rows are all kept. */
  lemma ThreeRowKept(r1: Row, r2: Row, r3: Row)
    requires Complete(r1) && Complete(r2) && Complete(r3)
    ensures DropIncomplete([r1, r2, r3]) == [r1, r2, r3]
  {
    assert [r1, r2, r3][..2] == [r1, r2] && [r1, r2][..1] == [r1] && [r1][..0] == [];
    assert DropIncomplete([r1]) == [] + [r1];
    assert DropIncomplete([r1, r2]) == [r1] + [r2];
    assert DropIncomplete([r1, r2, r3]) == [r1, r2] + [r3];
  }

  /** When two rows carry ref `P1` and the third `P2`, the refs are `P1`, `P2` in that order. */
  lemma ThreeRowRefs(r1: Row, r2: Row, r3: Row)
    requires r1.ref == Some("P1") && r2.ref == Some("P1") && r3.ref == Some("P2")
    ensures DistinctRefs([r1, r2, r3]) == ["P1", "P2"]
  {
    assert [r1, r2, r3][..2] == [r1, r2] && [r1, r2][..1] == [r1] && [r1][..0] == [];
    assert DistinctRefs([r1]) == ["P1"];
    assert DistinctRefs([r1, r2]) == ["P1"];
  }

  /** The same rows split into the group `P1` of the first two and the group `P2` of the third. */
  lemma ThreeRowGroups(r1: Row, r2: Row, r3: Row)
    requires r1.ref == Some("P1") && r2.ref == Some("P1") && r3.ref == Some("P2")
    ensures RowsWithRef([r1, r2, r3], "P1") == [r1, r2]
    ensures RowsWithRef([r1, r2, r3], "P2") == [r3]
  {
    assert [r1, r2, r3][..2] == [r1, r2] && [r1, r2][..1] == [r1] && [r1][..0] == [];
    assert RowsWithRef([r1], "P1") == [r1];
    assert RowsWithRef([r1, r2], "P1") == [r1, r2];
    assert RowsWithRef([r1], "P2") == [];
    assert RowsWithRef([r1, r2], "P2") == [];
  }

  /** Hence the grouped dictionary of the three rows. */
  lemma ThreeRowGrouping(r1: Row, r2: Row, r3: Row)
    requires r1.ref == Some("P1") && r2.ref == Some("P1") && r3.ref == Some("P2")
    requires Complete(r1) && Complete(r2) && Complete(r3)
    ensures GroupMap([r1, r2, r3]) == map["P1" := [r1, r2], "P2" := [r3]]
  {
    ThreeRowRefs(r1, r2, r3);
    ThreeRowGroups(r1, r2, r3);
    var m := GroupMap([r1, r2, r3]);
    assert m.Keys == {"P1", "P2"};
    assert m["P1"] == [r1, r2] && m["P2"] == [r3];
  }

  /** Importing two keys is two transactions in a row. */
  lemma TwoGroupImport(t: Table, k1: string, k2: string, g: map<string, seq<Row>>, parse: DateParser)
    requires k1 in g && k2 in g && |g[k1]| > 0 && |g[k2]| > 0
    ensures GroupsCover([k1, k2], g)
    ensures ImportGroups(t, [k1, k2], g, parse) == ImportGroup(ImportGroup(t, g[k1], parse), g[k2], parse)
  {
    assert [k1, k2][..1] == [k1] && [k1][..0] == [];
    assert GroupsCover([k1], g) && GroupsCover([], g);
    assert ImportGroups(t, [], g, parse) == t;
    assert ImportGroups(t, [k1], g, parse) == ImportGroup(t, g[k1], parse);
  }

  /** Into an empty table, a group whose dates parse is committed as plan 0. */
  lemma FirstGroupCreated(rows: seq<Row>, parse: DateParser)
    requires |rows| > 0 && GroupDate(rows, parse).Some?
    requires !Truthy(rows[0].dateCloture) && !Truthy(rows[0].dateRapport)
    ensures PlanOfGroup([], 0, rows, parse).Created?
    ensures ImportGroup(Table([], 0), rows, parse) == Table([PlanOfGroup([], 0, rows, parse).plan], 1)
  {
    PlanRef.GeneratedShape(GroupDate(rows, parse).value.year, 0);
  }

  /** A one-plan table whose plan holds the first ref of its year leaves room for the next group's plan. */
  lemma SecondGroupCreated(p: Plan, d1: Date, rows: seq<Row>, parse: DateParser)
    requires |rows| > 0 && GroupDate(rows, parse).Some?
    requires p.dateRealisation == Some(d1) && p.ref == PlanRef.GeneratePlanRef(d1.year, 0).ref
    requires !Truthy(rows[0].dateCloture) && !Truthy(rows[0].dateRapport)
    ensures PlanOfGroup([p], 1, rows, parse).Created?
    ensures ImportGroup(Table([p], 1), rows, parse) == Table([p, PlanOfGroup([p], 1, rows, parse).plan], 2)
  {
    var d := GroupDate(rows, parse).value;
    var c := CountInYear([p], d.year);
    assert [p][..0] == [];
    assert c == if d.year == d1.year then 1 else 0;
    PlanRef.GeneratedShape(d.year, c);
    PlanRef.ParseGenerated(d1.year, 0);
    PlanRef.ParseGenerated(d.year, c);
    assert PlanRef.ParseRef(p.ref) != PlanRef.ParseRef(GeneratePlanRefIn([p], d).ref);
    assert !HasRef([p], GeneratePlanRefIn([p], d).ref);
  }

  /**
   * Importing the three rows into an empty table, when the realisation dates parse
   * and the optional dates are empty, creates two plans: the first owns the two
   * `P1` rows, the second the `P2` row.
   */
  lemma ThreeRowImport(r1: Row, r2: Row, r3: Row, parse: DateParser)
    requires r1.ref == Some("P1") && r2.ref == Some("P1") && r3.ref == Some("P2")
    requires Complete(r1) && Complete(r2) && Complete(r3)
    requires parse(r1.dateRealisation.value, true).Some? && parse(r3.dateRealisation.value, true).Some?
    requires !Truthy(r1.dateCloture) && !Truthy(r1.dateRapport)
    requires !Truthy(r3.dateCloture) && !Truthy(r3.dateRapport)
    ensures var kept := DropIncomplete([r1, r2, r3]);
      && GroupsCover(DistinctRefs(kept), GroupMap(kept))
      && var t := ImportGroups(Table([], 0), DistinctRefs(kept), GroupMap(kept), parse);
         && |t.plans| == 2
         && t.plans[0].vulnerabilites == VulnerabilitiesOf([r1, r2])
         && t.plans[1].vulnerabilites == VulnerabilitiesOf([r3])
  {
    ThreeRowKept(r1, r2, r3);
    ThreeRowRefs(r1, r2, r3);
    ThreeRowGrouping(r1, r2, r3);
    var g := map["P1" := [r1, r2], "P2" := [r3]];
    TwoGroupImport(Table([], 0), "P1", "P2", g, parse);
    FirstGroupCreated([r1, r2], parse);
    var p1 := PlanOfGroup([], 0, [r1, r2], parse).plan;
    SecondGroupCreated(p1, GroupDate([r1, r2], parse).value, [r3], parse);
  }
}
