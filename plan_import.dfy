/**
 * Spreadsheet import of plans: rows without a ref or a realisation date are
 * dropped, the rest are grouped by ref in first-seen order, and each group is
 * inserted as one plan owning one vulnerability per row, all or nothing.
 */
module PlanImport {
  import opened Common
  import opened Vulnerabilities
  import opened Plans
  import PlanRef

  /** One spreadsheet row: plan columns repeated on every row, plus one vulnerability. Empty cells are `None`. */
  datatype Row = Row(
    ref: Option<string>,
    application: Option<string>,
    typeApplication: Option<string>,
    typeAudit: Option<string>,
    dateRealisation: Option<string>,
    dateCloture: Option<string>,
    dateRapport: Option<string>,
    niveauSecurite: Option<string>,
    commentaireDcsg: Option<string>,
    commentaireCp: Option<string>,
    titre: Option<string>,
    criticite: Option<string>,
    pourcentageRemediation: Option<real>,
    statutRemediation: Option<string>,
    actions: Option<string>)

  /**
   * The date parser of the spreadsheet library, taken as given: a cell and
   * the day-first flag map to a date, or to nothing when the cell does not parse.
   */
  type DateParser = (string, bool) -> Option<Date>

  predicate Complete(r: Row)
  {
    r.ref.Some? && r.dateRealisation.Some?
  }

  /** `dropna(subset=['ref', 'date_realisation'])`: the complete rows, in order. */
  function DropIncomplete(rows: seq<Row>): (kept: seq<Row>)
    ensures |kept| <= |rows|
    ensures forall i :: 0 <= i < |kept| ==> Complete(kept[i])
    ensures forall r :: r in kept <==> r in rows && Complete(r)
  {
    if rows == [] then []
    else
      var last := rows[|rows| - 1];
      DropIncomplete(rows[..|rows| - 1]) + (if Complete(last) then [last] else [])
  }

  /** Dropping works row by row: a complete row is kept once, in place, and an incomplete one is dropped. */
  lemma {:induction false} DropIncompleteAppend(a: seq<Row>, b: seq<Row>)
    ensures DropIncomplete(a + b) == DropIncomplete(a) + DropIncomplete(b)
    decreases |b|
  {
    if b == [] {
      assert a + b == a;
    } else {
      var init := b[..|b| - 1];
      assert (a + b)[..|a + b| - 1] == a + init;
      DropIncompleteAppend(a, init);
    }
  }

  lemma DropIncompleteSingle(r: Row)
    ensures DropIncomplete([r]) == (if Complete(r) then [r] else [])
  {
    assert [r][..0] == [];
  }

  /** The refs of the rows, each once, in the order of first appearance. */
  function DistinctRefs(rows: seq<Row>): seq<string>
  {
    if rows == [] then []
    else
      var keys := DistinctRefs(rows[..|rows| - 1]);
      var last := rows[|rows| - 1];
      if last.ref.None? || last.ref.value in keys then keys else keys + [last.ref.value]
  }

  lemma {:induction false} DistinctRefsNoDuplicates(rows: seq<Row>)
    ensures NoDuplicates(DistinctRefs(rows))
  {
    if rows != [] {
      DistinctRefsNoDuplicates(rows[..|rows| - 1]);
    }
  }

  /** A ref is a key exactly when some row carries it. */
  lemma {:induction false} DistinctRefsMembers(rows: seq<Row>, k: string)
    ensures k in DistinctRefs(rows) <==> exists i :: 0 <= i < |rows| && rows[i].ref == Some(k)
  {
    if rows != [] {
      var prefix := rows[..|rows| - 1];
      DistinctRefsMembers(prefix, k);
      assert forall i :: 0 <= i < |prefix| ==> prefix[i] == rows[i];
      if rows[|rows| - 1].ref == Some(k) {
        assert k in DistinctRefs(rows);
      }
    }
  }

  /** The rows of one group: those whose ref is `k`, in row order. */
  function RowsWithRef(rows: seq<Row>, k: string): seq<Row>
  {
    if rows == [] then []
    else
      var last := rows[|rows| - 1];
      RowsWithRef(rows[..|rows| - 1], k) + (if last.ref == Some(k) then [last] else [])
  }

  /** A group holds exactly the rows carrying its ref. */
  lemma {:induction false} RowsWithRefMembers(rows: seq<Row>, k: string, r: Row)
    ensures r in RowsWithRef(rows, k) <==> r in rows && r.ref == Some(k)
  {
    if rows != [] {
      var prefix := rows[..|rows| - 1];
      RowsWithRefMembers(prefix, k, r);
      assert rows == prefix + [rows[|rows| - 1]];
    }
  }

  /** A ref no row carries has an empty group. */
  lemma {:induction false} NoRowsOutsideKeys(rows: seq<Row>, k: string)
    requires k !in DistinctRefs(rows)
    ensures RowsWithRef(rows, k) == []
  {
    if rows != [] {
      var prefix := rows[..|rows| - 1];
      assert k !in DistinctRefs(prefix);
      NoRowsOutsideKeys(prefix, k);
    }
  }

  /** A ref that is a key has a non-empty group. */
  lemma {:induction false} KeysHaveRows(rows: seq<Row>, k: string)
    requires k in DistinctRefs(rows)
    ensures |RowsWithRef(rows, k)| > 0
  {
    var prefix := rows[..|rows| - 1];
    if k in DistinctRefs(prefix) {
      KeysHaveRows(prefix, k);
    }
  }

  /** The `grouped` dictionary the import loop builds. */
  function GroupMap(rows: seq<Row>): map<string, seq<Row>>
  {
    map k | k in DistinctRefs(rows) :: RowsWithRef(rows, k)
  }

  /** How one more row changes the grouped dictionary. */
  lemma GroupMapStep(rows: seq<Row>, i: nat)
    requires i < |rows|
    ensures rows[i].ref.None? ==> GroupMap(rows[..i + 1]) == GroupMap(rows[..i])
    ensures rows[i].ref.Some? && rows[i].ref.value in GroupMap(rows[..i]) ==>
      GroupMap(rows[..i + 1]) == GroupMap(rows[..i])[rows[i].ref.value := GroupMap(rows[..i])[rows[i].ref.value] + [rows[i]]]
    ensures rows[i].ref.Some? && rows[i].ref.value !in GroupMap(rows[..i]) ==>
      GroupMap(rows[..i + 1]) == GroupMap(rows[..i])[rows[i].ref.value := [rows[i]]]
  {
    var pre, post := rows[..i], rows[..i + 1];
    assert post[..i] == pre;
    assert post[|post| - 1] == rows[i];
    var a, b := GroupMap(pre), GroupMap(post);
    forall k ensures RowsWithRef(post, k) == RowsWithRef(pre, k) + (if rows[i].ref == Some(k) then [rows[i]] else []) {
    }
    forall k | rows[i].ref != Some(k) ensures RowsWithRef(post, k) == RowsWithRef(pre, k) {
      assert RowsWithRef(pre, k) + [] == RowsWithRef(pre, k);
    }
    if rows[i].ref.None? {
      assert DistinctRefs(post) == DistinctRefs(pre);
      assert b == a;
    } else {
      var k0 := rows[i].ref.value;
      if k0 in a {
        assert DistinctRefs(post) == DistinctRefs(pre);
        assert b.Keys == a.Keys;
        assert b[k0] == a[k0] + [rows[i]];
        assert b == a[k0 := a[k0] + [rows[i]]];
      } else {
        assert DistinctRefs(post) == DistinctRefs(pre) + [k0];
        NoRowsOutsideKeys(pre, k0);
        assert RowsWithRef(post, k0) == [rows[i]];
        assert b.Keys == a.Keys + {k0};
        assert b == a[k0 := [rows[i]]];
      }
    }
  }

  /**
   * The grouping loop: one entry per distinct ref, in first-seen order, each
   * holding that ref's rows in row order.
   */
  method GroupRows(rows: seq<Row>) returns (keys: seq<string>, grouped: map<string, seq<Row>>)
    ensures keys == DistinctRefs(rows) && NoDuplicates(keys)
    ensures grouped == GroupMap(rows)
    ensures forall k :: k in keys ==> k in grouped && |grouped[k]| > 0
  {
    keys := [];
    grouped := map[];
    for i := 0 to |rows|
      invariant keys == DistinctRefs(rows[..i])
      invariant grouped == GroupMap(rows[..i])
    {
      GroupMapStep(rows, i);
      assert rows[..i + 1][..i] == rows[..i];
      var row := rows[i];
      if row.ref.Some? {
        var k := row.ref.value;
        if k in grouped {
          grouped := grouped[k := grouped[k] + [row]];
        } else {
          keys := keys + [k];
          grouped := grouped[k := [row]];
        }
      }
    }
    assert rows[..|rows|] == rows;
    DistinctRefsNoDuplicates(rows);
    forall k | k in keys ensures k in grouped && |grouped[k]| > 0 {
      KeysHaveRows(rows, k);
    }
  }

  /** A row with a ref lands in the group of its own ref and in no other. */
  lemma RowInExactlyOneGroup(rows: seq<Row>, r: Row, k: string)
    requires r in rows && r.ref.Some?
    ensures r.ref.value in GroupMap(rows) && r in GroupMap(rows)[r.ref.value]
    ensures k in GroupMap(rows) && k != r.ref.value ==> r !in GroupMap(rows)[k]
  {
    var i :| 0 <= i < |rows| && rows[i] == r;
    DistinctRefsMembers(rows, r.ref.value);
    RowsWithRefMembers(rows, r.ref.value, r);
    RowsWithRefMembers(rows, k, r);
  }

  /** The total size of the groups of `keys`. */
  function GroupSizes(rows: seq<Row>, keys: seq<string>): nat
  {
    if keys == [] then 0 else GroupSizes(rows, keys[..|keys| - 1]) + |RowsWithRef(rows, keys[|keys| - 1])|
  }

  lemma {:induction false} GroupSizesAddRow(rows: seq<Row>, r: Row, keys: seq<string>)
    requires r.ref.Some? && NoDuplicates(keys)
    ensures GroupSizes(rows + [r], keys) == GroupSizes(rows, keys) + (if r.ref.value in keys then 1 else 0)
  {
    assert (rows + [r])[..|rows|] == rows;
    if keys != [] {
      var init := keys[..|keys| - 1];
      assert NoDuplicates(init);
      GroupSizesAddRow(rows, r, init);
      assert r.ref.value in keys <==> r.ref.value in init || r.ref.value == keys[|keys| - 1];
      assert r.ref.value == keys[|keys| - 1] ==> r.ref.value !in init;
    }
  }

  lemma {:induction false} GroupSizesAddKey(rows: seq<Row>, keys: seq<string>, k: string)
    ensures GroupSizes(rows, keys + [k]) == GroupSizes(rows, keys) + |RowsWithRef(rows, k)|
  {
    assert (keys + [k])[..|keys|] == keys;
  }

  /** The groups partition the rows: their sizes add up to the number of rows that carry a ref. */
  lemma {:induction false} GroupsPartitionRows(rows: seq<Row>)
    requires forall i :: 0 <= i < |rows| ==> rows[i].ref.Some?
    ensures GroupSizes(rows, DistinctRefs(rows)) == |rows|
  {
    if rows != [] {
      var prefix := rows[..|rows| - 1];
      var r := rows[|rows| - 1];
      assert rows == prefix + [r];
      var keys := DistinctRefs(prefix);
      GroupsPartitionRows(prefix);
      DistinctRefsNoDuplicates(prefix);
      GroupSizesAddRow(prefix, r, keys);
      if r.ref.value !in keys {
        GroupSizesAddKey(rows, keys, r.ref.value);
        NoRowsOutsideKeys(prefix, r.ref.value);
      }
    }
  }

  /** Why a group was rolled back. */
  datatype GroupError = InvalidDate | TooManyPlansForYear | DuplicateRef

  datatype GroupResult = Created(plan: Plan) | RolledBack(error: GroupError)

  /**
   * An optional date cell: an empty cell gives no date (the outer `Some(None)`);
   * a cell that does not parse raises (the outer `None`).
   */
  function OptionalDate(cell: Option<string>, parse: DateParser): Option<Option<Date>>
  {
    if !Truthy(cell) then Some(None)
    else match parse(cell.value, false)
      case None => None
      case Some(d) => Some(Some(d))
  }

  function VulnerabilityOf(row: Row): Vulnerability
  {
    Vulnerability(row.titre, row.criticite, row.pourcentageRemediation, row.statutRemediation, row.actions)
  }

  /** One vulnerability per row of the group, in row order. */
  function VulnerabilitiesOf(rows: seq<Row>): (vs: seq<Vulnerability>)
    ensures |vs| == |rows|
    ensures forall i :: 0 <= i < |rows| ==> vs[i] == VulnerabilityOf(rows[i])
  {
    seq(|rows|, i requires 0 <= i < |rows| => VulnerabilityOf(rows[i]))
  }

  /** The realisation date of a group, parsed day-first from its first row. */
  function GroupDate(rows: seq<Row>, parse: DateParser): Option<Date>
    requires |rows| > 0
  {
    if rows[0].dateRealisation.Some? then parse(rows[0].dateRealisation.value, true) else None
  }

  /**
   * The plan one group would insert into `plans`, or the reason its
   * transaction is rolled back: the realisation date does not parse, the
   * year is full, an optional date does not parse, or the generated ref is
   * already stored (the ref column is unique).
   */
  function PlanOfGroup(plans: seq<Plan>, nextId: nat, rows: seq<Row>, parse: DateParser): (r: GroupResult)
    requires |rows| > 0
    ensures GroupDate(rows, parse).None? ==> r == RolledBack(InvalidDate)
    ensures r.Created? <==>
      && GroupDate(rows, parse).Some?
      && GeneratePlanRefIn(plans, GroupDate(rows, parse).value).Ref?
      && OptionalDate(rows[0].dateCloture, parse).Some?
      && OptionalDate(rows[0].dateRapport, parse).Some?
      && !HasRef(plans, GeneratePlanRefIn(plans, GroupDate(rows, parse).value).ref)
    ensures r.Created? ==>
      && r.plan.id == nextId
      && r.plan.ref == GeneratePlanRefIn(plans, GroupDate(rows, parse).value).ref
      && r.plan.dateRealisation == GroupDate(rows, parse)
      && r.plan.application == rows[0].application
      && r.plan.typeApplication == rows[0].typeApplication
      && r.plan.typeAudit == rows[0].typeAudit
      && r.plan.dateCloture == OptionalDate(rows[0].dateCloture, parse).value
      && r.plan.dateRapport == OptionalDate(rows[0].dateRapport, parse).value
      && r.plan.niveauSecurite == rows[0].niveauSecurite
      && r.plan.commentaireDcsg == rows[0].commentaireDcsg
      && r.plan.commentaireCp == rows[0].commentaireCp
      && r.plan.vulnerabilites == VulnerabilitiesOf(rows)
      && |r.plan.vulnerabilites| == |rows|
      && r.plan.nbVulnerabilites == Counts(ComputeVulnerabilitySummary(r.plan.vulnerabilites))
      && r.plan.tauxRemediation == Some(ComputeTauxRemediation(r.plan.vulnerabilites))
  {
    var first := rows[0];
    var date := GroupDate(rows, parse);
    if date.None? then RolledBack(InvalidDate)
    else match GeneratePlanRefIn(plans, date.value)
      case Failed(_) => RolledBack(TooManyPlansForYear)
      case Ref(ref) =>
        var cloture := OptionalDate(first.dateCloture, parse);
        var rapport := OptionalDate(first.dateRapport, parse);
        if cloture.None? || rapport.None? then RolledBack(InvalidDate)
        else if HasRef(plans, ref) then RolledBack(DuplicateRef)
        else
          var vulns := VulnerabilitiesOf(rows);
          Created(Plan(nextId, ref, first.application, first.typeApplication, first.typeAudit,
                       date, cloture.value, rapport.value, first.niveauSecurite,
                       Counts(ComputeVulnerabilitySummary(vulns)), Some(ComputeTauxRemediation(vulns)),
                       first.commentaireDcsg, first.commentaireCp, vulns))
  }

  /** The stored plans and the next id the table will hand out. */
  datatype Table = Table(plans: seq<Plan>, nextId: nat)

  /** One group's transaction: commit the new plan, or roll back to the table as it was. */
  function ImportGroup(t: Table, rows: seq<Row>, parse: DateParser): Table
    requires |rows| > 0
  {
    match PlanOfGroup(t.plans, t.nextId, rows, parse)
    case Created(p) => Table(t.plans + [p], t.nextId + 1)
    case RolledBack(_) => t
  }

  predicate GroupsCover(keys: seq<string>, grouped: map<string, seq<Row>>)
  {
    forall k :: k in keys ==> k in grouped && |grouped[k]| > 0
  }

  /** The insert loop over the groups, in key order; each group sees the plans committed before it. */
  function ImportGroups(t: Table, keys: seq<string>, grouped: map<string, seq<Row>>, parse: DateParser): Table
    requires GroupsCover(keys, grouped)
    decreases |keys|
  {
    if keys == [] then t
    else ImportGroup(ImportGroups(t, keys[..|keys| - 1], grouped, parse), grouped[keys[|keys| - 1]], parse)
  }

  /** Importing `a` then `b` is importing `a + b`. */
  lemma {:induction false} ImportGroupsCompose(t: Table, a: seq<string>, b: seq<string>,
                                               grouped: map<string, seq<Row>>, parse: DateParser)
    requires GroupsCover(a + b, grouped)
    ensures GroupsCover(a, grouped) && GroupsCover(b, grouped)
    ensures ImportGroups(t, a + b, grouped, parse) == ImportGroups(ImportGroups(t, a, grouped, parse), b, grouped, parse)
    decreases |b|
  {
    assert forall k :: k in a ==> k in a + b;
    assert forall k :: k in b ==> k in a + b;
    if b == [] {
      assert a + b == a;
    } else {
      var init := b[..|b| - 1];
      assert (a + b)[..|a + b| - 1] == a + init;
      assert forall k :: k in a + init ==> k in a + b;
      ImportGroupsCompose(t, a, init, grouped, parse);
    }
  }

  /**
   * A rolled-back group leaves no trace: importing every group gives the
   * same table as importing all the others without it.
   */
  lemma ImportSkipsRolledBackGroup(t: Table, keys: seq<string>, i: nat,
                                   grouped: map<string, seq<Row>>, parse: DateParser)
    requires GroupsCover(keys, grouped) && i < |keys|
    requires GroupsCover(keys[..i], grouped)
    requires PlanOfGroup(ImportGroups(t, keys[..i], grouped, parse).plans,
                         ImportGroups(t, keys[..i], grouped, parse).nextId, grouped[keys[i]], parse).RolledBack?
    ensures GroupsCover(keys[..i] + keys[i + 1..], grouped)
    ensures ImportGroups(t, keys, grouped, parse) == ImportGroups(t, keys[..i] + keys[i + 1..], grouped, parse)
  {
    var a, b := keys[..i], keys[i + 1..];
    assert keys == a + [keys[i]] + b;
    assert keys == (a + [keys[i]]) + b;
    assert forall k :: k in a + b ==> k in keys;
    ImportGroupsCompose(t, a + [keys[i]], b, grouped, parse);
    ImportGroupsCompose(t, a, b, grouped, parse);
    assert (a + [keys[i]])[..|a|] == a;
  }

  /**
   * Committed plans are never undone: the table before the import is a
   * prefix of the table after it, which gains at most one plan per group,
   * and the next id grows by the number of plans added.
   */
  lemma {:induction false} ImportKeepsCommitted(t: Table, keys: seq<string>,
                                                grouped: map<string, seq<Row>>, parse: DateParser)
    requires GroupsCover(keys, grouped)
    ensures var u := ImportGroups(t, keys, grouped, parse);
      && |t.plans| <= |u.plans| <= |t.plans| + |keys|
      && u.plans[..|t.plans|] == t.plans
      && u.nextId == t.nextId + (|u.plans| - |t.plans|)
    decreases |keys|
  {
    if keys != [] {
      var init := keys[..|keys| - 1];
      ImportKeepsCommitted(t, init, grouped, parse);
      var m := ImportGroups(t, init, grouped, parse);
      var u := ImportGroups(t, keys, grouped, parse);
      if u != m {
        assert u.plans == m.plans + [u.plans[|u.plans| - 1]];
        assert u.plans[..|m.plans|] == m.plans;
        assert m.plans[..|t.plans|] == t.plans;
        assert u.plans[..|t.plans|] == u.plans[..|m.plans|][..|t.plans|];
      }
    }
  }

  /** The import preserves the table's unique ids and unique refs. */
  lemma {:induction false} ImportKeepsInvariant(t: Table, keys: seq<string>,
                                                grouped: map<string, seq<Row>>, parse: DateParser)
    requires GroupsCover(keys, grouped)
    requires TableInvariant(t.plans, t.nextId)
    ensures TableInvariant(ImportGroups(t, keys, grouped, parse).plans, ImportGroups(t, keys, grouped, parse).nextId)
    decreases |keys|
  {
    if keys != [] {
      var init := keys[..|keys| - 1];
      ImportKeepsInvariant(t, init, grouped, parse);
      var m := ImportGroups(t, init, grouped, parse);
      var res := PlanOfGroup(m.plans, m.nextId, grouped[keys[|keys| - 1]], parse);
      if res.Created? {
        AppendKeepsInvariant(m.plans, m.nextId, res.plan);
      }
    }
  }

  /** `p` is the plan inserted for the group of `k`. */
  predicate FromGroup(p: Plan, k: string, grouped: map<string, seq<Row>>, parse: DateParser)
  {
    && k in grouped && |grouped[k]| > 0
    && GroupDate(grouped[k], parse).Some?
    && p.dateRealisation == GroupDate(grouped[k], parse)
    && p.application == grouped[k][0].application
    && p.typeApplication == grouped[k][0].typeApplication
    && p.typeAudit == grouped[k][0].typeAudit
    && p.niveauSecurite == grouped[k][0].niveauSecurite
    && p.vulnerabilites == VulnerabilitiesOf(grouped[k])
    && |p.vulnerabilites| == |grouped[k]|
    && PlanRef.WellFormed(p.ref)
  }

  /**
   * Every plan the import adds comes from one of the groups: it owns exactly
   * that group's rows as vulnerabilities and carries a generated ref, never
   * the file's own.
   */
  lemma {:induction false} ImportedPlansFromGroups(t: Table, keys: seq<string>,
                                                   grouped: map<string, seq<Row>>, parse: DateParser)
    requires GroupsCover(keys, grouped)
    ensures var u := ImportGroups(t, keys, grouped, parse);
      forall j :: |t.plans| <= j < |u.plans| ==> exists k :: k in keys && FromGroup(u.plans[j], k, grouped, parse)
    decreases |keys|
  {
    ImportKeepsCommitted(t, keys, grouped, parse);
    if keys == [] {
      assert ImportGroups(t, keys, grouped, parse) == t;
    } else {
      var init := keys[..|keys| - 1];
      var last := keys[|keys| - 1];
      ImportedPlansFromGroups(t, init, grouped, parse);
      ImportKeepsCommitted(t, init, grouped, parse);
      var m := ImportGroups(t, init, grouped, parse);
      var u := ImportGroups(t, keys, grouped, parse);
      var res := PlanOfGroup(m.plans, m.nextId, grouped[last], parse);
      forall j | |t.plans| <= j < |u.plans|
        ensures exists k :: k in keys && FromGroup(u.plans[j], k, grouped, parse)
      {
        if j < |m.plans| {
          assert u.plans[j] == m.plans[j];
          var k :| k in init && FromGroup(m.plans[j], k, grouped, parse);
          assert k in keys;
        } else {
          assert res.Created? && u.plans[j] == res.plan;
          var d := GroupDate(grouped[last], parse).value;
          PlanRef.GeneratedShape(d.year, CountInYear(m.plans, d.year));
          assert FromGroup(u.plans[j], last, grouped, parse);
        }
      }
    }
  }
}
