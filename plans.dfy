/** The `plans` table: one record per plan, each owning its vulnerabilities. */
module Plans {
  import opened Common
  import opened Vulnerabilities
  import PlanRef

  /**
   * The `nb_vulnerabilites` column: empty, a string written by hand through
   * an update, or the summary the aggregator stored.
   */
  datatype SummaryCache = NoSummary | Text(text: string) | Counts(summary: Summary)

  datatype Plan = Plan(
    id: nat,
    ref: string,
    application: Option<string>,
    typeApplication: Option<string>,
    typeAudit: Option<string>,
    dateRealisation: Option<Date>,
    dateCloture: Option<Date>,
    dateRapport: Option<Date>,
    niveauSecurite: Option<string>,
    nbVulnerabilites: SummaryCache,
    tauxRemediation: Option<real>,
    commentaireDcsg: Option<string>,
    commentaireCp: Option<string>,
    vulnerabilites: seq<Vulnerability>)

  predicate InYear(p: Plan, year: nat)
  {
    p.dateRealisation.Some? && p.dateRealisation.value.year == year
  }

  /** The count query: stored plans whose realisation date falls in `year` (undated plans never match). */
  function CountInYear(plans: seq<Plan>, year: nat): (n: nat)
    ensures n <= |plans|
    ensures n == |plans| ==> forall i :: 0 <= i < |plans| ==> InYear(plans[i], year)
  {
    if plans == [] then 0
    else CountInYear(plans[..|plans| - 1], year) + (if InYear(plans[|plans| - 1], year) then 1 else 0)
  }

  /** `generate_plan_ref` against the table: the formula applied to the year's current count. */
  function GeneratePlanRefIn(plans: seq<Plan>, d: Date): PlanRef.RefResult
  {
    PlanRef.GeneratePlanRef(d.year, CountInYear(plans, d.year))
  }

  /** Adding a plan of the same year raises that year's count by exactly one. */
  lemma CountInYearAppend(plans: seq<Plan>, p: Plan, year: nat)
    ensures CountInYear(plans + [p], year) == CountInYear(plans, year) + (if InYear(p, year) then 1 else 0)
  {
    assert (plans + [p])[..|plans|] == plans;
  }

  predicate HasRef(plans: seq<Plan>, ref: string)
  {
    exists i :: 0 <= i < |plans| && plans[i].ref == ref
  }

  /** The unique constraints of the table: distinct ids below the next id, distinct refs. */
  predicate TableInvariant(plans: seq<Plan>, nextId: nat)
  {
    && (forall i :: 0 <= i < |plans| ==> plans[i].id < nextId)
    && (forall i, j :: 0 <= i < j < |plans| ==> plans[i].id != plans[j].id)
    && (forall i, j :: 0 <= i < j < |plans| ==> plans[i].ref != plans[j].ref)
  }

  /** Appending a plan with a fresh id and a fresh ref keeps the constraints. */
  lemma AppendKeepsInvariant(plans: seq<Plan>, nextId: nat, p: Plan)
    requires TableInvariant(plans, nextId)
    requires p.id == nextId && !HasRef(plans, p.ref)
    ensures TableInvariant(plans + [p], nextId + 1)
  {
    var ps := plans + [p];
    forall i, j | 0 <= i < j < |ps| ensures ps[i].ref != ps[j].ref {
      if j == |plans| {
        assert plans[i].ref != p.ref;
      }
    }
  }
}
