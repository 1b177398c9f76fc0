/** A plan's vulnerabilities and the two summary fields derived from them. */
module Vulnerabilities {
  import opened Common

  /** One finding of a plan. Every column is nullable. */
  datatype Vulnerability = Vulnerability(
    titre: Option<string>,
    criticite: Option<string>,
    pourcentageRemediation: Option<real>,
    statutRemediation: Option<string>,
    actions: Option<string>)

  /** The `nb_vulnerabilites` dictionary: a count per severity and the total. */
  datatype Summary = Summary(critique: nat, majeure: nat, moderee: nat, mineure: nat, total: nat)

  /** The list handed to `Counter`: the severities of the entries whose severity is truthy. */
  function Severities(vs: seq<Vulnerability>): seq<string>
  {
    if vs == [] then []
    else (if Truthy(vs[0].criticite) then [vs[0].criticite.value] else []) + Severities(vs[1..])
  }

  /** `Counter(xs).get(s, 0)`. */
  function Occurrences(xs: seq<string>, s: string): nat
  {
    if xs == [] then 0 else (if xs[0] == s then 1 else 0) + Occurrences(xs[1..], s)
  }

  /** Reference count: the entries whose severity is exactly `s`. */
  function CountWithSeverity(vs: seq<Vulnerability>, s: string): nat
  {
    if vs == [] then 0 else (if vs[0].criticite == Some(s) then 1 else 0) + CountWithSeverity(vs[1..], s)
  }

  /** Counting a non-empty severity through the truthiness filter counts exactly the entries with it. */
  lemma {:induction false} OccurrencesOfSeverities(vs: seq<Vulnerability>, s: string)
    requires s != ""
    ensures Occurrences(Severities(vs), s) == CountWithSeverity(vs, s)
  {
    if vs != [] {
      OccurrencesOfSeverities(vs[1..], s);
      var head := if Truthy(vs[0].criticite) then [vs[0].criticite.value] else [];
      OccurrencesAppend(head, Severities(vs[1..]), s);
    }
  }

  lemma {:induction false} OccurrencesAppend(a: seq<string>, b: seq<string>, s: string)
    ensures Occurrences(a + b, s) == Occurrences(a, s) + Occurrences(b, s)
  {
    if a != [] {
      assert (a + b)[1..] == a[1..] + b;
      OccurrencesAppend(a[1..], b, s);
    } else {
      assert a + b == b;
    }
  }

  /** Entries of four distinct severities together number at most the whole list. */
  lemma {:induction false} FourSeveritiesBound(vs: seq<Vulnerability>, s1: string, s2: string, s3: string, s4: string)
    requires s1 != s2 && s1 != s3 && s1 != s4 && s2 != s3 && s2 != s4 && s3 != s4
    ensures CountWithSeverity(vs, s1) + CountWithSeverity(vs, s2) + CountWithSeverity(vs, s3)
            + CountWithSeverity(vs, s4) <= |vs|
  {
    if vs != [] {
      FourSeveritiesBound(vs[1..], s1, s2, s3, s4);
    }
  }

  /**
   * `compute_vulnerability_summary`: the per-severity counts of the four known
   * severities and the length of the list. Unknown or missing severities are
   * left out of the counts and still counted in the total.
   */
  function ComputeVulnerabilitySummary(vs: seq<Vulnerability>): (r: Summary)
    ensures r.total == |vs|
    ensures r.critique == CountWithSeverity(vs, "critique")
    ensures r.majeure == CountWithSeverity(vs, "majeure")
    ensures r.moderee == CountWithSeverity(vs, "moderee")
    ensures r.mineure == CountWithSeverity(vs, "mineure")
    ensures r.critique + r.majeure + r.moderee + r.mineure <= r.total
  {
    var counts := Severities(vs);
    OccurrencesOfSeverities(vs, "critique");
    OccurrencesOfSeverities(vs, "majeure");
    OccurrencesOfSeverities(vs, "moderee");
    OccurrencesOfSeverities(vs, "mineure");
    FourSeveritiesBound(vs, "critique", "majeure", "moderee", "mineure");
    Summary(
      Occurrences(counts, "critique"),
      Occurrences(counts, "majeure"),
      Occurrences(counts, "moderee"),
      Occurrences(counts, "mineure"),
      |vs|)
  }

  /** An empty list summarises to all zeros. */
  lemma EmptySummary()
    ensures ComputeVulnerabilitySummary([]) == Summary(0, 0, 0, 0, 0)
  {
  }

  lemma {:induction false} CountWithSeverityAppend(a: seq<Vulnerability>, b: seq<Vulnerability>, s: string)
    ensures CountWithSeverity(a + b, s) == CountWithSeverity(a, s) + CountWithSeverity(b, s)
  {
    if a != [] {
      assert (a + b)[1..] == a[1..] + b;
      CountWithSeverityAppend(a[1..], b, s);
    } else {
      assert a + b == b;
    }
  }

  /** The summary of two lists put together is the field-wise sum of their summaries. */
  lemma SummaryAdditive(a: seq<Vulnerability>, b: seq<Vulnerability>)
    ensures var sa, sb, sab := ComputeVulnerabilitySummary(a), ComputeVulnerabilitySummary(b), ComputeVulnerabilitySummary(a + b);
      sab == Summary(sa.critique + sb.critique, sa.majeure + sb.majeure, sa.moderee + sb.moderee,
                     sa.mineure + sb.mineure, sa.total + sb.total)
  {
    CountWithSeverityAppend(a, b, "critique");
    CountWithSeverityAppend(a, b, "majeure");
    CountWithSeverityAppend(a, b, "moderee");
    CountWithSeverityAppend(a, b, "mineure");
  }

  /** The recorded remediation percentages, in list order. */
  function Percentages(vs: seq<Vulnerability>): seq<real>
  {
    if vs == [] then []
    else (if vs[0].pourcentageRemediation.Some? then [vs[0].pourcentageRemediation.value] else [])
         + Percentages(vs[1..])
  }

  function Sum(xs: seq<real>): real
  {
    if xs == [] then 0.0 else xs[0] + Sum(xs[1..])
  }

  /**
   * `compute_taux_remediation`, before rounding: 0 when no percentage is
   * recorded, otherwise the mean of the recorded percentages.
   */
  function ComputeTauxRemediation(vs: seq<Vulnerability>): (r: real)
    ensures Percentages(vs) == [] ==> r == 0.0
    ensures Percentages(vs) != [] ==> r * (|Percentages(vs)| as real) == Sum(Percentages(vs))
  {
    var values := Percentages(vs);
    if values == [] then 0.0 else Sum(values) / (|values| as real)
  }

  lemma {:induction false} PercentagesAppend(a: seq<Vulnerability>, b: seq<Vulnerability>)
    ensures Percentages(a + b) == Percentages(a) + Percentages(b)
  {
    if a != [] {
      assert (a + b)[1..] == a[1..] + b;
      PercentagesAppend(a[1..], b);
    } else {
      assert a + b == b;
    }
  }

  /** An entry without a percentage changes neither the rate nor the summary's counts of percentages. */
  lemma TauxIgnoresMissing(a: seq<Vulnerability>, v: Vulnerability, b: seq<Vulnerability>)
    requires v.pourcentageRemediation.None?
    ensures ComputeTauxRemediation(a + [v] + b) == ComputeTauxRemediation(a + b)
  {
    PercentagesAppend(a + [v], b);
    PercentagesAppend(a, [v]);
    PercentagesAppend(a, b);
    assert Percentages([v]) == [];
    assert Percentages(a + [v]) == Percentages(a);
  }

  predicate InPercentRange(x: real)
  {
    0.0 <= x <= 100.0
  }

  lemma {:induction false} SumBounds(xs: seq<real>)
    requires forall i :: 0 <= i < |xs| ==> InPercentRange(xs[i])
    ensures 0.0 <= Sum(xs) <= 100.0 * (|xs| as real)
  {
    if xs != [] {
      SumBounds(xs[1..]);
    }
  }

  lemma {:induction false} PercentagesInRange(vs: seq<Vulnerability>)
    requires forall i :: 0 <= i < |vs| && vs[i].pourcentageRemediation.Some? ==>
      InPercentRange(vs[i].pourcentageRemediation.value)
    ensures forall j :: 0 <= j < |Percentages(vs)| ==> InPercentRange(Percentages(vs)[j])
  {
    if vs != [] {
      PercentagesInRange(vs[1..]);
    }
  }

  /** When every recorded percentage lies in [0, 100], so does the rate. */
  lemma TauxInRange(vs: seq<Vulnerability>)
    requires forall i :: 0 <= i < |vs| && vs[i].pourcentageRemediation.Some? ==>
      InPercentRange(vs[i].pourcentageRemediation.value)
    ensures InPercentRange(ComputeTauxRemediation(vs))
  {
    var values := Percentages(vs);
    PercentagesInRange(vs);
    SumBounds(values);
    if values != [] {
      var n := |values| as real;
      var r := ComputeTauxRemediation(vs);
      assert r * n == Sum(values);
      assert r == Sum(values) / n;
    }
  }
}
