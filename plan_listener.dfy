/** The `before_insert` listener of the plan model, which overwrites the target's ref. */
module PlanListener {
  import opened Common
  import opened Plans
  import PlanRef

  /** The part of a plan object about to be inserted that the listener reads and writes. */
  class PendingPlan {
    var ref: Option<string>
    var dateRealisation: Option<Date>

    constructor (ref: Option<string>, dateRealisation: Option<Date>)
      ensures this.ref == ref && this.dateRealisation == dateRealisation
    {
      this.ref := ref;
      this.dateRealisation := dateRealisation;
    }
  }

  /** Why the listener raised: no date to take the year from, or the year is full. */
  datatype ListenerError = MissingDate | TooManyPlansForYear

  datatype ListenerOutcome = RefSet | Raised(error: ListenerError)

  /**
   * `generate_ref`: counts the stored plans of the target's realisation year
   * and writes the reference for that count into `target.ref`, whatever it
   * held before. On an error the target is left as it was.
   */
  method GenerateRef(target: PendingPlan, stored: seq<Plan>) returns (r: ListenerOutcome)
    modifies target
    ensures target.dateRealisation == old(target.dateRealisation)
    ensures old(target.dateRealisation).None? ==> r == Raised(MissingDate) && target.ref == old(target.ref)
    ensures old(target.dateRealisation).Some? ==>
      var year := old(target.dateRealisation).value.year;
      var count := CountInYear(stored, year);
      && (count >= PlanRef.YearCapacity ==> r == Raised(TooManyPlansForYear) && target.ref == old(target.ref))
      && (count < PlanRef.YearCapacity ==>
            && r == RefSet
            && target.ref == Some(PlanRef.GeneratePlanRef(year, count).ref)
            && PlanRef.GeneratePlanRef(year, count) == GeneratePlanRefIn(stored, old(target.dateRealisation).value))
  {
    if target.dateRealisation.None? {
      return Raised(MissingDate);
    }
    var year := target.dateRealisation.value.year;
    var totalExisting := CountInYear(stored, year);
    var letterIndex := totalExisting / PlanRef.PerLetter;
    if letterIndex >= PlanRef.Letters {
      return Raised(TooManyPlansForYear);
    }
    var letter := PlanRef.Letter(letterIndex);
    var planNumber := totalExisting % PlanRef.PerLetter + 1;
    target.ref := Some(PlanRef.Decimal(year) + "_" + [letter] + "_" + PlanRef.TwoDigits(planNumber));
    r := RefSet;
  }

  /** The listener's reference always carries a number in 01..99 and reads back as the year and count. */
  lemma ListenerRefShape(stored: seq<Plan>, d: Date)
    requires CountInYear(stored, d.year) < PlanRef.YearCapacity
    ensures GeneratePlanRefIn(stored, d).Ref?
    ensures 1 <= PlanRef.NumberOf(GeneratePlanRefIn(stored, d).ref) <= 99
    ensures PlanRef.ParseRef(GeneratePlanRefIn(stored, d).ref) == Some((d.year, CountInYear(stored, d.year)))
  {
    PlanRef.GeneratedShape(d.year, CountInYear(stored, d.year));
    PlanRef.ParseGenerated(d.year, CountInYear(stored, d.year));
  }
}
