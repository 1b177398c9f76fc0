/** The plan reference `<year>_<letter>_<NN>`: 99 numbers per letter, 26 letters per year. */
module PlanRef {
  import opened Common

  /** Numbers per letter bucket. */
  const PerLetter: nat := 99
  /** Letters `A`..`Z`. */
  const Letters: nat := 26
  /** Plans a single year can hold: 26 * 99. */
  const YearCapacity: nat := 2574

  /** The error raised when a year is full. */
  datatype RefError = TooManyPlansForYear

  datatype RefResult = Ref(ref: string) | Failed(error: RefError)

  function DigitChar(d: nat): (c: char)
    requires d < 10
    ensures '0' <= c <= '9'
  {
    ('0' as int + d) as char
  }

  function DigitValue(c: char): (d: nat)
    requires '0' <= c <= '9'
    ensures d < 10
  {
    c as int - '0' as int
  }

  predicate AllDigits(s: string)
  {
    forall i :: 0 <= i < |s| ==> '0' <= s[i] <= '9'
  }

  /** Decimal rendering of a natural number without leading zeros (`f"{n}"`). */
  function Decimal(n: nat): (s: string)
    ensures |s| >= 1 && AllDigits(s)
    decreases n
  {
    if n < 10 then [DigitChar(n)] else Decimal(n / 10) + [DigitChar(n % 10)]
  }

  /** Reads a string of decimal digits back as a number. */
  function ParseDecimal(s: string): nat
    requires AllDigits(s)
  {
    if |s| == 0 then 0 else 10 * ParseDecimal(s[..|s| - 1]) + DigitValue(s[|s| - 1])
  }

  lemma {:induction false} DecimalRoundTrip(n: nat)
    ensures ParseDecimal(Decimal(n)) == n
    decreases n
  {
    if n >= 10 {
      DecimalRoundTrip(n / 10);
      var s := Decimal(n);
      assert s[..|s| - 1] == Decimal(n / 10);
    }
  }

  /** `{number:02d}` for a number below 100. */
  function TwoDigits(n: nat): (s: string)
    requires n < 100
    ensures |s| == 2 && AllDigits(s)
  {
    [DigitChar(n / 10), DigitChar(n % 10)]
  }

  /** The letter of a bucket: `chr(ord('A') + index)`. */
  function Letter(index: nat): (c: char)
    requires index < Letters
    ensures 'A' <= c <= 'Z'
  {
    ('A' as int + index) as char
  }

  /**
   * The reference of a new plan dated in `year` when `count` plans of that
   * year already exist. Fails once the year's 26 letters are used up.
   */
  function GeneratePlanRef(year: nat, count: nat): (r: RefResult)
    ensures r.Failed? <==> count >= YearCapacity
    ensures r.Ref? ==> |r.ref| == |Decimal(year)| + 5
  {
    var letterIndex := count / PerLetter;
    if letterIndex >= Letters then Failed(TooManyPlansForYear)
    else
      var number := count % PerLetter + 1;
      Ref(Decimal(year) + "_" + [Letter(letterIndex)] + "_" + TwoDigits(number))
  }

  /** The year part, letter and two-digit number of a well-formed reference. */
  predicate WellFormed(ref: string)
  {
    && |ref| >= 6
    && AllDigits(ref[..|ref| - 5])
    && ref[|ref| - 5] == '_'
    && 'A' <= ref[|ref| - 4] <= 'Z'
    && ref[|ref| - 3] == '_'
    && AllDigits(ref[|ref| - 2..])
  }

  /** The plan number `NN` of a well-formed reference. */
  function NumberOf(ref: string): nat
    requires WellFormed(ref)
  {
    ParseDecimal(ref[|ref| - 2..])
  }

  /**
   * Inverse of `GeneratePlanRef`: recovers the year and the count of plans
   * that existed when the reference was generated.
   */
  function ParseRef(ref: string): (r: Option<(nat, nat)>)
  {
    if WellFormed(ref) && 1 <= NumberOf(ref) then
      var letterIndex := ref[|ref| - 4] as int - 'A' as int;
      Some((ParseDecimal(ref[..|ref| - 5]), letterIndex * PerLetter + NumberOf(ref) - 1))
    else None
  }

  /** Every generated reference is well formed and its number lies in 01..99. */
  lemma GeneratedShape(year: nat, count: nat)
    requires count < YearCapacity
    ensures GeneratePlanRef(year, count).Ref?
    ensures WellFormed(GeneratePlanRef(year, count).ref)
    ensures 1 <= NumberOf(GeneratePlanRef(year, count).ref) <= 99
    ensures NumberOf(GeneratePlanRef(year, count).ref) == count % PerLetter + 1
    ensures GeneratePlanRef(year, count).ref[|GeneratePlanRef(year, count).ref| - 4] == Letter(count / PerLetter)
  {
    var ref := GeneratePlanRef(year, count).ref;
    var y := Decimal(year);
    var n := count % PerLetter + 1;
    assert ref == y + "_" + [Letter(count / PerLetter)] + "_" + TwoDigits(n);
    assert ref[..|ref| - 5] == y;
    assert ref[|ref| - 2..] == TwoDigits(n);
    assert ParseDecimal(TwoDigits(n)) == n by {
      var t := TwoDigits(n);
      assert t[..1] == [DigitChar(n / 10)];
      assert t[..1][..0] == [];
      assert ParseDecimal(t[..1]) == n / 10;
      assert ParseDecimal(t) == 10 * (n / 10) + n % 10;
    }
  }

  /** Parsing a generated reference gives back the year and the count. */
  lemma ParseGenerated(year: nat, count: nat)
    requires count < YearCapacity
    ensures ParseRef(GeneratePlanRef(year, count).ref) == Some((year, count))
  {
    GeneratedShape(year, count);
    DecimalRoundTrip(year);
    var ref := GeneratePlanRef(year, count).ref;
    assert ref[..|ref| - 5] == Decimal(year);
  }

  /** Two successful generations agree only on equal year and count (refs never collide). */
  lemma GenerateInjective(y1: nat, c1: nat, y2: nat, c2: nat)
    requires GeneratePlanRef(y1, c1).Ref? && GeneratePlanRef(y2, c2).Ref?
    requires GeneratePlanRef(y1, c1) == GeneratePlanRef(y2, c2)
    ensures y1 == y2 && c1 == c2
  {
    ParseGenerated(y1, c1);
    ParseGenerated(y2, c2);
  }

  /** The references of one year, in generation order, for the first 150 plans. */
  lemma FirstReferencesOfAYear()
    ensures GeneratePlanRef(2024, 0) == Ref("2024_A_01")
    ensures GeneratePlanRef(2024, 98) == Ref("2024_A_99")
    ensures GeneratePlanRef(2024, 99) == Ref("2024_B_01")
    ensures GeneratePlanRef(2024, 149) == Ref("2024_B_51")
    ensures GeneratePlanRef(2024, 2573) == Ref("2024_Z_99")
    ensures GeneratePlanRef(2024, 2574) == Failed(TooManyPlansForYear)
  {
    DecimalOf2024();
  }

  lemma DecimalOf2024()
    ensures Decimal(2024) == "2024"
  {
    assert Decimal(2) == "2";
    assert Decimal(20) == "20";
    assert Decimal(202) == "202";
  }
}
