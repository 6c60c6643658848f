// The timestamp parser in plain numbers: the value of an accepted text, and the
// fault that each error names.
module TimestampTerms {
  import opened Domain
  import opened Text
  import opened Calendar
  import opened Rfc3339

  /** A number field is an optional plus sign and at least one digit, with a value
      that fits 32 bits. */
  lemma NumericIff(s: string)
    ensures var digits := if s != [] && s[0] == '+' then s[1..] else s;
            && (Numeric(s) <==> digits != [] && AllDigits(digits) && DigitsValue(digits) <= 4_294_967_295)
            && (Numeric(s) ==> Num(s) == DigitsValue(digits))
  {}

  /** A fraction counts in whole milliseconds, rounded down. */
  lemma FractionTruncates(fraction: string)
    requires AllDigits(fraction)
    ensures var ms, unit := FractionMillis(fraction), Pow10(|fraction|);
            ms * unit <= 1_000 * DigitsValue(fraction) < (ms + 1) * unit
  {
    if |fraction| <= 3 {
      ShortFraction(fraction);
    } else {
      var head, tail := fraction[..3], fraction[3..];
      ShortFraction(head);
      DigitsAppend(head, tail);
      assert head + tail == fraction;
      DigitsBound(tail);
      PowAdd(3, |tail|);
      Truncated(DigitsValue(head), DigitsValue(tail), Pow10(|tail|));
    }
  }

  lemma Truncated(head: nat, tail: nat, unit: nat)
    requires tail < unit
    ensures head * (1_000 * unit) <= 1_000 * (head * unit + tail) < (head + 1) * (1_000 * unit)
  {}

  lemma ShortFraction(fraction: string)
    requires AllDigits(fraction) && |fraction| <= 3
    ensures FractionMillis(fraction) * Pow10(|fraction|) == 1_000 * DigitsValue(fraction)
    ensures |fraction| == 3 ==> FractionMillis(fraction) == DigitsValue(fraction) && Pow10(3) == 1_000
  {
    DigitsOfThree(fraction);
    assert Pow10(0) == 1 && Pow10(1) == 10 && Pow10(2) == 100 && Pow10(3) == 1_000;
  }

  lemma DigitsOfThree(s: string)
    requires AllDigits(s) && |s| <= 3
    ensures |s| == 0 ==> DigitsValue(s) == 0
    ensures |s| == 1 ==> DigitsValue(s) == DigitValue(s[0])
    ensures |s| == 2 ==> DigitsValue(s) == 10 * DigitValue(s[0]) + DigitValue(s[1])
    ensures |s| == 3 ==> DigitsValue(s) == 100 * DigitValue(s[0]) + 10 * DigitValue(s[1]) + DigitValue(s[2])
  {
    if s != [] {
      DigitsOfThree(s[..|s| - 1]);
    }
  }

  /** An accepted text denotes the days since 1970 and the time of day, in
      milliseconds. */
  lemma MillisMeans(st: Stamp)
    requires NumericTokens(st)
    ensures Accepted(st) <==>
            && ValidDate(DateOf(st)) && Num(st.hour) <= 23 && Num(st.minute) <= 59 && Num(st.second) <= 59
            && Millis(st) <= 0x7FFF_FFFF_FFFF_FFFF
    ensures Millis(st) == DaysFromCivil(DateOf(st)) * 24 * 60 * 60 * 1_000
                          + Num(st.hour) * 60 * 60 * 1_000 + Num(st.minute) * 60 * 1_000 + Num(st.second) * 1_000
                          + FractionMillis(FractionOf(st))
  {}

  /** The tokens of `2024-01-02T03:04:05.678901Z`. */
  const EXAMPLE := Stamp("2024", "01", "02", "03", "04", "05", Some("678901"))

  lemma TwoDigits(s: string)
    requires Fixed(s, 2)
    ensures Numeric(s) && Num(s) == 10 * DigitValue(s[0]) + DigitValue(s[1])
  {
    FixedNumeric(s, 2);
    DigitsOfThree(s);
  }

  lemma FourDigits(s: string)
    requires Fixed(s, 4)
    ensures Numeric(s)
    ensures Num(s) == 1_000 * DigitValue(s[0]) + 100 * DigitValue(s[1]) + 10 * DigitValue(s[2]) + DigitValue(s[3])
  {
    FixedNumeric(s, 4);
    DigitsOfThree(s[..3]);
  }

  lemma ExampleTokens()
    ensures Strict(EXAMPLE) && NumericTokens(EXAMPLE)
    ensures DateOf(EXAMPLE) == Date(2024, 1, 2) && ClockOf(EXAMPLE) == Triple(3, 4, 5)
  {
    FourDigits("2024");
    TwoDigits("01");
    TwoDigits("02");
    TwoDigits("03");
    TwoDigits("04");
    TwoDigits("05");
  }

  /** The program's own example. */
  lemma ExampleParses()
    ensures Parse(StampText(EXAMPLE)) == Ok(1_704_164_645_678)
  {
    ExampleTokens();
    ExampleMillis();
    ParseStampResult(EXAMPLE);
  }

  lemma ExampleDay()
    ensures DaysFromCivil(Date(2024, 1, 2)) == 19_724
  {
    ClosedForm(Date(2024, 1, 2));
    assert LeapDays(2023) == 490 && MonthStart(10) == 306;
  }

  lemma ExampleMillis()
    requires NumericTokens(EXAMPLE)
    requires DateOf(EXAMPLE) == Date(2024, 1, 2) && ClockOf(EXAMPLE) == Triple(3, 4, 5)
    ensures Accepted(EXAMPLE) && Millis(EXAMPLE) == 1_704_164_645_678
  {
    ExampleDay();
    assert FractionMillis("678901") == 678;
  }

  // ----- Rejected texts -----

  predicate ThreeNumbers(parts: seq<string>) {
    |parts| >= 3 && Numeric(parts[0]) && Numeric(parts[1]) && Numeric(parts[2])
  }

  predicate MonthGiven(f: Fields) {
    ThreeNumbers(f.date) && |f.date| == 3 && 1 <= Num(f.date[1]) <= 12
  }

  predicate TimeGiven(f: Fields) {
    && ThreeNumbers(f.clock) && |f.clock| == 3 && AllDigits(f.fraction)
    && Num(f.clock[0]) <= 23 && Num(f.clock[1]) <= 59 && Num(f.clock[2]) <= 59
  }

  function DateGiven(f: Fields): Date
    requires MonthGiven(f)
  {
    Date(Num(f.date[0]), Num(f.date[1]), Num(f.date[2]))
  }

  /** The fault of the fields of a text, looked for in this order: date fields that
      are not numbers, more than three of them or no such month, clock fields that
      are not numbers, no such time of day, no such day, and a time out of range. */
  lemma FieldFaults(f: Fields)
    ensures var r, dated, clocked := ParseFields(f), MonthGiven(f), ThreeNumbers(f.clock);
            && (r == Err(InvalidComponent) <==> !ThreeNumbers(f.date) || (dated && !clocked))
            && (r == Err(InvalidDate) <==> ThreeNumbers(f.date) && !dated)
            && (r == Err(InvalidTime) <==> dated && clocked && !TimeGiven(f))
            && (r == Err(InvalidDay) <==> dated && TimeGiven(f) && !ValidDate(DateGiven(f)))
            && (r.Ok? || r == Err(OutOfRange) <==> dated && TimeGiven(f) && ValidDate(DateGiven(f)))
  {}
}
