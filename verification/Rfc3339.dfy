// The UTC timestamp parser (src/feeds/types.rs): exactly which texts it accepts
// and which millisecond each of them denotes.
module Rfc3339 {
  import opened Domain
  import opened Text
  import opened Calendar

  const U32_MAX: nat := 0xFFFF_FFFF
  const DAY_MS: int := 86_400_000

  datatype ParseError =
    | NoDateTimeSeparator | NotUtc | InvalidComponent | InvalidDate | InvalidTime | InvalidDay | OutOfRange

  function Component(parts: seq<string>, k: nat): Option<nat> {
    if k < |parts| then ParseUnsigned(parts[k], U32_MAX) else None
  }

  /** Three numeric fields in a row. */
  datatype Triple = Triple(first: nat, second: nat, third: nat)

  function Numbers(parts: seq<string>): Option<Triple> {
    match (Component(parts, 0), Component(parts, 1), Component(parts, 2))
    case (Some(a), Some(b), Some(c)) => Some(Triple(a, b, c))
    case _ => None
  }

  /** Milliseconds of a fraction: its first three digits, the rest truncated. */
  function FractionMillis(fraction: string): nat
    requires AllDigits(fraction)
  {
    (if |fraction| > 0 then 100 * DigitValue(fraction[0]) else 0)
    + (if |fraction| > 1 then 10 * DigitValue(fraction[1]) else 0)
    + (if |fraction| > 2 then DigitValue(fraction[2]) else 0)
  }

  predicate InI64(n: int) {
    I64_MIN <= n <= I64_MAX
  }

  /** The chain of checked additions at the end of the parser. */
  function CheckedMillis(days: int, hour: nat, minute: nat, second: nat, fraction: nat): Result<int, ParseError> {
    var m0 := days * DAY_MS;
    var m1 := m0 + hour * 3_600_000;
    var m2 := m1 + minute * 60_000;
    var m3 := m2 + second * 1_000;
    var m4 := m3 + fraction;
    if InI64(m0) && InI64(m1) && InI64(m2) && InI64(m3) && InI64(m4) then Ok(m4) else Err(OutOfRange)
  }

  /** The pieces of a text: date fields, clock fields and fraction. */
  datatype Fields = Fields(date: seq<string>, clock: seq<string>, fraction: string)

  function SplitText(value: string): Result<Fields, ParseError> {
    match SplitOnce(value, 'T')
    case None => Err(NoDateTimeSeparator)
    case Some((date, time)) =>
      if time == [] || time[|time| - 1] != 'Z' then Err(NotUtc)
      else
        var (clock, fraction) := ClockAndFraction(time[..|time| - 1]);
        Ok(Fields(Split(date, '-'), Split(clock, ':'), fraction))
  }

  function ClockAndFraction(time: string): (string, string) {
    match SplitOnce(time, '.') case Some(parts) => parts case None => (time, [])
  }

  function ParseFields(f: Fields): Result<int, ParseError> {
    match Numbers(f.date)
    case None => Err(InvalidComponent)
    case Some(date) =>
      if |f.date| > 3 || !(1 <= date.second <= 12) then Err(InvalidDate)
      else
        match Numbers(f.clock)
        case None => Err(InvalidComponent)
        case Some(clock) =>
          if |f.clock| > 3 || !AllDigits(f.fraction) then Err(InvalidTime)
          else Evaluate(Date(date.first, date.second, date.third), clock, FractionMillis(f.fraction))
  }

  /** The range checks and the final arithmetic. */
  function Evaluate(date: Date, clock: Triple, fraction: nat): Result<int, ParseError> {
    if clock.first > 23 || clock.second > 59 || clock.third > 59 then Err(InvalidTime)
    else if date.day == 0 || date.day > DaysInMonth(date.year, date.month) then Err(InvalidDay)
    else CheckedMillis(DaysFromCivil(date), clock.first, clock.second, clock.third, fraction)
  }

  /** `parse_rfc3339_millis`. */
  function Parse(value: string): Result<int, ParseError> {
    match SplitText(value)
    case Ok(f) => ParseFields(f)
    case Err(e) => Err(e)
  }

  // ----- The accepted texts -----

  /** The tokens of a timestamp text. */
  datatype Stamp = Stamp(
    year: string, month: string, day: string,
    hour: string, minute: string, second: string,
    fraction: Option<string>)

  function ClockText(st: Stamp): string {
    st.hour + [':'] + st.minute + [':'] + st.second
  }

  function TimeText(st: Stamp): string {
    if st.fraction.Some? then ClockText(st) + ['.'] + st.fraction.value else ClockText(st)
  }

  function DateText(st: Stamp): string {
    st.year + ['-'] + st.month + ['-'] + st.day
  }

  function StampText(st: Stamp): string {
    DateText(st) + ['T'] + (TimeText(st) + ['Z'])
  }

  predicate Numeric(s: string) {
    ParseUnsigned(s, U32_MAX).Some?
  }

  predicate NumericTokens(st: Stamp) {
    && Numeric(st.year) && Numeric(st.month) && Numeric(st.day)
    && Numeric(st.hour) && Numeric(st.minute) && Numeric(st.second)
    && (st.fraction.Some? ==> AllDigits(st.fraction.value))
  }

  function Num(s: string): nat
    requires Numeric(s)
  {
    ParseUnsigned(s, U32_MAX).value
  }

  function DateOf(st: Stamp): Date
    requires NumericTokens(st)
  {
    Date(Num(st.year), Num(st.month), Num(st.day))
  }

  function ClockOf(st: Stamp): Triple
    requires NumericTokens(st)
  {
    Triple(Num(st.hour), Num(st.minute), Num(st.second))
  }

  function FractionOf(st: Stamp): string {
    if st.fraction.Some? then st.fraction.value else []
  }

  function MillisOfDay(clock: Triple, fraction: nat): (ms: nat) {
    clock.first * 3_600_000 + clock.second * 60_000 + clock.third * 1_000 + fraction
  }

  predicate ValidClock(clock: Triple) {
    clock.first <= 23 && clock.second <= 59 && clock.third <= 59
  }

  function StampMillisOfDay(st: Stamp): nat
    requires NumericTokens(st)
  {
    MillisOfDay(ClockOf(st), FractionMillis(FractionOf(st)))
  }

  function Millis(st: Stamp): int
    requires NumericTokens(st)
  {
    DaysFromCivil(DateOf(st)) * DAY_MS + StampMillisOfDay(st)
  }

  /** A timestamp text is accepted when its tokens are numbers that name a real
      Gregorian date and a time of day without leap second, and the result fits. */
  predicate Accepted(st: Stamp) {
    NumericTokens(st) && ValidDate(DateOf(st)) && ValidClock(ClockOf(st)) && Millis(st) <= I64_MAX
  }

  lemma NumericChars(s: string, c: char)
    requires Numeric(s) && !IsDigit(c) && c != '+'
    ensures c !in s
  {
    var digits := if s[0] == '+' then s[1..] else s;
    forall i | 0 <= i < |s| ensures s[i] != c {
      if s[0] == '+' && i > 0 {
        assert s[i] == digits[i - 1];
      }
    }
  }

  lemma FractionMillisBound(fraction: string)
    requires AllDigits(fraction)
    ensures FractionMillis(fraction) <= 999
  {}

  /** Day numbers from year 0 on are far from the lower end of the range, so only
      the upper end can be exceeded. */
  lemma EvaluateResult(d: Date, clock: Triple, fraction: nat)
    requires 1 <= d.month <= 12 && d.year >= 0 && d.day >= 0
    ensures var ms := DaysFromCivil(d) * DAY_MS + MillisOfDay(clock, fraction);
            && (Evaluate(d, clock, fraction).Ok? <==> ValidDate(d) && ValidClock(clock) && ms <= I64_MAX)
            && (Evaluate(d, clock, fraction).Ok? ==> Evaluate(d, clock, fraction) == Ok(ms))
  {
    if ValidDate(d) {
      YearZero(d);
    }
  }

  lemma YearZero(d: Date)
    requires ValidDate(d) && d.year >= 0
    ensures DaysFromCivil(d) >= -719_528
  {
    YearZeroStart();
    if d != Date(0, 1, 1) {
      LaterDateLarger(Date(0, 1, 1), d);
    }
  }

  lemma YearZeroStart()
    ensures DaysFromCivil(Date(0, 1, 1)) == -719_528
  {}

  function FieldsOf(st: Stamp): Fields {
    Fields([st.year, st.month, st.day], [st.hour, st.minute, st.second], FractionOf(st))
  }

  /** Splitting the text of numeric tokens gives the tokens back. */
  lemma SplitStamp(st: Stamp)
    requires NumericTokens(st)
    ensures SplitText(StampText(st)) == Ok(FieldsOf(st))
  {
    var date, time, clock := DateText(st), TimeText(st), ClockText(st);
    DateTokensHaveNo(st, 'T');
    SplitOnceAt(date, 'T', time + ['Z']);
    assert (time + ['Z'])[..|time|] == time;
    SplitDate(st);
    SplitClock(st);
  }

  lemma SplitDate(st: Stamp)
    requires NumericTokens(st)
    ensures Split(DateText(st), '-') == [st.year, st.month, st.day]
  {
    DateTokensHaveNo(st, '-');
    SplitThreePieces(st.year, st.month, st.day, '-');
  }

  lemma SplitClock(st: Stamp)
    requires NumericTokens(st)
    ensures ClockAndFraction(TimeText(st)) == (ClockText(st), FractionOf(st))
    ensures Split(ClockText(st), ':') == [st.hour, st.minute, st.second]
  {
    ClockTokensHaveNo(st, ':');
    SplitThreePieces(st.hour, st.minute, st.second, ':');
    ClockTokensHaveNo(st, '.');
    if st.fraction.Some? {
      SplitOnceAt(ClockText(st), '.', st.fraction.value);
    } else {
      SplitOnceNone(ClockText(st), '.');
    }
  }

  lemma DateTokensHaveNo(st: Stamp, c: char)
    requires NumericTokens(st) && !IsDigit(c) && c != '+'
    ensures c !in st.year && c !in st.month && c !in st.day
    ensures c != '-' ==> c !in DateText(st)
  {
    NumericChars(st.year, c);
    NumericChars(st.month, c);
    NumericChars(st.day, c);
  }

  lemma ClockTokensHaveNo(st: Stamp, c: char)
    requires NumericTokens(st) && !IsDigit(c) && c != '+'
    ensures c !in st.hour && c !in st.minute && c !in st.second
    ensures c != ':' ==> c !in ClockText(st)
  {
    NumericChars(st.hour, c);
    NumericChars(st.minute, c);
    NumericChars(st.second, c);
  }

  lemma NumbersOf(a: string, b: string, c: string)
    requires Numeric(a) && Numeric(b) && Numeric(c)
    ensures Numbers([a, b, c]) == Some(Triple(Num(a), Num(b), Num(c)))
  {}

  lemma TokensResult(st: Stamp)
    requires NumericTokens(st)
    ensures ParseFields(FieldsOf(st)).Ok? <==> Accepted(st)
    ensures Accepted(st) ==> ParseFields(FieldsOf(st)) == Ok(Millis(st))
  {
    NumbersOf(st.year, st.month, st.day);
    NumbersOf(st.hour, st.minute, st.second);
    FieldsResult(FieldsOf(st), DateOf(st), ClockOf(st), Millis(st));
  }

  lemma ParseIsFields(value: string, f: Fields)
    requires SplitText(value) == Ok(f)
    ensures Parse(value) == ParseFields(f)
  {}

  lemma ParseStampResult(st: Stamp)
    requires NumericTokens(st)
    ensures Parse(StampText(st)).Ok? <==> Accepted(st)
    ensures Accepted(st) ==> Parse(StampText(st)) == Ok(Millis(st))
  {
    SplitStamp(st);
    ParseIsFields(StampText(st), FieldsOf(st));
    TokensResult(st);
  }

  lemma FieldsResult(f: Fields, d: Date, clock: Triple, ms: int)
    requires |f.date| == 3 && |f.clock| == 3 && AllDigits(f.fraction)
    requires d.year >= 0 && d.month >= 0 && d.day >= 0
    requires Numbers(f.date) == Some(Triple(d.year, d.month, d.day)) && Numbers(f.clock) == Some(clock)
    requires 1 <= d.month <= 12 ==> ms == DaysFromCivil(d) * DAY_MS + MillisOfDay(clock, FractionMillis(f.fraction))
    ensures ParseFields(f).Ok? <==> ValidDate(d) && ValidClock(clock) && ms <= I64_MAX
    ensures ParseFields(f).Ok? ==> ParseFields(f) == Ok(ms)
  {
    if 1 <= d.month <= 12 {
      EvaluateResult(d, clock, FractionMillis(f.fraction));
    }
  }

  /** The tokens of a text the parser accepts. */
  lemma TokensOf(value: string) returns (st: Stamp)
    requires Parse(value).Ok?
    ensures NumericTokens(st) && value == StampText(st)
  {
    var f := SplitText(value).value;
    AcceptedFields(f);
    st := StampOf(value, f);
    AcceptedNumeric(f.date);
    AcceptedNumeric(f.clock);
  }

  lemma StampOf(value: string, f: Fields) returns (st: Stamp)
    requires SplitText(value) == Ok(f) && |f.date| == 3 && |f.clock| == 3
    ensures value == StampText(st) && FieldsOf(st) == f
    ensures st.fraction.Some? ==> st.fraction.value == f.fraction
  {
    var (date, time) := SplitOnce(value, 'T').value;
    var body := time[..|time| - 1];
    var (clock, fraction) := ClockAndFraction(body);
    SplitThree(date, '-');
    SplitThree(clock, ':');
    st := Stamp(f.date[0], f.date[1], f.date[2], f.clock[0], f.clock[1], f.clock[2],
                if SplitOnce(body, '.').Some? then Some(fraction) else None);
    assert body == TimeText(st);
    assert time == body + ['Z'];
  }

  lemma AcceptedFields(f: Fields)
    requires ParseFields(f).Ok?
    ensures |f.date| == 3 && |f.clock| == 3 && AllDigits(f.fraction)
    ensures Numbers(f.date).Some? && Numbers(f.clock).Some?
  {}

  lemma AcceptedNumeric(parts: seq<string>)
    requires |parts| == 3 && Numbers(parts).Some?
    ensures Numeric(parts[0]) && Numeric(parts[1]) && Numeric(parts[2])
  {}

  /** Exactly what the parser accepts: a text parses to `ms` if and only if it is
      the text of accepted tokens and `ms` is their millisecond count, which is
      the Gregorian day number times 86 400 000 plus the time of day. */
  lemma ParseIff(value: string, ms: int)
    ensures Parse(value) == Ok(ms) <==> exists st :: Accepted(st) && value == StampText(st) && ms == Millis(st)
  {
    if Parse(value) == Ok(ms) {
      var st := TokensOf(value);
      ParseStampResult(st);
      assert Accepted(st) && value == StampText(st) && ms == Millis(st);
    }
    if exists st :: Accepted(st) && value == StampText(st) && ms == Millis(st) {
      var st :| Accepted(st) && value == StampText(st) && ms == Millis(st);
      ParseStampResult(st);
    }
  }

  // ----- Order -----

  lemma MillisOfDayBound(st: Stamp)
    requires Accepted(st)
    ensures StampMillisOfDay(st) < DAY_MS
  {
    FractionMillisBound(FractionOf(st));
  }

  /** The parse is monotone: an earlier date, or the same date and an earlier
      millisecond of the day, gives a smaller number. */
  lemma ParseMonotone(a: Stamp, b: Stamp)
    requires Accepted(a) && Accepted(b)
    requires Earlier(DateOf(a), DateOf(b)) || (DateOf(a) == DateOf(b) && StampMillisOfDay(a) < StampMillisOfDay(b))
    ensures Parse(StampText(a)).Ok? && Parse(StampText(b)).Ok?
    ensures Parse(StampText(a)).value < Parse(StampText(b)).value
  {
    ParseStampResult(a);
    ParseStampResult(b);
    MillisOfDayBound(a);
    MillisOfDayBound(b);
    if Earlier(DateOf(a), DateOf(b)) {
      LaterDateLarger(DateOf(a), DateOf(b));
    }
  }

  // ----- The grammar of RFC 3339, section 5.6 -----

  predicate Fixed(s: string, width: nat) {
    |s| == width && AllDigits(s)
  }

  /** A full date-time in UTC as section 5.6 writes it: four- and two-digit
      fields, and at least one digit in a fraction. */
  predicate Strict(st: Stamp) {
    && Fixed(st.year, 4) && Fixed(st.month, 2) && Fixed(st.day, 2)
    && Fixed(st.hour, 2) && Fixed(st.minute, 2) && Fixed(st.second, 2)
    && (st.fraction.Some? ==> st.fraction.value != [] && AllDigits(st.fraction.value))
  }

  lemma FixedNumeric(s: string, width: nat)
    requires Fixed(s, width) && 1 <= width <= 4
    ensures Numeric(s) && Num(s) == DigitsValue(s) < 10_000
  {
    DigitsBound(s);
    assert Pow10(4) == 10_000 && Pow10(3) == 1_000 && Pow10(2) == 100 && Pow10(1) == 10;
  }

  lemma StrictNumeric(st: Stamp)
    requires Strict(st)
    ensures NumericTokens(st) && Num(st.year) < 10_000
  {
    FixedNumeric(st.year, 4);
    FixedNumeric(st.month, 2);
    FixedNumeric(st.day, 2);
    FixedNumeric(st.hour, 2);
    FixedNumeric(st.minute, 2);
    FixedNumeric(st.second, 2);
  }

  lemma StrictFits(d: Date, ms: nat)
    requires ValidDate(d) && d.year < 10_000 && ms < DAY_MS
    ensures DaysFromCivil(d) * DAY_MS + ms <= I64_MAX
  {
    LaterDateLarger(d, Date(10_000, 1, 1));
    assert DaysFromCivil(Date(10_000, 1, 1)) == 2_932_897;
  }

  /** A strict timestamp is accepted exactly when its date exists and its clock
      reads at most 23:59:59; the leap second :60 of section 5.7 is refused. */
  lemma StrictAcceptedIff(st: Stamp)
    requires Strict(st)
    ensures NumericTokens(st)
    ensures Parse(StampText(st)).Ok?
       <==> ValidDate(DateOf(st)) && ValidClock(ClockOf(st))
  {
    StrictNumeric(st);
    ParseStampResult(st);
    if ValidDate(DateOf(st)) && ValidClock(ClockOf(st)) {
      FractionMillisBound(FractionOf(st));
      StrictFits(DateOf(st), StampMillisOfDay(st));
    }
  }

  lemma LooseAccepted()
    ensures Accepted(LOOSE)
  {
    assert "+1"[1..] == "1";
    OneDigit("1");
    OneDigit("2");
    OneDigit("3");
    OneDigit("4");
    OneDigit("5");
    OneDigit("6");
    StrictFits(Date(1, 2, 3), MillisOfDay(Triple(4, 5, 6), 0));
  }

  /** The parser is wider than the grammar: a sign, short fields and an empty
      fraction are accepted. */
  lemma LooseTextAccepted()
    ensures !Strict(LOOSE) && Parse(StampText(LOOSE)).Ok?
  {
    LooseAccepted();
    ParseStampResult(LOOSE);
  }

  /** The tokens of `+1-2-3T4:5:6.Z`. */
  const LOOSE := Stamp("+1", "2", "3", "4", "5", "6", Some(""))

  lemma OneDigit(s: string)
    requires |s| == 1 && AllDigits(s)
    ensures DigitsValue(s) == DigitValue(s[0])
  {
    assert s[..0] == [];
  }

  // ----- Narrower than the grammar -----

  /** The first two checks, exactly: an upper-case `T` somewhere and an upper-case
      `Z` at the end. */
  lemma SeparatorsRequired(value: string)
    ensures Parse(value) == Err(NoDateTimeSeparator) <==> 'T' !in value
    ensures Parse(value) == Err(NotUtc) <==> 'T' in value && value[|value| - 1] != 'Z'
  {
    if 'T' !in value {
      SplitOnceNone(value, 'T');
    } else {
      var (date, time) := SplitOnce(value, 'T').value;
      assert value == date + ['T'] + time;
      assert time != [] ==> time[|time| - 1] == value[|value| - 1];
      if SplitText(value).Ok? {
        LaterErrors(value);
      }
    }
  }

  lemma LaterErrors(value: string)
    requires SplitText(value).Ok?
    ensures Parse(value) != Err(NoDateTimeSeparator) && Parse(value) != Err(NotUtc)
  {
    FieldErrors(SplitText(value).value);
  }

  lemma FieldErrors(f: Fields)
    ensures ParseFields(f) != Err(NoDateTimeSeparator) && ParseFields(f) != Err(NotUtc)
  {
    var date, clock := Numbers(f.date), Numbers(f.clock);
    if date.Some? && clock.Some? && AllDigits(f.fraction) && 1 <= date.value.second <= 12 {
      EvaluateErrors(Date(date.value.first, date.value.second, date.value.third), clock.value,
          FractionMillis(f.fraction));
    }
  }

  lemma EvaluateErrors(d: Date, clock: Triple, fraction: nat)
    requires 1 <= d.month <= 12
    ensures Evaluate(d, clock, fraction) != Err(NoDateTimeSeparator) && Evaluate(d, clock, fraction) != Err(NotUtc)
  {}

  /** The grammar lets a date-time be written with a lower-case `t` or `z` and with
      a numeric offset; the parser refuses all three, for every date and time. */
  lemma OtherSpellingsRefused(st: Stamp, offset: string)
    requires Strict(st) && offset != [] && offset[|offset| - 1] != 'Z'
    ensures Parse(DateText(st) + ['t'] + (TimeText(st) + ['Z'])) == Err(NoDateTimeSeparator)
    ensures Parse(DateText(st) + ['T'] + (TimeText(st) + ['z'])) == Err(NotUtc)
    ensures Parse(DateText(st) + ['T'] + (TimeText(st) + offset)) == Err(NotUtc)
  {
    DateTokensHaveNoLetter(st);
    TimeTokensHaveNoLetter(st);
    var lower := DateText(st) + ['t'] + (TimeText(st) + ['Z']);
    assert 'T' !in lower;
    SeparatorsRequired(lower);
    EndsWith(DateText(st), TimeText(st), ['z']);
    EndsWith(DateText(st), TimeText(st), offset);
  }

  lemma EndsWith(date: string, time: string, zone: string)
    requires zone != [] && zone[|zone| - 1] != 'Z'
    ensures Parse(date + ['T'] + (time + zone)) == Err(NotUtc)
  {
    var value := date + ['T'] + (time + zone);
    assert value[|date|] == 'T';
    assert value[|value| - 1] == zone[|zone| - 1];
    SeparatorsRequired(value);
  }

  lemma DigitsHaveNoLetter(s: string)
    requires AllDigits(s)
    ensures 'T' !in s
  {}

  lemma DateTokensHaveNoLetter(st: Stamp)
    requires Strict(st)
    ensures 'T' !in DateText(st)
  {
    DigitsHaveNoLetter(st.year);
    DigitsHaveNoLetter(st.month);
    DigitsHaveNoLetter(st.day);
  }

  lemma TimeTokensHaveNoLetter(st: Stamp)
    requires Strict(st)
    ensures 'T' !in TimeText(st)
  {
    DigitsHaveNoLetter(st.hour);
    DigitsHaveNoLetter(st.minute);
    DigitsHaveNoLetter(st.second);
    DigitsHaveNoLetter(FractionOf(st));
  }
}
