// Gregorian day arithmetic (src/feeds/types.rs): days since 1970-01-01 by
// integer arithmetic, against a calendar that only knows the next day.
module Calendar {

  datatype Date = Date(year: int, month: int, day: int)

  predicate LeapYear(year: int) {
    year % 4 == 0 && (year % 100 != 0 || year % 400 == 0)
  }

  function DaysInMonth(year: int, month: int): int {
    if month == 2 then (if LeapYear(year) then 29 else 28)
    else if month == 4 || month == 6 || month == 9 || month == 11 then 30
    else 31
  }

  predicate ValidDate(d: Date) {
    1 <= d.month <= 12 && 1 <= d.day <= DaysInMonth(d.year, d.month)
  }

  const EPOCH := Date(1970, 1, 1)

  /** Signed division as the program has it: truncated toward zero. */
  function TruncDiv(a: int, b: int): int
    requires b > 0
  {
    if a >= 0 then a / b else -((-a) / b)
  }

  /** `days_from_civil`. */
  function DaysFromCivil(d: Date): int {
    var adjusted := d.year - (if d.month <= 2 then 1 else 0);
    var era := if adjusted >= 0 then TruncDiv(adjusted, 400) else TruncDiv(adjusted - 399, 400);
    var yearOfEra := adjusted - era * 400;
    var monthPrime := if d.month > 2 then d.month - 3 else d.month + 9;
    var dayOfYear := TruncDiv(153 * monthPrime + 2, 5) + d.day - 1;
    var dayOfEra := yearOfEra * 365 + TruncDiv(yearOfEra, 4) - TruncDiv(yearOfEra, 100) + dayOfYear;
    era * 146_097 + dayOfEra - 719_468
  }

  // ----- The calendar -----

  function NextDay(d: Date): Date {
    if d.day < DaysInMonth(d.year, d.month) then Date(d.year, d.month, d.day + 1)
    else if d.month < 12 then Date(d.year, d.month + 1, 1)
    else Date(d.year + 1, 1, 1)
  }

  lemma NextDayValid(d: Date)
    requires ValidDate(d)
    ensures ValidDate(NextDay(d))
  {}

  predicate Earlier(a: Date, b: Date) {
    a.year < b.year || (a.year == b.year && (a.month < b.month || (a.month == b.month && a.day < b.day)))
  }

  // ----- The arithmetic, with floored divisions -----

  /** Leap days among the years before `y`. */
  function LeapDays(y: int): int {
    y / 4 - y / 100 + y / 400
  }

  /** Days before the first of a month, in years that start in March. */
  function MonthStart(monthPrime: int): int {
    (153 * monthPrime + 2) / 5
  }

  lemma EraIsFloor(y: int)
    ensures (if y >= 0 then TruncDiv(y, 400) else TruncDiv(y - 399, 400)) == y / 400
  {}

  lemma EraParts(y: int)
    ensures var era := y / 400;
            var yoe := y - era * 400;
            && 0 <= yoe < 400
            && era * 146_097 + yoe * 365 + yoe / 4 - yoe / 100 == 365 * y + LeapDays(y)
  {
    var era := y / 400;
    var yoe := y - era * 400;
    assert y / 4 == yoe / 4 + era * 100;
    assert y / 100 == yoe / 100 + era * 4;
  }

  /** The day number in March years: closed form with floored divisions. */
  function Closed(d: Date): int {
    var y := d.year - (if d.month <= 2 then 1 else 0);
    var mp := if d.month > 2 then d.month - 3 else d.month + 9;
    365 * y + LeapDays(y) + MonthStart(mp) + d.day - 719_469
  }

  lemma ClosedForm(d: Date)
    requires ValidDate(d)
    ensures DaysFromCivil(d) == Closed(d)
  {
    var y := d.year - (if d.month <= 2 then 1 else 0);
    EraIsFloor(y);
    EraParts(y);
  }

  /** The leap rule, as floored divisions see it. */
  lemma LeapDaysStep(y: int)
    ensures LeapDays(y) == LeapDays(y - 1) + if LeapYear(y) then 1 else 0
  {
    FourStep(y);
    CenturyStep(y);
    EraStep(y);
    Nested(y);
  }

  lemma FourStep(y: int)
    ensures y / 4 == (y - 1) / 4 + if y % 4 == 0 then 1 else 0
  {}

  lemma CenturyStep(y: int)
    ensures y / 100 == (y - 1) / 100 + if y % 100 == 0 then 1 else 0
  {}

  lemma EraStep(y: int)
    ensures y / 400 == (y - 1) / 400 + if y % 400 == 0 then 1 else 0
  {}

  lemma Nested(y: int)
    ensures y % 400 == 0 ==> y % 100 == 0
    ensures y % 100 == 0 ==> y % 4 == 0
  {}

  /** Month lengths from March on are the steps of the month formula. */
  lemma MonthStep(year: int, month: int)
    requires 1 <= month <= 12 && month != 2
    ensures var mp := if month > 2 then month - 3 else month + 9;
            MonthStart(mp + 1) == MonthStart(mp) + DaysInMonth(year, month)
  {
    if month <= 4 {
    } else if month <= 8 {
    }
  }

  // ----- Calendar correctness -----

  lemma EpochIsZero()
    ensures DaysFromCivil(EPOCH) == 0
  {}

  /** From every valid date to the next, month ends, leap days, century and era
      boundaries included, the day number grows by exactly one. */
  lemma NextDayIsOneMore(d: Date)
    requires ValidDate(d)
    ensures DaysFromCivil(NextDay(d)) == DaysFromCivil(d) + 1
  {
    NextDayValid(d);
    ClosedForm(d);
    ClosedForm(NextDay(d));
    if d.day < DaysInMonth(d.year, d.month) {
      assert Closed(NextDay(d)) == Closed(d) + 1;
    } else if d.month == 2 {
      AfterFebruary(d.year);
    } else {
      AfterMonth(d.year, d.month);
    }
  }

  lemma AfterFebruary(year: int)
    ensures Closed(Date(year, 3, 1)) == Closed(Date(year, 2, DaysInMonth(year, 2))) + 1
  {
    LeapDaysStep(year);
  }

  lemma AfterMonth(year: int, month: int)
    requires 1 <= month <= 12 && month != 2
    ensures var last := Date(year, month, DaysInMonth(year, month));
            Closed(if month == 12 then Date(year + 1, 1, 1) else Date(year, month + 1, 1)) == Closed(last) + 1
  {
    MonthStep(year, month);
  }

  /** The Gregorian day count of a date: `later` counts forward from the epoch by
      next days, otherwise back. */
  ghost predicate DayCount(d: Date, n: nat, later: bool)
    decreases n
  {
    && ValidDate(d)
    && if n == 0 then d == EPOCH
       else if later then exists e :: DayCount(e, n - 1, later) && d == NextDay(e)
       else DayCount(NextDay(d), n - 1, later)
  }

  /** A date's Gregorian day count determines its day number. */
  lemma {:induction false} DayCountGivesNumber(d: Date, n: nat, later: bool)
    requires DayCount(d, n, later)
    ensures later ==> DaysFromCivil(d) == n
    ensures !later ==> DaysFromCivil(d) + n == 0
    decreases n
  {
    if n > 0 {
      if later {
        var e :| DayCount(e, n - 1, later) && d == NextDay(e);
        DayCountGivesNumber(e, n - 1, later);
        NextDayIsOneMore(e);
      } else {
        DayCountGivesNumber(NextDay(d), n - 1, later);
        NextDayIsOneMore(d);
      }
    }
  }

  // ----- Monotonicity -----

  lemma DayInMonth(d: Date)
    requires ValidDate(d)
    ensures DaysFromCivil(d) == DaysFromCivil(Date(d.year, d.month, 1)) + d.day - 1
  {}

  lemma FirstOfNextMonth(year: int, month: int)
    requires 1 <= month < 12
    ensures DaysFromCivil(Date(year, month + 1, 1)) == DaysFromCivil(Date(year, month, 1)) + DaysInMonth(year, month)
  {
    var last := Date(year, month, DaysInMonth(year, month));
    DayInMonth(last);
    NextDayIsOneMore(last);
  }

  lemma {:induction false} MonthsGrow(year: int, m: int, m': int)
    requires 1 <= m < m' <= 12
    ensures DaysFromCivil(Date(year, m, 1)) + DaysInMonth(year, m) <= DaysFromCivil(Date(year, m', 1))
    decreases m' - m
  {
    FirstOfNextMonth(year, m' - 1);
    if m < m' - 1 {
      MonthsGrow(year, m, m' - 1);
    }
  }

  lemma YearEnds(year: int)
    ensures DaysFromCivil(Date(year + 1, 1, 1)) == DaysFromCivil(Date(year, 12, 1)) + 31
  {
    NextDayIsOneMore(Date(year, 12, 31));
  }

  lemma {:induction false} YearsGrow(y: int, y': int)
    requires y < y'
    ensures DaysFromCivil(Date(y, 12, 1)) + 31 <= DaysFromCivil(Date(y', 1, 1))
    decreases y' - y
  {
    YearEnds(y' - 1);
    if y < y' - 1 {
      YearsGrow(y, y' - 1);
      MonthsGrow(y' - 1, 1, 12);
    }
  }

  lemma WithinYear(d: Date)
    requires ValidDate(d)
    ensures DaysFromCivil(Date(d.year, 1, 1)) <= DaysFromCivil(d) < DaysFromCivil(Date(d.year, 12, 1)) + 31
  {
    var first := DaysFromCivil(Date(d.year, d.month, 1));
    DayInMonth(d);
    if d.month > 1 { MonthsGrow(d.year, 1, d.month); }
    if d.month < 12 { MonthsGrow(d.year, d.month, 12); }
  }

  lemma LaterMonthLarger(a: Date, b: Date)
    requires ValidDate(a) && ValidDate(b) && a.year == b.year && a.month < b.month
    ensures DaysFromCivil(a) < DaysFromCivil(b)
  {
    DayInMonth(a);
    DayInMonth(b);
    MonthsGrow(a.year, a.month, b.month);
  }

  /** Day numbers order dates as the calendar does. */
  lemma LaterDateLarger(a: Date, b: Date)
    requires ValidDate(a) && ValidDate(b) && Earlier(a, b)
    ensures DaysFromCivil(a) < DaysFromCivil(b)
  {
    if a.year < b.year {
      WithinYear(a);
      WithinYear(b);
      YearsGrow(a.year, b.year);
    } else if a.month < b.month {
      LaterMonthLarger(a, b);
    } else {
      DayInMonth(a);
      DayInMonth(b);
    }
  }

  /** Equal day numbers mean equal dates. */
  lemma DaysInjective(a: Date, b: Date)
    requires ValidDate(a) && ValidDate(b) && DaysFromCivil(a) == DaysFromCivil(b)
    ensures a == b
  {
    if Earlier(a, b) {
      LaterDateLarger(a, b);
    } else if Earlier(b, a) {
      LaterDateLarger(b, a);
    }
  }

  // ----- Every date is counted -----

  function PreviousDay(d: Date): Date {
    if d.day > 1 then Date(d.year, d.month, d.day - 1)
    else if d.month > 1 then Date(d.year, d.month - 1, DaysInMonth(d.year, d.month - 1))
    else Date(d.year - 1, 12, 31)
  }

  lemma PreviousThenNext(d: Date)
    requires ValidDate(d)
    ensures ValidDate(PreviousDay(d)) && NextDay(PreviousDay(d)) == d
  {}

  lemma {:induction false} NumberGivesDayCount(d: Date, n: nat, later: bool)
    requires ValidDate(d) && (later ==> DaysFromCivil(d) == n) && (!later ==> DaysFromCivil(d) + n == 0)
    ensures DayCount(d, n, later)
    decreases n
  {
    EpochIsZero();
    if n == 0 {
      DaysInjective(d, EPOCH);
    } else if later {
      PreviousThenNext(d);
      NextDayIsOneMore(PreviousDay(d));
      NumberGivesDayCount(PreviousDay(d), n - 1, later);
    } else {
      NextDayValid(d);
      NextDayIsOneMore(d);
      NumberGivesDayCount(NextDay(d), n - 1, later);
    }
  }

  /** `days_from_civil` is the Gregorian day count: a valid date lies n days after
      (before) 1970-01-01, counted day by day, exactly when its day number is n
      (-n). */
  lemma DayNumberIsDayCount(d: Date, n: nat)
    requires ValidDate(d)
    ensures DayCount(d, n, true) <==> DaysFromCivil(d) == n
    ensures DayCount(d, n, false) <==> DaysFromCivil(d) + n == 0
  {
    if DayCount(d, n, true) { DayCountGivesNumber(d, n, true); }
    if DayCount(d, n, false) { DayCountGivesNumber(d, n, false); }
    if DaysFromCivil(d) == n { NumberGivesDayCount(d, n, true); }
    if DaysFromCivil(d) + n == 0 { NumberGivesDayCount(d, n, false); }
  }
}
