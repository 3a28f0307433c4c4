/**
 * Dates `YYYY-MM-DD` and times `HH:MM` as a booking carries them, and the
 * instant (in minutes) they denote on the proleptic Gregorian calendar.
 * Time zones and daylight saving are not modelled: every day has 1440 minutes.
 */
module Calendar {
  import opened Wrappers
  import opened Text

  /** The shape `^\d{4}-\d{2}-\d{2}$`. */
  predicate DateShape(s: string) {
    |s| == 10 && DigitsAt(s, 0, 4) && s[4] == '-' && DigitsAt(s, 5, 7) && s[7] == '-' && DigitsAt(s, 8, 10)
  }

  /** The shape `^\d{2}:\d{2}$`. */
  predicate TimeShape(s: string) {
    |s| == 5 && DigitsAt(s, 0, 2) && s[2] == ':' && DigitsAt(s, 3, 5)
  }

  function YearOf(s: string): nat requires DateShape(s) { Number(s[0..4]) }
  function MonthOf(s: string): nat requires DateShape(s) { Number(s[5..7]) }
  function DayOf(s: string): nat requires DateShape(s) { Number(s[8..10]) }
  function HourOf(s: string): nat requires TimeShape(s) { Number(s[0..2]) }
  function MinuteOf(s: string): nat requires TimeShape(s) { Number(s[3..5]) }

  /** The fields of a date, digit by digit. */
  lemma DateFields(d: string)
    requires DateShape(d)
    ensures YearOf(d) == 1000 * DigitValue(d[0]) + 100 * DigitValue(d[1]) + 10 * DigitValue(d[2]) + DigitValue(d[3])
    ensures MonthOf(d) == 10 * DigitValue(d[5]) + DigitValue(d[6])
    ensures DayOf(d) == 10 * DigitValue(d[8]) + DigitValue(d[9])
  {
    NumberOfFour(d[0..4]);
    NumberOfTwo(d[5..7]);
    NumberOfTwo(d[8..10]);
  }

  /** The fields of a time of day, digit by digit. */
  lemma ClockFields(t: string)
    requires TimeShape(t)
    ensures HourOf(t) == 10 * DigitValue(t[0]) + DigitValue(t[1])
    ensures MinuteOf(t) == 10 * DigitValue(t[3]) + DigitValue(t[4])
  {
    NumberOfTwo(t[0..2]);
    NumberOfTwo(t[3..5]);
  }

  predicate IsLeapYear(y: int) {
    y % 4 == 0 && (y % 100 != 0 || y % 400 == 0)
  }

  function YearLength(y: int): nat {
    if IsLeapYear(y) then 366 else 365
  }

  function DaysInMonth(y: int, m: int): (n: nat)
    requires 1 <= m <= 12
    ensures 28 <= n <= 31
  {
    if m == 2 then (if IsLeapYear(y) then 29 else 28)
    else if m == 4 || m == 6 || m == 9 || m == 11 then 30
    else 31
  }

  /** Days of year `y` before the first of month `m` (m == 13: the whole year). */
  function DaysBeforeMonth(y: int, m: int): nat
    requires 1 <= m <= 13
  {
    if m == 1 then 0 else DaysBeforeMonth(y, m - 1) + DaysInMonth(y, m - 1)
  }

  /** Days from 0001-01-01 to the first of January of year `y`. */
  function DaysBeforeYear(y: int): int
    requires y >= 1
  {
    var n := y - 1;
    365 * n + n / 4 - n / 100 + n / 400
  }

  /** A calendar date a date column accepts: year 1 or later, a real month and day. */
  predicate ValidDate(s: string) {
    DateShape(s) && YearOf(s) >= 1 && 1 <= MonthOf(s) <= 12 &&
    1 <= DayOf(s) <= DaysInMonth(YearOf(s), MonthOf(s))
  }

  /** A time of day a time column accepts: 00:00 to 23:59, or exactly 24:00. */
  predicate ValidTime(s: string) {
    TimeShape(s) && ((HourOf(s) < 24 && MinuteOf(s) < 60) || (HourOf(s) == 24 && MinuteOf(s) == 0))
  }

  /** Days since 0001-01-01 of the date y-m-d. */
  function Ordinal(y: int, m: int, d: int): int
    requires y >= 1 && 1 <= m <= 12
  {
    DaysBeforeYear(y) + DaysBeforeMonth(y, m) + d - 1
  }

  function DayNumber(s: string): int
    requires ValidDate(s)
  {
    Ordinal(YearOf(s), MonthOf(s), DayOf(s))
  }

  function MinuteOfDay(t: string): (m: nat)
    requires ValidTime(t)
    ensures m <= 1440
  {
    HourOf(t) * 60 + MinuteOf(t)
  }

  /**
   * The instant `date`T`time` in minutes, or None when either part is out of
   * range (an Invalid Date such as `2024-02-32` or `25:99`, whose
   * comparisons are all false). A day past the end of its month that the
   * date parser rolls over (`2024-02-30`) is None here as well.
   */
  function Instant(date: string, time: string): (r: Option<int>)
    ensures r.Some? <==> ValidDate(date) && ValidTime(time)
    ensures r.Some? ==> DayNumber(date) * 1440 <= r.value <= DayNumber(date) * 1440 + 1440
  {
    if ValidDate(date) && ValidTime(time) then Some(DayNumber(date) * 1440 + MinuteOfDay(time)) else None
  }

  // ---- The calendar is increasing -------------------------------------------

  lemma LeapDivisions(n: int)
    requires n >= 0
    ensures (n + 1) / 4 - n / 4 == (if (n + 1) % 4 == 0 then 1 else 0)
    ensures (n + 1) / 100 - n / 100 == (if (n + 1) % 100 == 0 then 1 else 0)
    ensures (n + 1) / 400 - n / 400 == (if (n + 1) % 400 == 0 then 1 else 0)
  {
  }

  lemma MultipleOfHundred(y: int, k: int)
    requires y == 100 * k
    ensures y % 100 == 0 && y % 4 == 0
  {
    assert y == 4 * (25 * k);
  }

  lemma MultiplesNest(y: int)
    ensures y % 400 == 0 ==> y % 100 == 0
    ensures y % 100 == 0 ==> y % 4 == 0
  {
    if y % 400 == 0 {
      var k := y / 400;
      MultipleOfHundred(y, 4 * k);
    }
    if y % 100 == 0 {
      MultipleOfHundred(y, y / 100);
    }
  }

  lemma YearStep(y: int)
    requires y >= 1
    ensures DaysBeforeYear(y + 1) == DaysBeforeYear(y) + YearLength(y)
  {
    var n := y - 1;
    LeapDivisions(n);
    MultiplesNest(y);
    assert DaysBeforeYear(y + 1) - DaysBeforeYear(y) ==
      365 + ((n + 1) / 4 - n / 4) - ((n + 1) / 100 - n / 100) + ((n + 1) / 400 - n / 400);
  }

  lemma {:induction false} YearsIncrease(y1: int, y2: int)
    requires 1 <= y1 < y2
    ensures DaysBeforeYear(y1) + YearLength(y1) <= DaysBeforeYear(y2)
    decreases y2 - y1
  {
    YearStep(y1);
    if y1 + 1 < y2 {
      YearsIncrease(y1 + 1, y2);
    }
  }

  lemma {:induction false} MonthsIncrease(y: int, m1: int, m2: int)
    requires 1 <= m1 < m2 <= 13
    ensures DaysBeforeMonth(y, m1) + DaysInMonth(y, m1) <= DaysBeforeMonth(y, m2)
    decreases m2 - m1
  {
    if m1 + 1 < m2 {
      MonthsIncrease(y, m1 + 1, m2);
    }
  }

  lemma MonthsFillYear(y: int)
    ensures DaysBeforeMonth(y, 13) == YearLength(y)
  {
    var feb := DaysInMonth(y, 2);
    assert DaysBeforeMonth(y, 1) == 0;
    assert DaysBeforeMonth(y, 2) == DaysBeforeMonth(y, 1) + 31;
    assert DaysBeforeMonth(y, 3) == DaysBeforeMonth(y, 2) + feb;
    assert DaysBeforeMonth(y, 4) == DaysBeforeMonth(y, 3) + 31;
    assert DaysBeforeMonth(y, 5) == DaysBeforeMonth(y, 4) + 30;
    assert DaysBeforeMonth(y, 6) == DaysBeforeMonth(y, 5) + 31;
    assert DaysBeforeMonth(y, 7) == DaysBeforeMonth(y, 6) + 30;
    assert DaysBeforeMonth(y, 8) == DaysBeforeMonth(y, 7) + 31;
    assert DaysBeforeMonth(y, 9) == DaysBeforeMonth(y, 8) + 31;
    assert DaysBeforeMonth(y, 10) == DaysBeforeMonth(y, 9) + 30;
    assert DaysBeforeMonth(y, 11) == DaysBeforeMonth(y, 10) + 31;
    assert DaysBeforeMonth(y, 12) == DaysBeforeMonth(y, 11) + 30;
    assert DaysBeforeMonth(y, 13) == DaysBeforeMonth(y, 12) + 31;
    assert DaysBeforeMonth(y, 13) == 337 + feb;
  }

  /** The day after y-m-d has the next day number, across month ends, year ends and 29 February. */
  lemma NextDay(y: int, m: int, d: int)
    requires y >= 1 && 1 <= m <= 12 && 1 <= d <= DaysInMonth(y, m)
    ensures d < DaysInMonth(y, m) ==> Ordinal(y, m, d + 1) == Ordinal(y, m, d) + 1
    ensures d == DaysInMonth(y, m) && m < 12 ==> Ordinal(y, m + 1, 1) == Ordinal(y, m, d) + 1
    ensures d == DaysInMonth(y, m) && m == 12 ==> Ordinal(y + 1, 1, 1) == Ordinal(y, m, d) + 1
  {
    YearStep(y);
    MonthsFillYear(y);
  }

  /** Lexicographic order on (year, month, day). */
  predicate DateTupleLe(y1: int, m1: int, d1: int, y2: int, m2: int, d2: int) {
    y1 < y2 || (y1 == y2 && (m1 < m2 || (m1 == m2 && d1 <= d2)))
  }

  /** A later calendar date has a larger ordinal. */
  lemma OrdinalIncreasing(y1: int, m1: int, d1: int, y2: int, m2: int, d2: int)
    requires y1 >= 1 && 1 <= m1 <= 12 && 1 <= d1 <= DaysInMonth(y1, m1)
    requires y2 >= 1 && 1 <= m2 <= 12 && 1 <= d2 <= DaysInMonth(y2, m2)
    ensures DateTupleLe(y1, m1, d1, y2, m2, d2) <==> Ordinal(y1, m1, d1) <= Ordinal(y2, m2, d2)
  {
    if y1 < y2 {
      MonthsIncrease(y1, m1, 13);
      MonthsFillYear(y1);
      YearsIncrease(y1, y2);
    } else if y2 < y1 {
      MonthsIncrease(y2, m2, 13);
      MonthsFillYear(y2);
      YearsIncrease(y2, y1);
    } else if m1 < m2 {
      MonthsIncrease(y1, m1, m2);
    } else if m2 < m1 {
      MonthsIncrease(y1, m2, m1);
    }
  }

  /** Two dates in `YYYY-MM-DD` form compare as text field by field: year, then month, then day. */
  lemma DateTextFields(a: string, b: string)
    requires DateShape(a) && DateShape(b)
    ensures LexLe(a, b) <==>
      if a[0..4] != b[0..4] then LexLe(a[0..4], b[0..4])
      else if a[5..7] != b[5..7] then LexLe(a[5..7], b[5..7])
      else LexLe(a[8..10], b[8..10])
  {
    assert a == a[0..4] + [a[4]] + a[5..] && b == b[0..4] + [a[4]] + b[5..];
    LexBlockThenSeparator(a[0..4], a[4], a[5..], b[0..4], b[5..]);
    assert a[5..] == a[5..7] + [a[7]] + a[8..10] && b[5..] == b[5..7] + [a[7]] + b[8..10];
    LexBlockThenSeparator(a[5..7], a[7], a[8..10], b[5..7], b[8..10]);
  }

  /** Two dates in `YYYY-MM-DD` form compare as text the way their fields compare. */
  lemma DateTextOrder(a: string, b: string)
    requires DateShape(a) && DateShape(b)
    ensures LexLe(a, b) <==>
      DateTupleLe(YearOf(a), MonthOf(a), DayOf(a), YearOf(b), MonthOf(b), DayOf(b))
  {
    DateTextFields(a, b);
    LexIsNumeric(a[0..4], b[0..4]);
    LexIsNumeric(a[5..7], b[5..7]);
    LexIsNumeric(a[8..10], b[8..10]);
  }

  /**
   * For real calendar dates, text order is chronological order: the date
   * written first as text is the one with the smaller day number.
   */
  lemma DateTextIsChronological(a: string, b: string)
    requires ValidDate(a) && ValidDate(b)
    ensures LexLe(a, b) <==> DayNumber(a) <= DayNumber(b)
  {
    DateTextOrder(a, b);
    OrdinalIncreasing(YearOf(a), MonthOf(a), DayOf(a), YearOf(b), MonthOf(b), DayOf(b));
  }

  /**
   * An instant on date `a` that precedes an instant on date `b` forces `a`
   * to sort at or before `b` as text (whole days never overlap).
   */
  lemma EarlierInstantEarlierDate(a: string, ta: string, b: string, tb: string)
    requires Instant(a, ta).Some? && Instant(b, tb).Some?
    requires Instant(a, ta).value < Instant(b, tb).value
    ensures LexLe(a, b)
  {
    DateTextIsChronological(a, b);
  }
}
