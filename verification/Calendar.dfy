/** The proleptic Gregorian calendar, as a numbering of days.

    Day 0 is 1970-01-01, a Thursday. Years are astronomical: year 0 exists and is a
    leap year. `DateOf` and `DayNumber` are inverse to each other, and everything a
    cron expression can observe of a day repeats every 146097 days.
 */
module Calendar {

  const SECONDS_PER_DAY := 86400

  /** Days in 400 years: 400 * 365 + 97, which is also 20871 whole weeks. */
  const CYCLE_DAYS := 146097

  /** Days from 0000-01-01 to 1970-01-01. */
  const EPOCH_OFFSET := 719528

  datatype Date = Date(year: int, month: int, day: int) {
    predicate Valid() {
      1 <= month <= 12 && 1 <= day <= DaysInMonth(year, month)
    }
  }

  predicate IsLeap(y: int) {
    y % 4 == 0 && (y % 100 != 0 || y % 400 == 0)
  }

  function DaysInYear(y: int): int {
    if IsLeap(y) then 366 else 365
  }

  function DaysInMonth(y: int, m: int): int
    requires 1 <= m <= 12
  {
    if m == 2 then (if IsLeap(y) then 29 else 28)
    else if m == 4 || m == 6 || m == 9 || m == 11 then 30
    else 31
  }

  /** Days of year `y` that precede month `m`; month 13 stands for the end of the year. */
  function DaysBeforeMonth(y: int, m: int): (r: int)
    requires 1 <= m <= 13
    ensures 0 <= r
  {
    if m == 1 then 0 else DaysBeforeMonth(y, m - 1) + DaysInMonth(y, m - 1)
  }

  /** The day number of January 1st of year `y`: the lengths of the years since 1970, added up. */
  function YearStart(y: int): int
    decreases if y < 1970 then 1970 - y else y - 1970
  {
    if y == 1970 then 0
    else if y > 1970 then YearStart(y - 1) + DaysInYear(y - 1)
    else YearStart(y + 1) - DaysInYear(y)
  }

  function DayNumber(d: Date): int
    requires d.Valid()
  {
    YearStart(d.year) + DaysBeforeMonth(d.year, d.month) + d.day - 1
  }

  /** Days from Sunday, as cron counts them. */
  function Weekday(n: int): (w: int)
    ensures 0 <= w < 7
  {
    (n + 4) % 7
  }

  lemma MonthLengths(y: int, m: int)
    requires 1 <= m <= 12
    ensures DaysBeforeMonth(y, m + 1) == DaysBeforeMonth(y, m) + DaysInMonth(y, m)
  {
  }

  /** The twelve months make up the year. */
  lemma MonthsMakeYear(y: int)
    ensures DaysBeforeMonth(y, 13) == DaysInYear(y)
  {
    assert DaysBeforeMonth(y, 2) == 31;
    assert DaysBeforeMonth(y, 4) == DaysBeforeMonth(y, 3) + 31;
    assert DaysBeforeMonth(y, 6) == DaysBeforeMonth(y, 4) + 61;
    assert DaysBeforeMonth(y, 8) == DaysBeforeMonth(y, 6) + 61;
    assert DaysBeforeMonth(y, 10) == DaysBeforeMonth(y, 8) + 61;
    assert DaysBeforeMonth(y, 12) == DaysBeforeMonth(y, 10) + 61;
  }

  /** Whichever side of 1970 it lies on, each year is exactly its own length. */
  lemma YearLength(y: int)
    ensures YearStart(y + 1) == YearStart(y) + DaysInYear(y)
  {
  }

  /** 0000-01-01 to January 1st of year `y`, by the leap-year rule. */
  function YearStartClosed(y: int): int {
    365 * y + (y + 3) / 4 - (y + 99) / 100 + (y + 399) / 400
  }

  lemma QuarterStep(y: int)
    ensures (y + 4) / 4 == (y + 3) / 4 + if y % 4 == 0 then 1 else 0
  {
  }

  lemma CenturyStep(y: int)
    ensures (y + 100) / 100 == (y + 99) / 100 + if y % 100 == 0 then 1 else 0
  {
  }

  lemma EraStep(y: int)
    ensures (y + 400) / 400 == (y + 399) / 400 + if y % 400 == 0 then 1 else 0
  {
  }

  lemma LeapRuleNests(y: int)
    ensures y % 400 == 0 ==> y % 100 == 0
    ensures y % 100 == 0 ==> y % 4 == 0
  {
  }

  lemma ClosedLength(y: int)
    ensures YearStartClosed(y + 1) == YearStartClosed(y) + DaysInYear(y)
  {
    QuarterStep(y);
    CenturyStep(y);
    EraStep(y);
    LeapRuleNests(y);
  }

  /** The sum of the year lengths has the usual closed form. */
  lemma {:induction false} YearStartIsClosed(y: int)
    ensures YearStart(y) == YearStartClosed(y) - EPOCH_OFFSET
    decreases if y < 1970 then 1970 - y else y - 1970
  {
    if y > 1970 {
      YearStartIsClosed(y - 1);
      ClosedLength(y - 1);
    } else if y < 1970 {
      YearStartIsClosed(y + 1);
      ClosedLength(y);
    }
  }

  lemma QuotientShift(x: int)
    ensures (x + 400) / 4 == x / 4 + 100
    ensures (x + 400) / 100 == x / 100 + 4
    ensures (x + 400) / 400 == x / 400 + 1
  {
  }

  lemma ClosedShift(y: int)
    ensures YearStartClosed(y + 400) == YearStartClosed(y) + CYCLE_DAYS
  {
    assert (y + 400 + 3) / 4 == (y + 3) / 4 + 100 by {
      QuotientShift(y + 3);
    }
    assert (y + 400 + 99) / 100 == (y + 99) / 100 + 4 by {
      QuotientShift(y + 99);
    }
    assert (y + 400 + 399) / 400 == (y + 399) / 400 + 1 by {
      QuotientShift(y + 399);
    }
  }

  lemma LeapShift(y: int)
    ensures IsLeap(y + 400) == IsLeap(y)
  {
    assert (y + 400) % 4 == y % 4 && (y + 400) % 100 == y % 100 && (y + 400) % 400 == y % 400;
  }

  lemma YearShift(y: int)
    ensures YearStart(y + 400) == YearStart(y) + CYCLE_DAYS
    ensures IsLeap(y + 400) == IsLeap(y)
  {
    var later := y + 400;
    LeapShift(y);
    ClosedShift(y);
    YearStartIsClosed(y);
    YearStartIsClosed(later);
  }

  lemma {:induction false} YearStartMonotone(a: int, b: int)
    requires a <= b
    ensures YearStart(a) + 365 * (b - a) <= YearStart(b)
    decreases b - a
  {
    if a < b {
      YearLength(b - 1);
      YearStartMonotone(a, b - 1);
    }
  }

  /** The year whose span holds day `n`, searched from year `y`. */
  function YearFrom(n: int, y: int): (r: int)
    ensures YearStart(r) <= n < YearStart(r + 1)
    decreases n < YearStart(y), if n < YearStart(y) then YearStart(y) - n else n - YearStart(y)
  {
    YearLength(y);
    YearLength(y - 1);
    if n < YearStart(y) then YearFrom(n, y - 1)
    else if n < YearStart(y + 1) then y
    else YearFrom(n, y + 1)
  }

  lemma YearUnique(n: int, a: int, b: int)
    requires YearStart(a) <= n < YearStart(a + 1)
    requires YearStart(b) <= n < YearStart(b + 1)
    ensures a == b
  {
    if a < b {
      YearStartMonotone(a + 1, b);
    } else if b < a {
      YearStartMonotone(b + 1, a);
    }
  }

  /** The month from `m` on that holds the `k`-th day (from 0) of year `y`. */
  function MonthFrom(y: int, k: int, m: int): (r: int)
    requires 1 <= m <= 12 && DaysBeforeMonth(y, m) <= k < DaysInYear(y)
    ensures m <= r <= 12 && DaysBeforeMonth(y, r) <= k < DaysBeforeMonth(y, r + 1)
    decreases 12 - m
  {
    MonthsMakeYear(y);
    if k < DaysBeforeMonth(y, m + 1) then m else MonthFrom(y, k, m + 1)
  }

  /** The date of day `n`, searched year by year and month by month. */
  function CivilDate(n: int): (d: Date)
    ensures d.Valid() && DayNumber(d) == n
  {
    var y := YearFrom(n, 1970);
    YearLength(y);
    var k := n - YearStart(y);
    var m := MonthFrom(y, k, 1);
    MonthLengths(y, m);
    Date(y, m, k - DaysBeforeMonth(y, m) + 1)
  }

  /** The date whose number is `n`. */
  ghost function DateOf(n: int): (d: Date)
    ensures d.Valid() && DayNumber(d) == n
  {
    var _ := CivilDate(n);
    var d: Date :| d.Valid() && DayNumber(d) == n;
    d
  }

  lemma {:induction false} MonthsMonotone(y: int, a: int, b: int)
    requires 1 <= a <= b <= 13
    ensures DaysBeforeMonth(y, a) <= DaysBeforeMonth(y, b)
    decreases b - a
  {
    if a < b {
      MonthsMonotone(y, a, b - 1);
    }
  }

  lemma MonthUnique(y: int, k: int, a: int, b: int)
    requires 1 <= a <= 12 && DaysBeforeMonth(y, a) <= k < DaysBeforeMonth(y, a + 1)
    requires 1 <= b <= 12 && DaysBeforeMonth(y, b) <= k < DaysBeforeMonth(y, b + 1)
    ensures a == b
  {
    if a < b {
      MonthsMonotone(y, a + 1, b);
    } else if b < a {
      MonthsMonotone(y, b + 1, a);
    }
  }

  lemma DayWithinYear(d: Date)
    requires d.Valid()
    ensures YearStart(d.year) <= DayNumber(d) < YearStart(d.year + 1)
  {
    MonthLengths(d.year, d.month);
    MonthsMonotone(d.year, d.month + 1, 13);
    MonthsMakeYear(d.year);
    YearLength(d.year);
  }

  /** A day has one date only. */
  lemma DateUnique(d: Date, e: Date)
    requires d.Valid() && e.Valid() && DayNumber(d) == DayNumber(e)
    ensures d == e
  {
    DayWithinYear(d);
    DayWithinYear(e);
    YearUnique(DayNumber(d), d.year, e.year);
    MonthLengths(d.year, d.month);
    MonthLengths(e.year, e.month);
    MonthUnique(d.year, DayNumber(d) - YearStart(d.year), d.month, e.month);
  }

  /** Numbering a date and reading it back gives the date. (Reading the date of a day and
      numbering it gives the day: that is `DateOf`'s own contract.) */
  lemma DateOfDayNumber(d: Date)
    requires d.Valid()
    ensures DateOf(DayNumber(d)) == d
  {
    DateUnique(DateOf(DayNumber(d)), d);
  }

  lemma CivilDateIsDate(n: int)
    ensures CivilDate(n) == DateOf(n)
  {
    DateUnique(CivilDate(n), DateOf(n));
  }

  /** Years of the same kind have the same months. */
  lemma {:induction false} SameMonths(y: int, z: int, m: int)
    requires 1 <= m <= 13 && IsLeap(y) == IsLeap(z)
    ensures DaysBeforeMonth(y, m) == DaysBeforeMonth(z, m)
  {
    if m > 1 {
      SameMonths(y, z, m - 1);
    }
  }

  /** The same calendar day 400 years on is 146097 days later, on the same weekday. */
  lemma CycleShift(d: Date)
    requires d.Valid()
    ensures var e := Date(d.year + 400, d.month, d.day);
            e.Valid() && DayNumber(e) == DayNumber(d) + CYCLE_DAYS
  {
    YearShift(d.year);
    SameMonths(d.year + 400, d.year, d.month);
  }

  /** Whether two days look the same to a cron expression. */
  ghost predicate SameLook(a: int, b: int) {
    && DateOf(a).month == DateOf(b).month
    && DateOf(a).day == DateOf(b).day
    && Weekday(a) == Weekday(b)
  }

  /** Shifting a day by 400 years keeps its month, its day of the month and its weekday. */
  lemma CyclePeriod(n: int)
    ensures SameLook(n + CYCLE_DAYS, n)
  {
    var d := DateOf(n);
    CycleShift(d);
    DateOfDayNumber(Date(d.year + 400, d.month, d.day));
    assert CYCLE_DAYS == 7 * 20871;
  }

  /** `k` cycles later, in either direction. */
  lemma {:induction false} CyclesPeriod(n: int, k: int)
    ensures SameLook(n + k * CYCLE_DAYS, n)
    decreases if k < 0 then -k else k
  {
    if k > 0 {
      CyclesPeriod(n, k - 1);
      CyclePeriod(n + (k - 1) * CYCLE_DAYS);
      assert n + (k - 1) * CYCLE_DAYS + CYCLE_DAYS == n + k * CYCLE_DAYS;
    } else if k < 0 {
      CyclesPeriod(n, k + 1);
      CyclePeriod(n + k * CYCLE_DAYS);
      assert n + k * CYCLE_DAYS + CYCLE_DAYS == n + (k + 1) * CYCLE_DAYS;
    } else {
      assert n + k * CYCLE_DAYS == n;
    }
  }

  /** A day congruent to `n` modulo the cycle in the 400 years that start after day `from`. */
  function NextCongruent(n: int, from: int): (r: int)
    ensures from < r <= from + CYCLE_DAYS
  {
    from + 1 + (n - from - 1) % CYCLE_DAYS
  }

  /** Any day comes round again, as far as a cron expression can tell, within one cycle
      after any other day. */
  lemma RecursWithinCycle(n: int, from: int)
    ensures SameLook(NextCongruent(n, from), n)
  {
    var q := (n - from - 1) / CYCLE_DAYS;
    assert NextCongruent(n, from) == n + (-q) * CYCLE_DAYS;
    CyclesPeriod(n, -q);
  }

  lemma WeekdayAdvance(n: int, k: int)
    ensures Weekday(n + k) == (Weekday(n) + k) % 7
  {
  }

  lemma FourYears(y: int)
    requires IsLeap(y) && !IsLeap(y + 1) && !IsLeap(y + 2) && !IsLeap(y + 3)
    ensures YearStart(y + 4) == YearStart(y) + 1461
  {
    YearLength(y);
    YearLength(y + 1);
    YearLength(y + 2);
    YearLength(y + 3);
  }

  lemma FourLeaps(y: int)
    requires y % 4 == 0 && 2000 < y < 2096
    ensures IsLeap(y) && !IsLeap(y + 1) && !IsLeap(y + 2) && !IsLeap(y + 3)
  {
  }

  lemma ThisCentury(y: int)
    requires y == 2004
    ensures Weekday(YearStart(y)) == 4
  {
    YearStartIsClosed(y);
  }

  /** From 2004, a Thursday, January 1st of the leap years moves back two weekdays each time. */
  lemma {:induction false} LeapRun(y: int, k: nat)
    requires y == 2004 && k <= 6
    ensures Weekday(YearStart(y + 4 * k)) == (4 + 5 * k) % 7
  {
    if k == 0 {
      ThisCentury(y);
    } else {
      LeapRun(y, k - 1);
      FourLeaps(y + 4 * (k - 1));
      FourYears(y + 4 * (k - 1));
      WeekdayAdvance(YearStart(y + 4 * (k - 1)), 1461);
    }
  }

  function LeapIndex(w: int): (k: nat)
    requires 0 <= w < 7
    ensures k <= 6 && (4 + 5 * k) % 7 == w
  {
    if w == 0 then 2 else if w == 1 then 5 else if w == 2 then 1 else if w == 3 then 4
    else if w == 4 then 0 else if w == 5 then 3 else 6
  }

  /** A leap year whose January 1st falls on weekday `w`, with a common year after it. */
  lemma LeapYearStarting(w: int) returns (y: int)
    requires 0 <= w < 7
    ensures IsLeap(y) && !IsLeap(y + 1) && Weekday(YearStart(y)) == w
  {
    var k := LeapIndex(w);
    LeapRun(2004, k);
    y := 2004 + 4 * k;
    FourLeaps(y);
  }

  /** A year, common or leap as asked, whose January 1st falls on weekday `w`. */
  lemma YearStarting(w: int, leap: bool) returns (y: int)
    requires 0 <= w < 7
    ensures IsLeap(y) == leap && Weekday(YearStart(y)) == w
  {
    if leap {
      y := LeapYearStarting(w);
    } else {
      y := LeapYearStarting((w + 5) % 7);
      YearLength(y);
      WeekdayAdvance(YearStart(y), 366);
      y := y + 1;
    }
  }

  /** The most days month `m` ever has. */
  function LongestMonth(m: int): (r: int)
    requires 1 <= m <= 12
    ensures forall y :: DaysInMonth(y, m) <= r
  {
    if m == 2 then 29 else if m == 4 || m == 6 || m == 9 || m == 11 then 30 else 31
  }

  lemma WeekdayDifference(w: int, k: int)
    requires 0 <= w < 7
    ensures ((w - k) % 7 + k) % 7 == w
  {
  }

  lemma DayOfYear(d: Date, k: int)
    requires d.Valid() && k == DaysBeforeMonth(d.year, d.month) + d.day - 1
    ensures DateOf(YearStart(d.year) + k) == d
    ensures Weekday(YearStart(d.year) + k) == (Weekday(YearStart(d.year)) + k) % 7
  {
    DateOfDayNumber(d);
    WeekdayAdvance(YearStart(d.year), k);
  }

  /** Every calendar day, February 29th included, falls on every day of the week in some year. */
  lemma EveryDateMeetsEveryWeekday(m: int, d: int, w: int) returns (n: int)
    requires 1 <= m <= 12 && 1 <= d <= LongestMonth(m) && 0 <= w < 7
    ensures DateOf(n).month == m && DateOf(n).day == d && Weekday(n) == w
  {
    var leap := m == 2 && d == 29;
    var y0 := YearStarting(0, leap);
    var k := DaysBeforeMonth(y0, m) + d - 1;
    WeekdayDifference(w, k);
    var y := YearStarting((w - k) % 7, leap);
    SameMonths(y, y0, m);
    DayOfYear(Date(y, m, d), k);
    n := YearStart(y) + k;
  }
}
