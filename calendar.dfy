/**
 * Proleptic Gregorian calendar on day numbers.
 *
 * A date is a day number `n: nat` counted from 0001-01-01 (day 0), i.e. Python's
 * `date.toordinal() - 1`. Weekdays follow pandas' `dayofweek`: Monday is 0.
 */
module Calendar {

  datatype Date = Date(year: int, month: int, day: int)

  predicate IsLeap(y: int) {
    y % 4 == 0 && (y % 100 != 0 || y % 400 == 0)
  }

  function DaysInYear(y: int): (r: nat)
    ensures r == 365 || r == 366
  {
    if IsLeap(y) then 366 else 365
  }

  function DaysInMonth(y: int, m: int): (r: nat)
    requires 1 <= m <= 12
    ensures 28 <= r <= 31
  {
    if m == 2 then (if IsLeap(y) then 29 else 28)
    else if m == 4 || m == 6 || m == 9 || m == 11 then 30
    else 31
  }

  predicate ValidDate(d: Date) {
    d.year >= 1 && 1 <= d.month <= 12 && 1 <= d.day <= DaysInMonth(d.year, d.month)
  }

  /** Days of year `y` that precede the first of month `m` (m = 13 means the whole year). */
  function DaysBeforeMonth(y: int, m: int): (r: nat)
    requires 1 <= m <= 13
  {
    var common := [0, 31, 59, 90, 120, 151, 181, 212, 243, 273, 304, 334, 365][m - 1];
    common + (if m > 2 && IsLeap(y) then 1 else 0)
  }

  lemma MonthTable(y: int, m: int)
    requires 1 <= m <= 12
    ensures DaysBeforeMonth(y, m + 1) == DaysBeforeMonth(y, m) + DaysInMonth(y, m)
    ensures DaysBeforeMonth(y, 13) == DaysInYear(y)
    ensures DaysBeforeMonth(y, 1) == 0
  {
  }

  /** Days from 0001-01-01 to the first day of year `y`. */
  function DaysBeforeYear(y: int): nat
    requires y >= 1
  {
    if y == 1 then 0 else DaysBeforeYear(y - 1) + DaysInYear(y - 1)
  }

  /** The day number of a valid civil date (`date.toordinal() - 1`). */
  function DayNumber(d: Date): nat
    requires ValidDate(d)
  {
    DaysBeforeYear(d.year) + DaysBeforeMonth(d.year, d.month) + d.day - 1
  }

  /** The year holding day `n` of the day count that starts on 1 January of `y`, and the day's offset in it. */
  function SplitYear(n: nat, y: int): (r: (int, nat))
    requires y >= 1
    ensures r.0 >= y && r.1 < DaysInYear(r.0)
    ensures DaysBeforeYear(r.0) + r.1 == DaysBeforeYear(y) + n
    decreases n
  {
    if n < DaysInYear(y) then (y, n) else SplitYear(n - DaysInYear(y), y + 1)
  }

  /** The month holding day-of-year offset `k`: the last month `m' <= m` that starts at or before `k`. */
  function MonthOfOffset(y: int, k: nat, m: int): (r: int)
    requires 1 <= m <= 12
    ensures 1 <= r <= m && DaysBeforeMonth(y, r) <= k
    ensures r < m ==> k < DaysBeforeMonth(y, r + 1)
  {
    if m == 1 || DaysBeforeMonth(y, m) <= k then m else MonthOfOffset(y, k, m - 1)
  }

  /** The civil date of day number `n` (pandas' `.dt.year`, `.dt.month`, `.dt.day`). */
  function CivilFromDays(n: nat): Date {
    var (y, k) := SplitYear(n, 1);
    var m := MonthOfOffset(y, k, 12);
    Date(y, m, k - DaysBeforeMonth(y, m) + 1)
  }

  /** The day-of-year (1-based, pandas' `.dt.dayofyear` and `tm_yday`) of day number `n`. */
  function DayOfYear(n: nat): (r: nat)
    ensures 1 <= r <= 366
  {
    var (y, k) := SplitYear(n, 1);
    k + 1
  }

  /** Weekday of day number `n`, 0 = Monday ... 6 = Sunday (0001-01-01 was a Monday). */
  function DayOfWeek(n: nat): (r: nat)
    ensures r < 7
  {
    n % 7
  }

  const WeekdayNames: seq<string> := ["Monday", "Tuesday", "Wednesday", "Thursday", "Friday", "Saturday", "Sunday"]

  /** English weekday name, as `strftime('%A')` and pandas' `day_name()` give it. */
  function DayName(n: nat): string {
    WeekdayNames[DayOfWeek(n)]
  }

  /** Leap days in the years 1..x: Gregorian leap-year counting. */
  function LeapDaysThrough(x: int): int {
    x / 4 - x / 100 + x / 400
  }

  /**
   * Sakamoto's weekday formula, an independent reference (0 = Sunday): January and February are
   * counted as months of the previous year, and the month offsets absorb the month lengths modulo 7.
   */
  function SakamotoWeekday(d: Date): (r: int)
    requires 1 <= d.month <= 12
    ensures 0 <= r < 7
  {
    SakamotoSum(d) % 7
  }

  /** The sum Sakamoto's formula takes modulo 7, counting January and February with the previous year. */
  function SakamotoSum(d: Date): int
    requires 1 <= d.month <= 12
  {
    var y := if d.month < 3 then d.year - 1 else d.year;
    y + LeapDaysThrough(y) + [0, 3, 2, 5, 0, 3, 5, 1, 4, 6, 2, 4][d.month - 1] + d.day
  }

  lemma DaysBeforeYearMonotone(y0: int, y: int)
    requires 1 <= y0 <= y
    ensures DaysBeforeYear(y0) <= DaysBeforeYear(y)
    ensures y0 < y ==> DaysBeforeYear(y0) + DaysInYear(y0) <= DaysBeforeYear(y)
    decreases y - y0
  {
    if y0 < y {
      DaysBeforeYearMonotone(y0, y - 1);
    }
  }

  /** Every day number names a valid date, and numbering that date gives the day number back. */
  lemma {:induction false} CivilFromDaysValid(n: nat)
    ensures ValidDate(CivilFromDays(n))
    ensures DayNumber(CivilFromDays(n)) == n
  {
    var (y, k) := SplitYear(n, 1);
    var m := MonthOfOffset(y, k, 12);
    MonthTable(y, m);
    assert k < DaysBeforeMonth(y, m + 1);
  }

  lemma {:induction false} SplitYearOfYearStart(y0: int, y: int, k: nat)
    requires 1 <= y0 <= y && k < DaysInYear(y)
    requires DaysBeforeYear(y0) <= DaysBeforeYear(y)
    ensures SplitYear(DaysBeforeYear(y) - DaysBeforeYear(y0) + k, y0) == (y, k)
    decreases y - y0
  {
    if y0 < y {
      DaysBeforeYearMonotone(y0, y);
      var n := DaysBeforeYear(y) - DaysBeforeYear(y0) + k;
      assert DaysBeforeYear(y0 + 1) == DaysBeforeYear(y0) + DaysInYear(y0);
      assert SplitYear(n, y0) == SplitYear(n - DaysInYear(y0), y0 + 1);
      SplitYearOfYearStart(y0 + 1, y, k);
    }
  }

  lemma {:induction false} MonthOfOffsetIn(y: int, mm: int, k: nat, m: int)
    requires 1 <= mm <= m <= 12
    requires DaysBeforeMonth(y, mm) <= k < DaysBeforeMonth(y, mm + 1)
    ensures MonthOfOffset(y, k, m) == mm
    decreases m
  {
    if m > mm {
      assert DaysBeforeMonth(y, m) >= DaysBeforeMonth(y, mm + 1) by {
        MonotoneMonths(y, mm + 1, m);
      }
      MonthOfOffsetIn(y, mm, k, m - 1);
    }
  }

  lemma MonotoneMonths(y: int, a: int, b: int)
    requires 1 <= a <= b <= 13
    ensures DaysBeforeMonth(y, a) <= DaysBeforeMonth(y, b)
  {
  }

  /** Converting a valid date to its day number and back gives the same date. */
  lemma {:induction false} DayNumberRoundTrip(d: Date)
    requires ValidDate(d)
    ensures CivilFromDays(DayNumber(d)) == d
  {
    var k := DaysBeforeMonth(d.year, d.month) + d.day - 1;
    SplitOfDate(d);
    MonthTable(d.year, d.month);
    MonthOfOffsetIn(d.year, d.month, k, 12);
  }

  /** A valid date's day number falls in its own year, at the offset of its month and day. */
  lemma SplitOfDate(d: Date)
    requires ValidDate(d)
    ensures SplitYear(DayNumber(d), 1) == (d.year, DaysBeforeMonth(d.year, d.month) + d.day - 1)
  {
    var k := DaysBeforeMonth(d.year, d.month) + d.day - 1;
    MonthTable(d.year, d.month);
    MonotoneMonths(d.year, d.month + 1, 13);
    DaysBeforeYearMonotone(1, d.year);
    SplitYearOfYearStart(1, d.year, k);
  }

  /** Counting the multiples of `k` up to `x` adds one exactly when `x` is itself a multiple. */
  lemma DivStep4(x: int)
    ensures x / 4 == (x - 1) / 4 + (if x % 4 == 0 then 1 else 0)
  {
  }

  lemma DivStep100(x: int)
    ensures x / 100 == (x - 1) / 100 + (if x % 100 == 0 then 1 else 0)
  {
  }

  lemma DivStep400(x: int)
    ensures x / 400 == (x - 1) / 400 + (if x % 400 == 0 then 1 else 0)
  {
  }

  /** Every multiple of 100 is a multiple of 4. */
  lemma CenturyIsLeapCandidate(x: int)
    requires x % 100 == 0
    ensures x % 4 == 0
  {
    var q := x / 100;
    assert x == 4 * (25 * q);
  }

  /** Every multiple of 400 is a multiple of 100. */
  lemma QuadCenturyIsCentury(x: int)
    requires x % 400 == 0
    ensures x % 100 == 0
  {
    var q := x / 400;
    assert x == 100 * (4 * q);
  }

  lemma LeapStep(x: int)
    requires x >= 1
    ensures LeapDaysThrough(x) == LeapDaysThrough(x - 1) + (if IsLeap(x) then 1 else 0)
  {
    DivStep4(x);
    DivStep100(x);
    DivStep400(x);
    if x % 100 == 0 {
      CenturyIsLeapCandidate(x);
    }
    if x % 400 == 0 {
      QuadCenturyIsCentury(x);
    }
  }

  /** The closed form of the days before a year: 365 days a year plus one per leap year. */
  lemma {:induction false} DaysBeforeYearClosed(y: int)
    requires y >= 1
    ensures DaysBeforeYear(y) == 365 * (y - 1) + LeapDaysThrough(y - 1)
  {
    if y > 1 {
      DaysBeforeYearClosed(y - 1);
      LeapStep(y - 1);
    }
  }

  /** The day of year of a valid date is the days of the months before it plus its day. */
  lemma {:induction false} DayOfYearOfDate(d: Date)
    requires ValidDate(d)
    ensures DayOfYear(DayNumber(d)) == DaysBeforeMonth(d.year, d.month) + d.day
  {
    SplitOfDate(d);
  }

  /** Sakamoto's month offsets are the days before each month, less the leap day, modulo 7 (one less from March on). */
  lemma MonthOffsets(y: int, m: int)
    requires 1 <= m <= 12
    ensures (DaysBeforeMonth(y, m) - (if m > 2 && IsLeap(y) then 1 else 0) - (if m > 2 then 1 else 0)
             - [0, 3, 2, 5, 0, 3, 5, 1, 4, 6, 2, 4][m - 1]) % 7 == 0
  {
  }

  lemma ShiftedMod(k: int, s: int)
    ensures (7 * k + s - 1) % 7 == (s % 7 + 6) % 7
  {
  }

  /** The day number of a valid date is one less than Sakamoto's sum, up to a multiple of 7. */
  lemma {:induction false} DayNumberBySakamoto(d: Date) returns (k: int)
    requires ValidDate(d)
    ensures DayNumber(d) == 7 * k + SakamotoSum(d) - 1
  {
    var t := [0, 3, 2, 5, 0, 3, 5, 1, 4, 6, 2, 4][d.month - 1];
    DaysBeforeYearClosed(d.year);
    MonthOffsets(d.year, d.month);
    var e := DaysBeforeMonth(d.year, d.month) - (if d.month > 2 && IsLeap(d.year) then 1 else 0)
      - (if d.month > 2 then 1 else 0) - t;
    var j := e / 7;
    assert e == 7 * j;
    if d.month > 2 {
      LeapStep(d.year);
    }
    k := 52 * (d.year - 1) + j;
  }

  /** The weekday of a valid date agrees with Sakamoto's formula, shifted so that Monday is 0. */
  lemma DayOfWeekAgreesWithSakamoto(d: Date)
    requires ValidDate(d)
    ensures DayOfWeek(DayNumber(d)) == (SakamotoWeekday(d) + 6) % 7
  {
    var k := DayNumberBySakamoto(d);
    ShiftedMod(k, SakamotoSum(d));
  }

  /** 0001-01-01, the first day of the count, was a Monday. */
  lemma FirstDayMonday()
    ensures DayName(DayNumber(Date(1, 1, 1))) == "Monday"
  {
  }

  /** 2024-01-01 was a Monday and 2025-01-26 a Sunday. */
  lemma KnownWeekdays()
    ensures DayName(DayNumber(Date(2024, 1, 1))) == "Monday"
    ensures DayName(DayNumber(Date(2025, 1, 26))) == "Sunday"
  {
    DaysBeforeYearClosed(2024);
    DaysBeforeYearClosed(2025);
  }

  /** Weekday names repeat every seven days, and the days of a week all have different names. */
  lemma WeekdayNamesCycle(n: nat)
    ensures DayName(n + 7) == DayName(n)
    ensures forall m :: n < m < n + 7 ==> DayName(m) != DayName(n)
  {
    forall m | n < m < n + 7
      ensures DayName(m) != DayName(n)
    {
      assert DayOfWeek(m) != DayOfWeek(n);
      NamesDistinct(DayOfWeek(m), DayOfWeek(n));
    }
  }

  lemma NamesDistinct(i: nat, j: nat)
    requires i < 7 && j < 7 && i != j
    ensures WeekdayNames[i] != WeekdayNames[j]
  {
    assert WeekdayNames[i][0] != WeekdayNames[j][0] || WeekdayNames[i][1] != WeekdayNames[j][1];
  }

  /**
   * Month boundaries: day `d` of a month is `d - 1` days after its first, the first of the next
   * month follows its last day, and after December comes 1 January of the next year.
   */
  lemma NextMonthStart(y: int, m: int)
    requires y >= 1 && 1 <= m <= 12
    ensures forall d :: 1 <= d <= DaysInMonth(y, m) ==>
      DayNumber(Date(y, m, d)) == DayNumber(Date(y, m, 1)) + d - 1
    ensures m < 12 ==> DayNumber(Date(y, m + 1, 1)) == DayNumber(Date(y, m, 1)) + DaysInMonth(y, m)
    ensures m == 12 ==> DayNumber(Date(y + 1, 1, 1)) == DayNumber(Date(y, 12, 1)) + 31
  {
    MonthTable(y, m);
  }
}
