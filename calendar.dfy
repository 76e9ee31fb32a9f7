/**
 * Proleptic Gregorian calendar arithmetic on (year, month, day) triples, the
 * way Python's `datetime` does it: a date's ordinal counts days from
 * 0001-01-01 (ordinal 1, a Monday), adding a `timedelta` moves along the
 * ordinal, and `weekday()` is the ordinal taken modulo 7 with Monday = 0.
 */
module Calendar {
  import opened Wrappers

  datatype Date = Date(year: int, month: int, day: int)

  /** `datetime.MINYEAR` and `datetime.MAXYEAR`: constructing a date outside fails. */
  const MinYear := 1
  const MaxYear := 9999

  predicate IsLeapYear(y: int) {
    y % 4 == 0 && (y % 100 != 0 || y % 400 == 0)
  }

  function DaysInMonth(y: int, m: int): (n: int)
    requires 1 <= m <= 12
    ensures 28 <= n <= 31
    ensures m == 2 ==> (n == 29 <==> IsLeapYear(y))
    ensures m != 2 ==> (n == 30 <==> m in {4, 6, 9, 11})
    ensures m == 2 && !IsLeapYear(y) ==> n == 28
    ensures m in {1, 3, 5, 7, 8, 10, 12} ==> n == 31
  {
    if m == 2 then (if IsLeapYear(y) then 29 else 28)
    else if m == 4 || m == 6 || m == 9 || m == 11 then 30
    else 31
  }

  function DaysInYear(y: int): int {
    if IsLeapYear(y) then 366 else 365
  }

  /** A well-formed calendar date; `datetime` refuses any other triple. */
  predicate IsDate(d: Date) {
    1 <= d.month <= 12 && 1 <= d.day <= DaysInMonth(d.year, d.month)
  }

  /** A date `datetime` can represent. */
  predicate InRange(d: Date) {
    IsDate(d) && MinYear <= d.year <= MaxYear
  }

  /** Days in the years before `y` (year 1 starts at 0). */
  function DaysBeforeYear(y: int): int {
    var p := y - 1;
    p * 365 + p / 4 - p / 100 + p / 400
  }

  /** Days in the months of year `y` before month `m`. */
  function DaysBeforeMonth(y: int, m: int): int
    requires 1 <= m <= 12
  {
    var common :=
      if m == 1 then 0 else if m == 2 then 31 else if m == 3 then 59
      else if m == 4 then 90 else if m == 5 then 120 else if m == 6 then 151
      else if m == 7 then 181 else if m == 8 then 212 else if m == 9 then 243
      else if m == 10 then 273 else if m == 11 then 304 else 334;
    common + (if m > 2 && IsLeapYear(y) then 1 else 0)
  }

  /** `date.toordinal()`: 0001-01-01 is day 1, so a date `datetime` accepts has a positive ordinal. */
  function Ordinal(d: Date): (r: int)
    requires 1 <= d.month <= 12
    ensures InRange(d) ==> r >= 1
  {
    DaysBeforeYear(d.year) + DaysBeforeMonth(d.year, d.month) + d.day
  }

  /** `date.weekday()`: Monday is 0 and Sunday is 6. */
  function DayOfWeek(d: Date): (w: int)
    requires 1 <= d.month <= 12
    ensures 0 <= w < 7
  {
    (Ordinal(d) + 6) % 7
  }

  /**
   * The date one day later (`d + timedelta(days=1)`): the ordinal grows by one.
   * This is a calendar step: past 9999-12-31 it gives year 10000, where
   * `datetime` raises `OverflowError`. The routine never steps past its month.
   */
  function NextDay(d: Date): (r: Date)
    requires IsDate(d)
    ensures IsDate(r)
    ensures Ordinal(r) == Ordinal(d) + 1
  {
    if d.day < DaysInMonth(d.year, d.month) then Date(d.year, d.month, d.day + 1)
    else if d.month < 12 then
      DaysBeforeNextMonth(d.year, d.month);
      Date(d.year, d.month + 1, 1)
    else
      DaysBeforeNextYear(d.year);
      Date(d.year + 1, 1, 1)
  }

  /**
   * The date one day earlier (`d - timedelta(days=1)`): the day whose next day is `d`.
   * This is a calendar step: before 0001-01-01 it gives year 0, where
   * `datetime` raises `OverflowError`. The routine only steps back from the
   * first of a following month.
   */
  function PrevDay(d: Date): (r: Date)
    requires IsDate(d)
    ensures IsDate(r)
    ensures NextDay(r) == d
  {
    if d.day > 1 then Date(d.year, d.month, d.day - 1)
    else if d.month > 1 then Date(d.year, d.month - 1, DaysInMonth(d.year, d.month - 1))
    else Date(d.year - 1, 12, 31)
  }

  /**
   * `d + timedelta(days=n)` for a non-negative `n`: the ordinal grows by `n`.
   * Like `NextDay`, it does not model `datetime`'s range error; the routine
   * only adds days that stay within the month.
   */
  function AddDays(d: Date, n: nat): (r: Date)
    requires IsDate(d)
    ensures IsDate(r)
    ensures Ordinal(r) == Ordinal(d) + n
    decreases n
  {
    if n == 0 then d else AddDays(NextDay(d), n - 1)
  }

  // ---------------------------------------------------------------------
  // The ordinal agrees with stepping day by day.

  /** The quotient by `k` grows by one exactly at multiples of `k`. */
  lemma DivStep(y: int, k: int)
    requires k == 4 || k == 100 || k == 400
    ensures y / k == (y - 1) / k + (if y % k == 0 then 1 else 0)
  {
  }

  /** A whole year later the ordinal has grown by the length of the year. */
  lemma DaysBeforeNextYear(y: int)
    ensures DaysBeforeYear(y + 1) == DaysBeforeYear(y) + DaysInYear(y)
  {
    var p := y - 1;
    assert DaysBeforeYear(y + 1) == y * 365 + y / 4 - y / 100 + y / 400;
    assert DaysBeforeYear(y) == p * 365 + p / 4 - p / 100 + p / 400;
    assert y * 365 == p * 365 + 365;
    DivStep(y, 4);
    DivStep(y, 100);
    DivStep(y, 400);
    MultiplesNest(y);
  }

  /** A multiple of 400 is a multiple of 100, and a multiple of 100 one of 4. */
  lemma MultiplesNest(y: int)
    ensures y % 400 == 0 ==> y % 100 == 0
    ensures y % 100 == 0 ==> y % 4 == 0
  {
    if y % 400 == 0 {
      assert y == 400 * (y / 400);
      DivModUnique(y, 100, 4 * (y / 400), 0);
    }
    if y % 100 == 0 {
      assert y == 100 * (y / 100);
      DivModUnique(y, 4, 25 * (y / 100), 0);
    }
  }

  /** Division with remainder is unique: the remainder is the one in `0..d`. */
  lemma DivModUnique(n: int, d: int, q: int, r: int)
    requires d > 0 && n == q * d + r && 0 <= r < d
    ensures n % d == r
  {
    var q', r' := n / d, n % d;
    var k := q' - q;
    assert k * d == r - r' by {
      assert q' * d + r' == q * d + r;
      assert k * d == q' * d - q * d;
    }
    if k >= 1 {
      MulAtLeast(k, d);
      assert false;
    } else if k <= -1 {
      MulAtLeast(-k, d);
      assert false;
    }
  }

  lemma MulAtLeast(k: int, d: int)
    requires k >= 1 && d > 0
    ensures k * d >= d
  {
    assert k * d == d + (k - 1) * d;
  }

  /** Month boundaries: the next month starts right after this one ends. */
  lemma DaysBeforeNextMonth(y: int, m: int)
    requires 1 <= m < 12
    ensures DaysBeforeMonth(y, m + 1) == DaysBeforeMonth(y, m) + DaysInMonth(y, m)
  {
  }

  /** Adding days that stay inside the month only moves the day number. */
  lemma AddDaysWithinMonth(d: Date, n: nat)
    requires IsDate(d) && d.day + n <= DaysInMonth(d.year, d.month)
    ensures AddDays(d, n) == Date(d.year, d.month, d.day + n)
  {
    var e := Date(d.year, d.month, d.day + n);
    assert Ordinal(e) == Ordinal(d) + n;
    OrdinalInjective(AddDays(d, n), e);
  }

  /** A calendar date's ordinal lies within the span of its own year. */
  lemma OrdinalWithinYear(d: Date)
    requires IsDate(d)
    ensures DaysBeforeYear(d.year) < Ordinal(d) <= DaysBeforeYear(d.year) + DaysInYear(d.year)
  {
  }

  /** The ordinal is a one-to-one numbering of calendar dates, ordered like the dates. */
  lemma OrdinalMonotone(a: Date, b: Date)
    requires IsDate(a) && IsDate(b)
    requires a.year < b.year
          || (a.year == b.year && a.month < b.month)
          || (a.year == b.year && a.month == b.month && a.day < b.day)
    ensures Ordinal(a) < Ordinal(b)
  {
    if a.year < b.year {
      OrdinalWithinYear(a);
      OrdinalWithinYear(b);
      DaysBeforeYearMonotone(a.year + 1, b.year);
      DaysBeforeNextYear(a.year);
    } else if a.month < b.month {
      DaysBeforeMonthMonotone(a.year, a.month, b.month);
    }
  }

  lemma {:induction false} DaysBeforeYearMonotone(y: int, z: int)
    requires y <= z
    ensures DaysBeforeYear(y) <= DaysBeforeYear(z)
    decreases z - y
  {
    if y < z {
      DaysBeforeNextYear(y);
      DaysBeforeYearMonotone(y + 1, z);
    }
  }

  lemma {:induction false} DaysBeforeMonthMonotone(y: int, m: int, k: int)
    requires 1 <= m < k <= 12
    ensures DaysBeforeMonth(y, m) + DaysInMonth(y, m) <= DaysBeforeMonth(y, k)
    decreases k - m
  {
    DaysBeforeNextMonth(y, m);
    if m + 1 < k {
      DaysBeforeMonthMonotone(y, m + 1, k);
    }
  }

  lemma OrdinalInjective(a: Date, b: Date)
    requires IsDate(a) && IsDate(b) && Ordinal(a) == Ordinal(b)
    ensures a == b
  {
    if a.year < b.year || (a.year == b.year && a.month < b.month)
       || (a.year == b.year && a.month == b.month && a.day < b.day) {
      OrdinalMonotone(a, b);
    } else if a != b {
      OrdinalMonotone(b, a);
    }
  }

  /** `d + timedelta(days=n)` is the one calendar date whose ordinal is n past d's. */
  lemma AddDaysIsTimedelta(d: Date, n: nat, e: Date)
    requires IsDate(d) && IsDate(e)
    ensures AddDays(d, n) == e <==> Ordinal(e) == Ordinal(d) + n
  {
    if Ordinal(e) == Ordinal(d) + n {
      OrdinalInjective(AddDays(d, n), e);
    }
  }

  // ---------------------------------------------------------------------
  // Weekdays

  /** The ordinal's anchor: 0001-01-01 is day 1, and a Monday. */
  lemma FirstDayIsMonday()
    ensures Ordinal(Date(1, 1, 1)) == 1
    ensures DayOfWeek(Date(1, 1, 1)) == 0
  {
    assert Ordinal(Date(1, 1, 1)) + 6 == 7;
  }

  /** Consecutive days have consecutive weekdays, Sunday wrapping to Monday. */
  lemma DayOfWeekNextDay(d: Date)
    requires IsDate(d)
    ensures DayOfWeek(NextDay(d)) == (DayOfWeek(d) + 1) % 7
  {
    WeekShift(Ordinal(d) + 6, 1);
  }

  /** Counting `n` days on from a weekday is the same as counting them on from the ordinal. */
  lemma WeekShift(x: int, n: int)
    ensures (x % 7 + n) % 7 == (x + n) % 7
  {
    var y := x % 7 + n;
    assert x == 7 * (x / 7) + x % 7;
    assert y == 7 * (y / 7) + y % 7;
    assert x + n == (x / 7 + y / 7) * 7 + y % 7;
    DivModUnique(x + n, 7, x / 7 + y / 7, y % 7);
  }

  /** Moving `n` days ahead moves the weekday `n` places ahead, modulo 7. */
  lemma DayOfWeekAddDays(d: Date, n: nat)
    requires IsDate(d)
    ensures DayOfWeek(AddDays(d, n)) == (DayOfWeek(d) + n) % 7
  {
    WeekShift(Ordinal(d) + 6, n);
  }

  // ---------------------------------------------------------------------
  // The days of one month

  /**
   * Every day of `month` in `year`: the first day, the last day (the first of
   * the next month, or of January of the next year for December, minus one
   * day), and the dates from first to last. Fails, as `datetime` does, when a
   * date it builds is outside `MinYear..MaxYear` or the month is not 1..12.
   */
  function MonthDates(year: int, month: int): (r: Option<seq<Date>>)
    ensures r.Some? <==> MinYear <= year <= MaxYear && 1 <= month <= 12
                         && !(month == 12 && year == MaxYear)
    ensures r.Some? ==> |r.value| == DaysInMonth(year, month)
    ensures r.Some? ==> forall i :: 0 <= i < |r.value| ==> r.value[i] == Date(year, month, i + 1)
    ensures r.Some? ==> forall i :: 0 <= i < |r.value| ==> InRange(r.value[i])
  {
    if !(MinYear <= year <= MaxYear && 1 <= month <= 12) then None
    else if month == 12 && year + 1 > MaxYear then None
    else
      var start := Date(year, month, 1);
      var next := if month == 12 then Date(year + 1, 1, 1) else Date(year, month + 1, 1);
      MonthSpan(year, month);
      var end := PrevDay(next);
      var count := Ordinal(end) - Ordinal(start) + 1;
      var dates := seq(count, i requires 0 <= i < count => AddDays(start, i));
      assert forall i :: 0 <= i < |dates| ==> dates[i] == Date(year, month, i + 1) by {
        forall i | 0 <= i < |dates| ensures dates[i] == Date(year, month, i + 1) {
          AddDaysWithinMonth(start, i);
        }
      }
      Some(dates)
  }

  /** The day before the first of the next month is the month's last day, `DaysInMonth` days after the 1st. */
  lemma MonthSpan(year: int, month: int)
    requires 1 <= month <= 12
    ensures var next := if month == 12 then Date(year + 1, 1, 1) else Date(year, month + 1, 1);
      var last := Date(year, month, DaysInMonth(year, month));
      && IsDate(next)
      && PrevDay(next) == last
      && Ordinal(last) - Ordinal(Date(year, month, 1)) + 1 == DaysInMonth(year, month)
  {
  }

  /** The month's dates are consecutive: each is the day after the one before it. */
  lemma MonthDatesConsecutive(year: int, month: int)
    requires MonthDates(year, month).Some?
    ensures var ds := MonthDates(year, month).value;
      && ds[0] == Date(year, month, 1)
      && ds[|ds| - 1] == Date(year, month, DaysInMonth(year, month))
      && (forall i :: 0 <= i < |ds| ==> InRange(ds[i]))
      && (forall i :: 0 < i < |ds| ==> ds[i] == NextDay(ds[i - 1]))
      && (forall i :: 0 < i < |ds| ==> Ordinal(ds[i]) == Ordinal(ds[i - 1]) + 1)
      && NextDay(ds[|ds| - 1]) == (if month == 12 then Date(year + 1, 1, 1) else Date(year, month + 1, 1))
  {
  }

  /** The month's dates are strictly ascending, so none repeats. */
  lemma MonthDatesAscending(year: int, month: int, i: int, j: int)
    requires MonthDates(year, month).Some?
    requires 0 <= i < j < |MonthDates(year, month).value|
    ensures Ordinal(MonthDates(year, month).value[i]) < Ordinal(MonthDates(year, month).value[j])
  {
  }
}
