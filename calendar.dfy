/** Proleptic Gregorian calendar dates as day numbers, the same numbering as
    Python's `date.toordinal()` (0001-01-01 is day 1). The engine compares ISO
    `YYYY-MM-DD` strings, whose order is the order of these numbers, so every
    date of the model is one of them. The date helpers the engine calls
    (date ranges, week and month ranges, weekday names, quarters) are defined
    here on top of the day numbers. */
module Calendar {
  import opened Seqs

  type Date = d: int | d >= 1 witness 1

  predicate IsLeap(y: int) {
    (y % 4 == 0 && y % 100 != 0) || y % 400 == 0
  }

  function DaysInYear(y: int): int {
    if IsLeap(y) then 366 else 365
  }

  function DaysInMonth(y: int, m: int): int
    requires 1 <= m <= 12
  {
    if m == 2 then (if IsLeap(y) then 29 else 28)
    else if m == 4 || m == 6 || m == 9 || m == 11 then 30
    else 31
  }

  /** Days in the years before `y` (year 1 has none before it). */
  function DaysBeforeYear(y: int): (n: int)
    requires y >= 1
    ensures n >= 365 * (y - 1)
  {
    if y == 1 then 0 else DaysBeforeYear(y - 1) + DaysInYear(y - 1)
  }

  /** The closed form of the proleptic Gregorian calendar: 365 days a year
      and one more for each leap year before `y`. */
  lemma {:induction false} DaysBeforeYearClosed(y: int)
    requires y >= 1
    ensures var p := y - 1; DaysBeforeYear(y) == 365 * p + p / 4 - p / 100 + p / 400
  {
    if y > 1 {
      DaysBeforeYearClosed(y - 1);
      LeapCountStep(y - 1);
    }
  }

  /** The leap-year count `p / 4 - p / 100 + p / 400` grows by one exactly
      at a leap year `p`. */
  lemma LeapCountStep(p: int)
    requires p >= 1
    ensures var q := p - 1;
      (p / 4 - p / 100 + p / 400) - (q / 4 - q / 100 + q / 400) == (if IsLeap(p) then 1 else 0)
  {
    Step4(p);
    Step100(p);
    Step400(p);
    if p % 400 == 0 {
      Mod400Mod100(p);
      Mod100Mod4(p);
    } else if p % 100 == 0 {
      Mod100Mod4(p);
    }
  }

  lemma Mod400Mod100(p: int)
    requires p % 400 == 0
    ensures p % 100 == 0
  {
    assert p == 100 * (4 * (p / 400));
  }

  lemma Mod100Mod4(p: int)
    requires p % 100 == 0
    ensures p % 4 == 0
  {
    assert p == 4 * (25 * (p / 100));
  }

  lemma Step4(p: int)
    ensures p / 4 - (p - 1) / 4 == (if p % 4 == 0 then 1 else 0)
  {
  }

  lemma Step100(p: int)
    ensures p / 100 - (p - 1) / 100 == (if p % 100 == 0 then 1 else 0)
  {
  }

  lemma Step400(p: int)
    ensures p / 400 - (p - 1) / 400 == (if p % 400 == 0 then 1 else 0)
  {
  }

  lemma YearStep(y: int)
    requires y >= 1
    ensures DaysBeforeYear(y + 1) == DaysBeforeYear(y) + DaysInYear(y)
  {
  }

  /** Day number of January 1 and of December 31 of year `y`. */
  function JanFirst(y: int): Date
    requires y >= 1
  {
    DaysBeforeYear(y) + 1
  }

  function DecLast(y: int): Date
    requires y >= 1
  {
    DaysBeforeYear(y + 1)
  }

  lemma {:induction false} YearsOrdered(a: int, b: int)
    requires 1 <= a < b
    ensures DecLast(a) < JanFirst(b)
    decreases b - a
  {
    YearStep(a);
    if a + 1 < b {
      YearsOrdered(a + 1, b);
      YearStep(a + 1);
    }
  }

  /** Year `next` starts the day after year `y` ends, and each year has
      more than one day. */
  lemma YearsAdjacent(y: int, next: int)
    requires y >= 1 && next == y + 1
    ensures DecLast(y) + 1 == JanFirst(next)
    ensures JanFirst(y) < DecLast(y) && JanFirst(next) < DecLast(next)
  {
    YearStep(y);
    YearStep(next);
  }

  /** Days in the months of year `y` before month `m` (m = 13 gives the whole year). */
  function DaysBeforeMonth(y: int, m: int): int
    requires 1 <= m <= 13
  {
    [0, 31, 59, 90, 120, 151, 181, 212, 243, 273, 304, 334, 365][m - 1]
      + (if m > 2 && IsLeap(y) then 1 else 0)
  }

  lemma MonthStep(y: int, m: int)
    requires 1 <= m <= 12
    ensures DaysBeforeMonth(y, m + 1) == DaysBeforeMonth(y, m) + DaysInMonth(y, m)
  {
  }

  predicate ValidYMD(y: int, m: int, d: int) {
    y >= 1 && 1 <= m <= 12 && 1 <= d <= DaysInMonth(y, m)
  }

  /** The date with year `y`, month `m` and day of month `d`. */
  function FromYMD(y: int, m: int, d: int): Date
    requires ValidYMD(y, m, d)
  {
    DaysBeforeYear(y) + DaysBeforeMonth(y, m) + d
  }

  /** Searches upward from a year whose January 1 is not after `d`. */
  function YearFrom(d: Date, y: int): (r: int)
    requires y >= 1 && JanFirst(y) <= d
    ensures r >= y && JanFirst(r) <= d <= DecLast(r)
    decreases d - JanFirst(y)
  {
    if d <= DecLast(y) then y
    else YearFrom(d, y + 1)
  }

  /** The year of `d` (`int(date[:4])` on the ISO string). */
  function YearOf(d: Date): (y: int)
    ensures y >= 1 && JanFirst(y) <= d <= DecLast(y)
  {
    YearFrom(d, 1)
  }

  /** A year is determined by any of its days. */
  lemma YearOfUnique(d: Date, y: int)
    requires y >= 1 && JanFirst(y) <= d <= DecLast(y)
    ensures YearOf(d) == y
  {
    var z := YearOf(d);
    if z < y {
      YearsOrdered(z, y);
    } else if z > y {
      YearsOrdered(y, z);
    }
  }

  /** Day of the year, 1 for January 1. */
  function DayOfYear(d: Date): (n: int)
    ensures 1 <= n <= DaysInYear(YearOf(d))
  {
    YearStep(YearOf(d));
    d - DaysBeforeYear(YearOf(d))
  }

  function MonthFrom(y: int, n: int, m: int): (r: int)
    requires 1 <= m <= 12 && DaysBeforeMonth(y, m) < n <= DaysBeforeMonth(y, 13)
    ensures m <= r <= 12 && DaysBeforeMonth(y, r) < n <= DaysBeforeMonth(y, r + 1)
    decreases 12 - m
  {
    if n <= DaysBeforeMonth(y, m + 1) || m == 12 then m else MonthFrom(y, n, m + 1)
  }

  /** The month (1-12) of `d`. */
  function MonthOf(d: Date): (m: int)
    ensures 1 <= m <= 12
    ensures DaysBeforeMonth(YearOf(d), m) < DayOfYear(d) <= DaysBeforeMonth(YearOf(d), m + 1)
  {
    MonthFrom(YearOf(d), DayOfYear(d), 1)
  }

  /** The day of the month of `d`. */
  function DayOfMonth(d: Date): (n: int)
    ensures ValidYMD(YearOf(d), MonthOf(d), n)
    ensures FromYMD(YearOf(d), MonthOf(d), n) == d
  {
    MonthStep(YearOf(d), MonthOf(d));
    DayOfYear(d) - DaysBeforeMonth(YearOf(d), MonthOf(d))
  }

  lemma MonthUnique(y: int, n: int, m: int, k: int)
    requires 1 <= m <= 12 && 1 <= k <= 12
    requires DaysBeforeMonth(y, m) < n <= DaysBeforeMonth(y, m + 1)
    requires DaysBeforeMonth(y, k) < n <= DaysBeforeMonth(y, k + 1)
    ensures m == k
  {
  }

  /** Reading year, month and day back from a date gives what built it. */
  lemma FromYMDRoundTrip(y: int, m: int, d: int)
    requires ValidYMD(y, m, d)
    ensures YearOf(FromYMD(y, m, d)) == y
    ensures MonthOf(FromYMD(y, m, d)) == m
    ensures DayOfMonth(FromYMD(y, m, d)) == d
  {
    var t := FromYMD(y, m, d);
    MonthStep(y, m);
    YearStep(y);
    YearOfUnique(t, y);
    MonthUnique(y, DayOfYear(t), m, MonthOf(t));
  }

  /** Python's `date.weekday()`: 0 for Monday up to 6 for Sunday. */
  function Weekday(d: Date): (w: int)
    ensures 0 <= w < 7
  {
    (d + 6) % 7
  }

  /** `get_named_weekdays(short=True, to_lower=True)`. */
  const WeekdayNames: seq<string> := ["mon", "tue", "wed", "thu", "fri", "sat", "sun"]

  /** `get_weekday_name(date, short=True).lower()`. */
  function WeekdayName(d: Date): (s: string)
    ensures s in WeekdayNames
  {
    WeekdayNames[Weekday(d)]
  }

  /** `get_quarter(date)`: 1 for January-March up to 4 for October-December. */
  function Quarter(d: Date): (q: int)
    ensures 1 <= q <= 4
  {
    (MonthOf(d) - 1) / 3 + 1
  }

  /** `get_date_range(a, b)`: the ascending days from `a` to `b`, both included. */
  function DateRange(a: Date, b: Date): (r: seq<Date>)
    ensures |r| == if a <= b then b - a + 1 else 0
    ensures forall i :: 0 <= i < |r| ==> r[i] == a + i
  {
    if a > b then [] else seq(b - a + 1, i requires 0 <= i => a + i)
  }

  lemma DateRangeAt(a: Date, b: Date, i: int)
    requires 0 <= i <= b - a
    ensures DateRange(a, b)[i] == a + i
  {
  }

  lemma DateRangeMembers(a: Date, b: Date)
    ensures forall d :: d in DateRange(a, b) <==> a <= d <= b
  {
    forall d | d in DateRange(a, b) ensures a <= d <= b {
      var i :| 0 <= i < |DateRange(a, b)| && DateRange(a, b)[i] == d;
      DateRangeAt(a, b, i);
    }
    forall d | a <= d <= b ensures d in DateRange(a, b) {
      DateRangeAt(a, b, d - a);
    }
  }

  /** Two adjoining ranges make one range. */
  lemma DateRangeSplit(a: Date, m: Date, b: Date)
    requires a <= m + 1 && m <= b
    ensures DateRange(a, m) + DateRange(m + 1, b) == DateRange(a, b)
  {
    var l, r := DateRange(a, m), DateRange(m + 1, b);
    forall i | 0 <= i < |l + r| ensures (l + r)[i] == DateRange(a, b)[i] {
      if i >= |l| {
        assert (l + r)[i] == r[i - |l|];
      }
    }
  }

  /** The integers from `lo` to `hi`, ascending. */
  function IntRange(lo: int, hi: int): (r: seq<int>)
    ensures |r| == if lo <= hi then hi - lo + 1 else 0
    ensures forall i :: 0 <= i < |r| ==> r[i] == lo + i
    decreases hi - lo
  {
    if lo > hi then [] else [lo] + IntRange(lo + 1, hi)
  }

  /** `get_year_range(a, b)`: the years from that of `a` to that of `b`. */
  function YearRange(a: Date, b: Date): (r: seq<int>)
    ensures |r| == if YearOf(a) <= YearOf(b) then YearOf(b) - YearOf(a) + 1 else 0
    ensures forall i :: 0 <= i < |r| ==> r[i] == YearOf(a) + i
  {
    IntRange(YearOf(a), YearOf(b))
  }

  /** The Sunday closing the Monday-to-Sunday week of `d`. */
  function WeekEnd(d: Date): (e: Date)
    ensures d <= e < d + 7 && Weekday(e) == 6
  {
    d + (6 - Weekday(d))
  }

  /** The day after a Sunday is a Monday. */
  lemma AfterSunday(d: Date)
    requires Weekday(d) == 6
    ensures Weekday(d + 1) == 0
  {
  }

  /** `get_week_range(a, b)`: the days from `a` to `b` grouped into
      Monday-to-Sunday weeks, the first and last possibly cut short. */
  function WeekRange(a: Date, b: Date): (r: seq<seq<Date>>)
    decreases b - a
  {
    if a > b then []
    else
      var e := if WeekEnd(a) <= b then WeekEnd(a) else b;
      [DateRange(a, e)] + WeekRange(e + 1, b)
  }

  /** All days of a sequence of day lists, in order. */
  function Flatten(ws: seq<seq<Date>>): seq<Date> {
    if ws == [] then [] else Flatten(ws[..|ws| - 1]) + ws[|ws| - 1]
  }

  lemma {:induction false} FlattenAppend(a: seq<seq<Date>>, b: seq<seq<Date>>)
    ensures Flatten(a + b) == Flatten(a) + Flatten(b)
    decreases |b|
  {
    if b == [] {
      assert a + b == a;
    } else {
      var init, last := b[..|b| - 1], b[|b| - 1];
      assert (a + b)[..|a + b| - 1] == a + init;
      assert (a + b)[|a + b| - 1] == last;
      FlattenAppend(a, init);
      assert Flatten(b) == Flatten(init) + last;
      ConcatAssoc(Flatten(a), Flatten(init), last);
    }
  }

  lemma FlattenSingle(w: seq<Date>)
    ensures Flatten([w]) == w
  {
    assert [w][..0] == [];
  }

  /** The weeks cover the range exactly, in order. */
  lemma {:induction false} WeekRangeCovers(a: Date, b: Date)
    ensures Flatten(WeekRange(a, b)) == DateRange(a, b)
    decreases b - a
  {
    if a <= b {
      var e := if WeekEnd(a) <= b then WeekEnd(a) else b;
      WeekRangeCovers(e + 1, b);
      FlattenAppend([DateRange(a, e)], WeekRange(e + 1, b));
      FlattenSingle(DateRange(a, e));
      DateRangeSplit(a, e, b);
    }
  }

  /** Each week after the first starts on a Monday. */
  lemma {:induction false} WeekRangeMondays(a: Date, b: Date)
    ensures forall k :: 0 < k < |WeekRange(a, b)| ==>
      WeekRange(a, b)[k] != [] && Weekday(WeekRange(a, b)[k][0]) == 0
    decreases b - a
  {
    if a <= b {
      var e := if WeekEnd(a) <= b then WeekEnd(a) else b;
      var rest := WeekRange(e + 1, b);
      WeekRangeMondays(e + 1, b);
      if rest != [] {
        assert e + 1 <= b && e == WeekEnd(a);
        var e2 := if WeekEnd(e + 1) <= b then WeekEnd(e + 1) else b;
        assert rest[0] == DateRange(e + 1, e2);
        DateRangeAt(e + 1, e2, 0);
        AfterSunday(e);
      }
      var w := WeekRange(a, b);
      assert w == [DateRange(a, e)] + rest;
      forall k | 0 < k < |w| ensures w[k] != [] && Weekday(w[k][0]) == 0 {
        assert w[k] == rest[k - 1];
      }
    }
  }

  /** `add_months(date, +1)`: the same day of the next month, clamped to
      that month's last day. */
  function AddOneMonth(d: Date): (r: Date)
    ensures r > d
  {
    var y, m, n := YearOf(d), MonthOf(d), DayOfMonth(d);
    var y2 := if m == 12 then y + 1 else y;
    var m2 := if m == 12 then 1 else m + 1;
    var n2 := if n <= DaysInMonth(y2, m2) then n else DaysInMonth(y2, m2);
    FromYMD(y2, m2, n2)
  }

  /** First day of the month after (`y`, `m`). */
  function NextMonthStart(y: int, m: int): Date
    requires y >= 1 && 1 <= m <= 12
  {
    if m == 12 then FromYMD(y + 1, 1, 1) else FromYMD(y, m + 1, 1)
  }

  /** One month on from the first of a month is the first of the next
      month. */
  lemma AddOneMonthFromFirst(y: int, m: int)
    requires y >= 1 && 1 <= m <= 12
    ensures AddOneMonth(FromYMD(y, m, 1)) == NextMonthStart(y, m)
  {
    var d := FromYMD(y, m, 1);
    FromYMDRoundTrip(y, m, 1);
    assert YearOf(d) == y && MonthOf(d) == m && DayOfMonth(d) == 1;
    if m == 12 {
      assert AddOneMonth(d) == FromYMD(y + 1, 1, 1);
    } else {
      assert AddOneMonth(d) == FromYMD(y, m + 1, 1);
    }
  }

  /** `get_monthly_dates(a, b)`: the first day of every calendar month from
      the month of `a` to the month of `b`. */
  function MonthlyDates(a: Date, b: Date): (r: seq<Date>)
    decreases b - a
  {
    if a > b then []
    else
      var first := FromYMD(YearOf(a), MonthOf(a), 1);
      var next := NextMonthStart(YearOf(a), MonthOf(a));
      MonthStep(YearOf(a), MonthOf(a));
      YearStep(YearOf(a));
      assert next > a;
      [first] + MonthlyDates(next, b)
  }

  /** Python's `round` of `n / 2`: halves go to the even neighbour. */
  function HalfRounded(n: nat): (r: int)
    ensures n % 2 == 0 ==> r == n / 2
    ensures n % 2 == 1 ==> r % 2 == 0 && (r == n / 2 || r == n / 2 + 1)
  {
    if n % 2 == 0 then n / 2
    else if (n / 2) % 2 == 0 then n / 2
    else n / 2 + 1
  }

  /** `get_nth_day_of_year(y, n)`: the day `n` days after January 1. */
  function NthDayOfYear(y: int, n: nat): Date
    requires y >= 1
  {
    JanFirst(y) + n
  }

  /** 2024-01-01 is day 738886 and a Monday, as in Python. */
  lemma Anchor2024()
    ensures FromYMD(2024, 1, 1) == 738886
    ensures Weekday(FromYMD(2024, 1, 1)) == 0
  {
    DaysBeforeYearClosed(2024);
  }

  /** Dates are ordered by year first. */
  lemma YearOfMonotone(a: Date, b: Date)
    requires a <= b
    ensures YearOf(a) <= YearOf(b)
  {
    if YearOf(a) > YearOf(b) {
      YearsOrdered(YearOf(b), YearOf(a));
    }
  }
}
