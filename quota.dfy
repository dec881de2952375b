/** Quota window expansion (`make_event_quota` in utilities/misc.py): a quota
    template is copied once per year, half year, calendar month or week of a
    date interval, each copy carrying the dates it covers. */
module EventQuotas {
  import opened Outcomes
  import opened Seqs
  import opened Calendar

  /** A quota template as configured; any key may be absent. */
  datatype QuotaTemplate = QuotaTemplate(
    min: Option<int>,
    max: Option<int>,
    timeUnit: Option<string>,
    used: Option<int>,
    quota: Option<int>)

  /** One window of an event's quota: the template's bounds, the usage so far,
      what remains of the allowance, and the days the window covers. */
  datatype QuotaWindow = QuotaWindow(
    min: int,
    max: int,
    timeUnit: string,
    used: int,
    quota: int,
    overused: bool,
    dates: seq<Date>)

  const TimeUnits: set<string> := {"year", "half_year", "month", "week"}

  /** The template with its defaults filled in (no dates yet), or the
      exception `make_event_quota` raises before it expands anything. */
  function BaseQuota(t: QuotaTemplate): (r: Result<QuotaWindow>)
    ensures r.Ok? <==> t.min.Some? && t.max.Some? && t.timeUnit.Some?
    ensures r.Err? && t.quota.None? && (t.min.None? || t.max.None?) ==> r.error == QuotaArithmetic
    ensures r.Ok? ==>
      (r.value.used == t.used.GetOr(0)
       && r.value.quota == t.quota.GetOr(t.max.value - t.min.value + 1)
       && !r.value.overused && r.value.dates == [])
  {
    if t.quota.None? && (t.min.None? || t.max.None?) then Err(QuotaArithmetic)
    else if t.min.None? || t.max.None? || t.timeUnit.None? then Err(MissingQuotaProps)
    else
      var quota := if t.quota.Some? then t.quota.value else t.max.value - t.min.value + 1;
      Ok(QuotaWindow(t.min.value, t.max.value, t.timeUnit.value, t.used.GetOr(0), quota, false, []))
  }

  /** True when `w` is the template `base` carrying some dates. */
  predicate CopiesTemplate(w: QuotaWindow, base: QuotaWindow) {
    w == base.(dates := w.dates)
  }

  /** First day of the window of `year`: `start` in the year of `start`,
      otherwise January 1. */
  function FirstDayOfYearWindow(start: Date, year: int): Date
    requires year >= 1
  {
    if year == YearOf(start) then start else JanFirst(year)
  }

  /** Last day of the window of `year`: `end` in the year of `end`, otherwise
      December 31. */
  function LastDayOfYearWindow(end: Date, year: int): Date
    requires year >= 1
  {
    if year == YearOf(end) then end else DecLast(year)
  }

  /** The window for `year`. */
  function YearWindow(base: QuotaWindow, start: Date, end: Date, year: int): QuotaWindow
    requires year >= 1
  {
    base.(dates := DateRange(FirstDayOfYearWindow(start, year), LastDayOfYearWindow(end, year)))
  }

  /** Day that closes the first half of `year`: index round(days_in_year/2)-1. */
  function HalfYearCenter(year: int): Date
    requires year >= 1
  {
    NthDayOfYear(year, HalfRounded(DaysInYear(year)) - 1)
  }

  /** The one or two windows of `year`: the first from `start` or January 1 to
      the center (never clipped to `end`), the second from the day after the
      center to `end` or December 31, left out when that day is after `end`. */
  function HalfYearWindows(base: QuotaWindow, start: Date, end: Date, year: int): (ws: seq<QuotaWindow>)
    requires year >= 1
    ensures 1 <= |ws| <= 2 && forall k :: 0 <= k < |ws| ==> CopiesTemplate(ws[k], base)
  {
    var center := HalfYearCenter(year);
    var w1 := base.(dates := DateRange(FirstDayOfYearWindow(start, year), center));
    if center + 1 > end then [w1]
    else [w1, base.(dates := DateRange(center + 1, LastDayOfYearWindow(end, year)))]
  }

  function HalfYearsWindows(base: QuotaWindow, start: Date, end: Date, years: seq<int>): (r: seq<QuotaWindow>)
    requires forall i :: 0 <= i < |years| ==> years[i] >= 1
    ensures forall k :: 0 <= k < |r| ==> CopiesTemplate(r[k], base)
  {
    if years == [] then []
    else
      HalfYearsWindows(base, start, end, years[..|years| - 1])
        + HalfYearWindows(base, start, end, years[|years| - 1])
  }

  /** The window starting at `first`: up to the day before the same day of
      the next month. */
  function MonthWindow(base: QuotaWindow, first: Date): QuotaWindow {
    base.(dates := DateRange(first, AddOneMonth(first) - 1))
  }

  /** One window per year of `years`. */
  function YearWindows(base: QuotaWindow, start: Date, end: Date, years: seq<int>): (ws: seq<QuotaWindow>)
    requires forall i :: 0 <= i < |years| ==> years[i] >= 1
    ensures |ws| == |years|
    ensures forall i :: 0 <= i < |ws| ==> CopiesTemplate(ws[i], base)
  {
    if years == [] then []
    else YearWindows(base, start, end, years[..|years| - 1]) + [YearWindow(base, start, end, years[|years| - 1])]
  }

  /** One window per monthly start date. */
  function MonthWindows(base: QuotaWindow, months: seq<Date>): (ws: seq<QuotaWindow>)
    ensures |ws| == |months|
    ensures forall k :: 0 <= k < |ws| ==> CopiesTemplate(ws[k], base)
  {
    if months == [] then []
    else MonthWindows(base, months[..|months| - 1]) + [MonthWindow(base, months[|months| - 1])]
  }

  /** One window per week list, carrying exactly that week's dates. */
  function WeekWindows(base: QuotaWindow, weeks: seq<seq<Date>>): (ws: seq<QuotaWindow>)
    ensures |ws| == |weeks| && forall i :: 0 <= i < |ws| ==> ws[i] == base.(dates := weeks[i])
  {
    if weeks == [] then []
    else WeekWindows(base, weeks[..|weeks| - 1]) + [base.(dates := weeks[|weeks| - 1])]
  }

  /** `make_event_quota(start, end, template)`. */
  function EventQuota(start: Date, end: Date, t: QuotaTemplate): (r: Result<seq<QuotaWindow>>)
    ensures r.Err? <==> BaseQuota(t).Err? || BaseQuota(t).value.timeUnit !in TimeUnits
    ensures r.Err? && BaseQuota(t).Ok? ==> r.error == UnknownTimeUnit
    ensures r.Ok? ==> forall k :: 0 <= k < |r.value| ==> CopiesTemplate(r.value[k], BaseQuota(t).value)
  {
    match BaseQuota(t)
    case Err(e) => Err(e)
    case Ok(base) =>
      if base.timeUnit == "year" then
        Ok(YearWindows(base, start, end, YearRange(start, end)))
      else if base.timeUnit == "half_year" then
        Ok(HalfYearsWindows(base, start, end, YearRange(start, end)))
      else if base.timeUnit == "month" then
        Ok(MonthWindows(base, MonthlyDates(start, end)))
      else if base.timeUnit == "week" then
        Ok(WeekWindows(base, WeekRange(start, end)))
      else Err(UnknownTimeUnit)
  }

  /** `make_event_quota`: fills in the template, then expands it per time unit. */
  method MakeEventQuota(start: Date, end: Date, t: QuotaTemplate) returns (r: Result<seq<QuotaWindow>>)
    ensures r == EventQuota(start, end, t)
  {
    var b := BaseQuota(t);
    if b.Err? {
      return Err(b.error);
    }
    var base := b.value;
    var result: seq<QuotaWindow>;
    if base.timeUnit == "year" {
      result := ExpandYears(base, start, end, YearRange(start, end));
    } else if base.timeUnit == "half_year" {
      result := ExpandHalfYears(base, start, end, YearRange(start, end));
    } else if base.timeUnit == "month" {
      result := ExpandMonths(base, MonthlyDates(start, end));
    } else if base.timeUnit == "week" {
      result := ExpandWeeks(base, WeekRange(start, end));
    } else {
      return Err(UnknownTimeUnit);
    }
    return Ok(result);
  }

  method ExpandYears(base: QuotaWindow, start: Date, end: Date, years: seq<int>) returns (result: seq<QuotaWindow>)
    requires forall i :: 0 <= i < |years| ==> years[i] >= 1
    ensures result == YearWindows(base, start, end, years)
  {
    result := [];
    var i := 0;
    while i < |years|
      invariant 0 <= i <= |years|
      invariant result == YearWindows(base, start, end, years[..i])
    {
      assert years[..i + 1][..i] == years[..i];
      result := result + [YearWindow(base, start, end, years[i])];
      i := i + 1;
    }
    assert years[..|years|] == years;
  }

  method ExpandHalfYears(base: QuotaWindow, start: Date, end: Date, years: seq<int>) returns (result: seq<QuotaWindow>)
    requires forall i :: 0 <= i < |years| ==> years[i] >= 1
    ensures result == HalfYearsWindows(base, start, end, years)
  {
    result := [];
    var i := 0;
    while i < |years|
      invariant 0 <= i <= |years|
      invariant result == HalfYearsWindows(base, start, end, years[..i])
    {
      assert years[..i + 1][..i] == years[..i];
      result := result + HalfYearWindows(base, start, end, years[i]);
      i := i + 1;
    }
    assert years[..|years|] == years;
  }

  method ExpandMonths(base: QuotaWindow, months: seq<Date>) returns (result: seq<QuotaWindow>)
    ensures result == MonthWindows(base, months)
  {
    result := [];
    var i := 0;
    while i < |months|
      invariant 0 <= i <= |months|
      invariant result == MonthWindows(base, months[..i])
    {
      assert months[..i + 1][..i] == months[..i];
      result := result + [MonthWindow(base, months[i])];
      i := i + 1;
    }
    assert months[..|months|] == months;
  }

  method ExpandWeeks(base: QuotaWindow, weeks: seq<seq<Date>>) returns (result: seq<QuotaWindow>)
    ensures result == WeekWindows(base, weeks)
  {
    result := [];
    var i := 0;
    while i < |weeks|
      invariant 0 <= i <= |weeks|
      invariant |result| == i
      invariant forall k :: 0 <= k < i ==> result[k] == base.(dates := weeks[k])
    {
      result := result + [base.(dates := weeks[i])];
      i := i + 1;
    }
  }

  /** The days of each window, in order. */
  function WindowDates(ws: seq<QuotaWindow>): (r: seq<seq<Date>>)
    ensures |r| == |ws|
  {
    if ws == [] then [] else WindowDates(ws[..|ws| - 1]) + [ws[|ws| - 1].dates]
  }

  lemma WindowDatesSnoc(ws: seq<QuotaWindow>, w: QuotaWindow)
    ensures Flatten(WindowDates(ws + [w])) == Flatten(WindowDates(ws)) + w.dates
  {
    assert (ws + [w])[..|ws|] == ws;
  }

  /** Consecutive years: the window of `y` ends on December 31 and the
      window of `next`, the year after, starts on the next day, January 1. */
  lemma YearWindowNext(base: QuotaWindow, start: Date, end: Date, y: int, next: int)
    requires start <= end && YearOf(start) <= y < YearOf(end) && next == y + 1
    ensures YearWindow(base, start, end, next).dates
      == DateRange(LastDayOfYearWindow(end, y) + 1, LastDayOfYearWindow(end, next))
    ensures start <= LastDayOfYearWindow(end, y) < LastDayOfYearWindow(end, next)
  {
    assert LastDayOfYearWindow(end, y) == DecLast(y);
    assert FirstDayOfYearWindow(start, next) == JanFirst(next);
    YearsAdjacent(y, next);
    if YearOf(start) < y {
      YearsOrdered(YearOf(start), y);
    }
  }

  /** Appending a window that starts the day after the others end extends
      their days to the end of that window. */
  lemma WindowDatesExtend(ws: seq<QuotaWindow>, w: QuotaWindow, start: Date, mid: Date, last: Date)
    requires start <= mid + 1 && mid <= last
    requires Flatten(WindowDates(ws)) == DateRange(start, mid)
    requires w.dates == DateRange(mid + 1, last)
    ensures Flatten(WindowDates(ws + [w])) == DateRange(start, last)
  {
    WindowDatesSnoc(ws, w);
    DateRangeSplit(start, mid, last);
  }

  /** Windows each starting the day after the previous one ends, the first
      on `start`: the first `n` of them together hold every day from
      `start` to the end of window `n - 1`. */
  lemma {:induction false} ConsecutiveWindows(ws: seq<QuotaWindow>, start: Date, ends: seq<Date>, n: int)
    requires |ws| == |ends| && 1 <= n <= |ws|
    requires start <= ends[0] && ws[0].dates == DateRange(start, ends[0])
    requires forall i :: 0 < i < |ws| ==> ends[i - 1] < ends[i] && ws[i].dates == DateRange(ends[i - 1] + 1, ends[i])
    ensures start <= ends[n - 1]
    ensures Flatten(WindowDates(ws[..n])) == DateRange(start, ends[n - 1])
  {
    assert ws[..n] == ws[..n - 1] + [ws[n - 1]];
    if n == 1 {
      WindowDatesSnoc([], ws[0]);
      assert WindowDates([]) == [];
    } else {
      ConsecutiveWindows(ws, start, ends, n - 1);
      WindowDatesExtend(ws[..n - 1], ws[n - 1], start, ends[n - 2], ends[n - 1]);
    }
  }

  /** `ConsecutiveWindows` for all of the windows. */
  lemma ConsecutiveWindowsAll(ws: seq<QuotaWindow>, start: Date, ends: seq<Date>, last: Date)
    requires |ws| == |ends| && 1 <= |ws| && last == ends[|ws| - 1]
    requires start <= ends[0] && ws[0].dates == DateRange(start, ends[0])
    requires forall i :: 0 < i < |ws| ==> ends[i - 1] < ends[i] && ws[i].dates == DateRange(ends[i - 1] + 1, ends[i])
    ensures start <= last
    ensures Flatten(WindowDates(ws)) == DateRange(start, last)
  {
    ConsecutiveWindows(ws, start, ends, |ws|);
    assert ws[..|ws|] == ws;
  }

  /** Window `i` of `YearWindows` is that of year `years[i]`. */
  lemma {:induction false} YearWindowsEach(base: QuotaWindow, start: Date, end: Date, years: seq<int>)
    requires forall k :: 0 <= k < |years| ==> years[k] >= 1
    ensures forall i :: 0 <= i < |years| ==> YearWindows(base, start, end, years)[i] == YearWindow(base, start, end, years[i])
  {
    if years != [] {
      var n := |years|;
      var prev := years[..n - 1];
      YearWindowsEach(base, start, end, prev);
      assert YearWindows(base, start, end, years)
        == YearWindows(base, start, end, prev) + [YearWindow(base, start, end, years[n - 1])];
      forall i | 0 <= i < n - 1
        ensures YearWindows(base, start, end, years)[i] == YearWindow(base, start, end, years[i])
      {
        assert prev[i] == years[i];
      }
    }
  }

  /** The last day of the window of each year of `years`. */
  function YearEnds(end: Date, years: seq<int>): (r: seq<Date>)
    requires forall i :: 0 <= i < |years| ==> years[i] >= 1
    ensures |r| == |years| && forall i :: 0 <= i < |years| ==> r[i] == LastDayOfYearWindow(end, years[i])
  {
    if years == [] then [] else [LastDayOfYearWindow(end, years[0])] + YearEnds(end, years[1..])
  }

  /** The window of the year of `start` starts on `start`. */
  lemma YearWindowFirst(base: QuotaWindow, start: Date, end: Date, y: int)
    requires start <= end && y == YearOf(start)
    ensures YearWindow(base, start, end, y).dates == DateRange(start, LastDayOfYearWindow(end, y))
    ensures start <= LastDayOfYearWindow(end, y)
  {
  }

  /** `YearWindowNext` for a window and window ends given by name. */
  lemma YearWindowsStep(base: QuotaWindow, start: Date, end: Date, y: int, next: int, w: QuotaWindow, e0: Date, e1: Date)
    requires start <= end && YearOf(start) <= y < YearOf(end) && next == y + 1
    requires w == YearWindow(base, start, end, next)
    requires e0 == LastDayOfYearWindow(end, y) && e1 == LastDayOfYearWindow(end, next)
    ensures e0 < e1 && w.dates == DateRange(e0 + 1, e1)
  {
    YearWindowNext(base, start, end, y, next);
  }

  /** The year windows of consecutive years each start the day after the
      previous one ends, the first on `start`. */
  lemma YearWindowsLinked(base: QuotaWindow, start: Date, end: Date, years: seq<int>, ws: seq<QuotaWindow>, ends: seq<Date>)
    requires start <= end && |years| >= 1 && |ws| == |ends| == |years|
    requires forall i :: 0 <= i < |years| ==> years[i] >= 1 && years[i] == YearOf(start) + i
    requires years[|years| - 1] <= YearOf(end)
    requires forall i :: 0 <= i < |ws| ==> ws[i] == YearWindow(base, start, end, years[i])
    requires forall i :: 0 <= i < |ends| ==> ends[i] == LastDayOfYearWindow(end, years[i])
    ensures start <= ends[0] && ws[0].dates == DateRange(start, ends[0])
    ensures forall i :: 0 < i < |ws| ==> ends[i - 1] < ends[i] && ws[i].dates == DateRange(ends[i - 1] + 1, ends[i])
  {
    YearWindowFirst(base, start, end, years[0]);
    forall i | 0 < i < |ws|
      ensures ends[i - 1] < ends[i] && ws[i].dates == DateRange(ends[i - 1] + 1, ends[i])
    {
      YearWindowsStep(base, start, end, years[i - 1], years[i], ws[i], ends[i - 1], ends[i]);
    }
  }

  /** The year windows of the years from that of `start` on are consecutive:
      together they hold every day from `start` to the end of the last one. */
  lemma YearWindowsChain(base: QuotaWindow, start: Date, end: Date, years: seq<int>)
    requires start <= end && |years| >= 1
    requires forall i :: 0 <= i < |years| ==> years[i] >= 1 && years[i] == YearOf(start) + i
    requires years[|years| - 1] <= YearOf(end)
    ensures start <= LastDayOfYearWindow(end, years[|years| - 1])
    ensures Flatten(WindowDates(YearWindows(base, start, end, years)))
      == DateRange(start, LastDayOfYearWindow(end, years[|years| - 1]))
  {
    var ws := YearWindows(base, start, end, years);
    var ends := YearEnds(end, years);
    YearWindowsEach(base, start, end, years);
    YearWindowsLinked(base, start, end, years, ws, ends);
    ConsecutiveWindowsAll(ws, start, ends, LastDayOfYearWindow(end, years[|years| - 1]));
  }

  /** Year windows are consecutive: together they are exactly the days from
      `start` to `end`, in order, one window per year. */
  lemma YearWindowsCover(start: Date, end: Date, t: QuotaTemplate)
    requires start <= end
    requires EventQuota(start, end, t).Ok? && t.timeUnit == Some("year")
    ensures var ws := EventQuota(start, end, t).value;
      |ws| == YearOf(end) - YearOf(start) + 1 && Flatten(WindowDates(ws)) == DateRange(start, end)
  {
    YearOfMonotone(start, end);
    YearWindowsChain(BaseQuota(t).value, start, end, YearRange(start, end));
  }

  lemma {:induction false} WeekWindowsDates(base: QuotaWindow, weeks: seq<seq<Date>>)
    ensures WindowDates(WeekWindows(base, weeks)) == weeks
  {
    if weeks != [] {
      var ws := WeekWindows(base, weeks);
      WeekWindowsDates(base, weeks[..|weeks| - 1]);
      assert ws[..|ws| - 1] == WeekWindows(base, weeks[..|weeks| - 1]);
    }
  }

  /** Week windows carry exactly the week lists: together they are the days
      from `start` to `end`, and every window after the first starts on a Monday. */
  lemma WeekWindowsCover(start: Date, end: Date, t: QuotaTemplate)
    requires EventQuota(start, end, t).Ok? && t.timeUnit == Some("week")
    ensures var ws := EventQuota(start, end, t).value;
      |ws| == |WeekRange(start, end)|
      && WindowDates(ws) == WeekRange(start, end)
      && Flatten(WindowDates(ws)) == DateRange(start, end)
      && forall k :: 0 < k < |ws| ==> ws[k].dates != [] && Weekday(ws[k].dates[0]) == 0
  {
    WeekWindowsDates(BaseQuota(t).value, WeekRange(start, end));
    WeekRangeCovers(start, end);
    WeekRangeMondays(start, end);
  }

  /** The half-year center is always July 1: day index 181 of a common year,
      182 of a leap year (Python rounds 182.5 to 182). */
  lemma HalfYearCenterIsJulyFirst(year: int)
    requires year >= 1
    ensures HalfYearCenter(year) == FromYMD(year, 7, 1)
  {
  }

  /** Per year, the first half ends at the center and the second starts the
      day after; the second is left out exactly when that day is after `end`. */
  lemma HalfYearSplit(base: QuotaWindow, start: Date, end: Date, year: int)
    requires year >= 1
    ensures var ws := HalfYearWindows(base, start, end, year);
      (|ws| == 1 <==> FromYMD(year, 7, 1) + 1 > end)
      && ws[0].dates == DateRange(FirstDayOfYearWindow(start, year), FromYMD(year, 7, 1))
      && (|ws| == 2 ==> ws[1].dates == DateRange(FromYMD(year, 7, 1) + 1, LastDayOfYearWindow(end, year)))
  {
    HalfYearCenterIsJulyFirst(year);
  }

  /** A month window that starts on the first of a month covers exactly that
      calendar month. */
  lemma MonthWindowIsCalendarMonth(base: QuotaWindow, y: int, m: int)
    requires y >= 1 && 1 <= m <= 12
    ensures MonthWindow(base, FromYMD(y, m, 1)).dates == DateRange(FromYMD(y, m, 1), FromYMD(y, m, DaysInMonth(y, m)))
  {
    AddOneMonthFromFirst(y, m);
    NextMonthStartIsMonthEnd(y, m);
  }

  lemma NextMonthStartIsMonthEnd(y: int, m: int)
    requires y >= 1 && 1 <= m <= 12
    ensures NextMonthStart(y, m) - 1 == FromYMD(y, m, DaysInMonth(y, m))
  {
    MonthStep(y, m);
    if m == 12 {
      YearStep(y);
    }
  }

  /** The `k`-th month window is the window of the `k`-th monthly date. */
  lemma {:induction false} MonthWindowsAt(base: QuotaWindow, months: seq<Date>, k: int)
    requires 0 <= k < |months|
    ensures MonthWindows(base, months)[k] == MonthWindow(base, months[k])
  {
    if k < |months| - 1 {
      MonthWindowsAt(base, months[..|months| - 1], k);
    }
  }

  /** Every monthly date is the first day of a month, and none is after `b`. */
  lemma {:induction false} MonthlyDatesAt(a: Date, b: Date, k: int)
    requires 0 <= k < |MonthlyDates(a, b)|
    ensures DayOfMonth(MonthlyDates(a, b)[k]) == 1 && MonthlyDates(a, b)[k] <= b
    decreases b - a
  {
    var y, m := YearOf(a), MonthOf(a);
    var next := NextMonthStart(y, m);
    MonthStep(y, m);
    YearStep(y);
    assert MonthlyDates(a, b) == [FromYMD(y, m, 1)] + MonthlyDates(next, b);
    if k == 0 {
      FromYMDRoundTrip(y, m, 1);
    } else {
      MonthlyDatesAt(next, b, k - 1);
    }
  }

  /** Every month window covers exactly one calendar month. */
  lemma MonthWindowsCoverMonths(start: Date, end: Date, t: QuotaTemplate, k: int)
    requires EventQuota(start, end, t).Ok? && t.timeUnit == Some("month")
    requires 0 <= k < |EventQuota(start, end, t).value|
    ensures var d := MonthlyDates(start, end)[k];
      DayOfMonth(d) == 1 && d <= end
      && EventQuota(start, end, t).value[k].dates
         == DateRange(d, FromYMD(YearOf(d), MonthOf(d), DaysInMonth(YearOf(d), MonthOf(d))))
  {
    var base := BaseQuota(t).value;
    var months := MonthlyDates(start, end);
    var d := months[k];
    MonthWindowsAt(base, months, k);
    MonthlyDatesAt(start, end, k);
    MonthWindowIsCalendarMonth(base, YearOf(d), MonthOf(d));
  }
}
