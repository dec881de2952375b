/** The boundaries (core/boundary/): a period boundary keeps the dates on
    given weekdays or in given quarters, a date boundary names fixed days of
    the current year, and a distance boundary rejects an event that the
    schedule already holds within a number of days of the probed date. */
module Boundaries {
  import opened Outcomes
  import opened Seqs
  import opened Calendar
  import opened ScheduleEvents
  import opened Schedules

  // ---------------------------------------------------------------------
  // Period boundary (boundary_period.py)

  const QuarterTokens: set<string> := {"q1", "q2", "q3", "q4"}

  /** `"q%s" % get_quarter(date)`. */
  function QuarterToken(d: Date): (t: string)
    ensures t in QuarterTokens
  {
    var q := Quarter(d);
    if q == 1 then "q1" else if q == 2 then "q2" else if q == 3 then "q3" else "q4"
  }

  predicate KnownPeriodToken(t: string) {
    t in WeekdayNames || t in QuarterTokens
  }

  /** A date matches the period when its short weekday name or its quarter
      token is one of the configured tokens. */
  predicate PeriodMatches(period: seq<string>, d: Date) {
    WeekdayName(d) in period || QuarterToken(d) in period
  }

  function PeriodMatcher(period: seq<string>): Date -> bool {
    (d: Date) => PeriodMatches(period, d)
  }

  /** `BoundaryPeriod.match_event(event, dates)`: the matching dates, each
      once. Every token is examined for every date, so an unknown token fails
      as soon as one date is examined. The event takes no part. */
  function PeriodMatch(period: seq<string>, dates: seq<Date>): (r: Result<seq<Date>>)
    ensures r.Err? ==> r.error == UnknownPeriodToken && dates != []
  {
    if dates != [] && exists t :: t in period && !KnownPeriodToken(t) then Err(UnknownPeriodToken)
    else Ok(Dedup(Filter(dates, PeriodMatcher(period))))
  }

  /** The matches are a duplicate-free subset of the dates, holding a date
      exactly when its weekday or its quarter is in the period. */
  lemma PeriodMatchSpec(period: seq<string>, dates: seq<Date>)
    ensures PeriodMatch(period, dates).Err? <==>
      dates != [] && exists t :: t in period && !KnownPeriodToken(t)
    ensures PeriodMatch(period, dates).Ok? ==>
      var r := PeriodMatch(period, dates).value;
      Distinct(r)
      && forall d :: d in r <==> d in dates && (WeekdayName(d) in period || QuarterToken(d) in period)
  {
  }

  /** No dates, no matches and no error, whatever the tokens. */
  lemma PeriodMatchEmpty(period: seq<string>)
    ensures PeriodMatch(period, []) == Ok([])
  {
  }

  // ---------------------------------------------------------------------
  // Date boundary (boundary_date.py)

  /** The dates of the rows from `rows`, in order: one per `values` row. */
  function RowDates(year: int, rows: seq<MonthDay>): (r: Result<seq<Date>>)
    ensures r.Ok? ==> |r.value| == |rows|
    ensures r.Err? ==> r.error == InvalidDate
  {
    if rows == [] then Ok([])
    else
      match RowDates(year, rows[..|rows| - 1])
      case Err(e) => Err(e)
      case Ok(init) =>
        var row := rows[|rows| - 1];
        if ValidYMD(year, row.month, row.day) then Ok(init + [FromYMD(year, row.month, row.day)])
        else Err(InvalidDate)
  }

  /** `BoundaryDate.match_event(event, dates)` with `year` the current year:
      the date of every `values` row of every outer row, in order. Neither
      the event nor the dates take part. */
  function DateMatch(year: int, rules: seq<DateRule>): (r: Result<seq<Date>>)
    ensures r.Err? ==> r.error == InvalidDate
  {
    if rules == [] then Ok([])
    else
      match DateMatch(year, rules[..|rules| - 1])
      case Err(e) => Err(e)
      case Ok(init) =>
        match RowDates(year, rules[|rules| - 1].values)
        case Err(e) => Err(e)
        case Ok(last) => Ok(init + last)
  }

  /** All values rows, in order. */
  function AllRows(rules: seq<DateRule>): seq<MonthDay> {
    if rules == [] then [] else AllRows(rules[..|rules| - 1]) + rules[|rules| - 1].values
  }

  lemma {:induction false} RowDatesAppend(year: int, a: seq<MonthDay>, b: seq<MonthDay>)
    ensures RowDates(year, a + b) ==
      match RowDates(year, a)
      case Err(e) => Err(e)
      case Ok(x) =>
        match RowDates(year, b)
        case Err(e) => Err(e)
        case Ok(y) => Ok(x + y)
    decreases |b|
  {
    if b == [] {
      assert a + b == a;
      match RowDates(year, a)
      case Err(_) =>
      case Ok(x) => assert x + [] == x;
    } else {
      var b0 := b[..|b| - 1];
      assert (a + b)[..|a + b| - 1] == a + b0;
      RowDatesAppend(year, a, b0);
      var row := b[|b| - 1];
      assert (a + b)[|a + b| - 1] == row;
      if RowDates(year, a).Ok? && RowDates(year, b0).Ok? && ValidYMD(year, row.month, row.day) {
        var x, y := RowDates(year, a).value, RowDates(year, b0).value;
        assert x + y + [FromYMD(year, row.month, row.day)] == x + (y + [FromYMD(year, row.month, row.day)]);
      }
    }
  }

  /** The date boundary yields one date per `values` row across all outer
      rows, so with `RowDatesValid` and `RowDatesInvalid` it fails exactly
      when some row is not a valid month and day of the year. */
  lemma {:induction false} DateMatchRows(year: int, rules: seq<DateRule>)
    ensures DateMatch(year, rules) == RowDates(year, AllRows(rules))
  {
    if rules != [] {
      DateMatchRows(year, rules[..|rules| - 1]);
      RowDatesAppend(year, AllRows(rules[..|rules| - 1]), rules[|rules| - 1].values);
    }
  }

  /** The `k`-th date is the `k`-th row's month and day in the given year. */
  lemma {:induction false} RowDatesAt(year: int, rows: seq<MonthDay>, k: int)
    requires RowDates(year, rows).Ok? && 0 <= k < |rows|
    ensures ValidYMD(year, rows[k].month, rows[k].day)
    ensures var d := RowDates(year, rows).value[k];
      d == FromYMD(year, rows[k].month, rows[k].day)
      && YearOf(d) == year && MonthOf(d) == rows[k].month && DayOfMonth(d) == rows[k].day
  {
    if k < |rows| - 1 {
      RowDatesAt(year, rows[..|rows| - 1], k);
    }
    FromYMDRoundTrip(year, rows[k].month, rows[k].day);
  }

  /** Rows that are all valid dates of the year never make it fail. */
  lemma {:induction false} RowDatesValid(year: int, rows: seq<MonthDay>)
    requires forall k :: 0 <= k < |rows| ==> ValidYMD(year, rows[k].month, rows[k].day)
    ensures RowDates(year, rows).Ok?
  {
    if rows != [] {
      RowDatesValid(year, rows[..|rows| - 1]);
    }
  }

  /** A row that is not a valid date of the year makes the boundary fail. */
  lemma {:induction false} RowDatesInvalid(year: int, rows: seq<MonthDay>, k: int)
    requires 0 <= k < |rows| && !ValidYMD(year, rows[k].month, rows[k].day)
    ensures RowDates(year, rows).Err?
  {
    if k < |rows| - 1 {
      RowDatesInvalid(year, rows[..|rows| - 1], k);
    }
  }

  // ---------------------------------------------------------------------
  // Distance boundary (boundary_distance.py)

  /** The span of a distance rule in days. */
  function SpanDays(rule: DistanceRule): (r: Result<int>)
    ensures r.Ok? <==> rule.value.IntValue? && rule.timeUnit in {"day", "week", "month"}
    ensures !rule.value.IntValue? ==> r == Err(DistanceValueNotInt)
    ensures rule.value.IntValue? && rule.timeUnit !in {"day", "week", "month"} ==> r == Err(UnknownDistanceUnit)
    ensures r.Ok? && rule.timeUnit == "day" ==> r.value == rule.value.n
    ensures r.Ok? && rule.timeUnit == "week" ==> r.value == 7 * rule.value.n
    ensures r.Ok? && rule.timeUnit == "month" ==> r.value == 30 * rule.value.n
  {
    match rule.value
    case IntValue(n) =>
      if rule.timeUnit == "day" then Ok(n)
      else if rule.timeUnit == "week" then Ok(n * 7)
      else if rule.timeUnit == "month" then Ok(n * 30)
      else Err(UnknownDistanceUnit)
    case _ => Err(DistanceValueNotInt)
  }

  /** Some day other than `d`, less than `span` days away, holds a selected
      event. */
  predicate ConflictInWindow(grouped: map<Date, seq<ScheduleEvent>>, d: Date, span: int) {
    exists x :: x in grouped && x != d && d - span + 1 <= x <= d + span - 1 && grouped[x] != []
  }

  /** The examination of one rule: the window `[d - span + 1, d + span - 1]`
      must start and end on a valid date, and it must hold `d` (a span of at
      least one day), otherwise removing `d` from it fails. */
  function RuleConflict(grouped: map<Date, seq<ScheduleEvent>>, d: Date, rule: DistanceRule): (r: Result<bool>)
  {
    match SpanDays(rule)
    case Err(e) => Err(e)
    case Ok(span) =>
      if d - span + 1 < 1 || d + span - 1 < 1 then Err(DateOutOfRange)
      else if span <= 0 then Err(EmptyExamineWindow)
      else Ok(ConflictInWindow(grouped, d, span))
  }

  /** The rules in order, stopping at the first conflict or error. */
  function RulesConflict(grouped: map<Date, seq<ScheduleEvent>>, d: Date, rules: seq<DistanceRule>): (r: Result<bool>)
  {
    if rules == [] then Ok(false)
    else
      match RuleConflict(grouped, d, rules[0])
      case Err(e) => Err(e)
      case Ok(c) => if c then Ok(true) else RulesConflict(grouped, d, rules[1..])
  }

  /** `__has_distance_conflict(sch, date, sch_event)`: a schedule without
      events never conflicts; otherwise the days of the event's id (all
      events for the falsy id 0) are examined rule by rule. */
  function HasDistanceConflict(s: ScheduleState, d: Date, ev: ScheduleEvent, rules: seq<DistanceRule>): (r: Result<bool>)
    requires forall x :: x in s.dates ==> x in s.days
    ensures rules == [] ==> r == Ok(false)
  {
    if EventsOf(s.dates, s.days, None) == [] then Ok(false)
    else RulesConflict(GroupedEvents(s.days, Some(ev.id)), d, rules)
  }

  /** The events of `events` without conflict on `d`, in order. */
  function KeepEligible(s: ScheduleState, d: Date, events: seq<ScheduleEvent>, rules: seq<DistanceRule>)
    : (r: Result<seq<ScheduleEvent>>)
    requires forall x :: x in s.dates ==> x in s.days
    ensures r.Ok? ==> |r.value| <= |events|
    ensures rules == [] ==> r == Ok(events)
  {
    if events == [] then Ok([])
    else
      match HasDistanceConflict(s, d, events[0], rules)
      case Err(e) => Err(e)
      case Ok(c) =>
        match KeepEligible(s, d, events[1..], rules)
        case Err(e) => Err(e)
        case Ok(rest) =>
          if c then Ok(rest)
          else
            assert [events[0]] + events[1..] == events;
            Ok([events[0]] + rest)
  }

  /** `BoundaryDistance.filter_eligible_events(ctx)`. More than one date is
      not supported; no date with some event fails when indexing the date. */
  function DistanceEligibleEvents(s: ScheduleState, dates: seq<Date>, events: seq<ScheduleEvent>,
                                  rules: seq<DistanceRule>): (r: Result<seq<ScheduleEvent>>)
    requires forall x :: x in s.dates ==> x in s.days
    ensures |dates| > 1 ==> r == Err(MultiDateDistance)
    ensures dates == [] && events != [] ==> r == Err(MissingProbeDate)
  {
    if |dates| > 1 then Err(MultiDateDistance)
    else if events == [] then Ok([])
    else if dates == [] then Err(MissingProbeDate)
    else KeepEligible(s, dates[0], events, rules)
  }

  /** `BoundaryDistance.filter_eligible_dates(ctx)`: the dates unchanged. */
  function DistanceEligibleDates(dates: seq<Date>): (r: seq<Date>)
    ensures r == dates
  {
    dates
  }

  /** The eligible events are the events without conflict, in order. */
  lemma {:induction false} KeepEligibleSpec(s: ScheduleState, d: Date, events: seq<ScheduleEvent>, rules: seq<DistanceRule>)
    requires forall x :: x in s.dates ==> x in s.days
    requires KeepEligible(s, d, events, rules).Ok?
    ensures var r := KeepEligible(s, d, events, rules).value;
      IsSubseq(r, events)
      && forall e :: e in r <==> e in events && HasDistanceConflict(s, d, e, rules) == Ok(false)
  {
    if events != [] {
      KeepEligibleSpec(s, d, events[1..], rules);
      var r := KeepEligible(s, d, events, rules).value;
      var rest := KeepEligible(s, d, events[1..], rules).value;
      if HasDistanceConflict(s, d, events[0], rules) == Ok(true) {
        SubseqCons(rest, events);
      } else {
        assert r == [events[0]] + rest;
        assert r[1..] == rest;
      }
      assert forall e :: e in events <==> e == events[0] || e in events[1..];
    }
  }

  /** A schedule holding no events gives no conflict: every event is eligible. */
  lemma {:induction false} NoEventsAllEligible(s: ScheduleState, d: Date, events: seq<ScheduleEvent>, rules: seq<DistanceRule>)
    requires forall x :: x in s.dates ==> x in s.days
    requires EventsOf(s.dates, s.days, None) == []
    ensures KeepEligible(s, d, events, rules) == Ok(events)
  {
    if events != [] {
      NoEventsAllEligible(s, d, events[1..], rules);
      assert [events[0]] + events[1..] == events;
    }
  }

  /** With a span of one day the examined window is `d` alone, so after
      removing `d` nothing is left and there is no conflict. */
  lemma SpanOneNoConflict(grouped: map<Date, seq<ScheduleEvent>>, d: Date)
    ensures RuleConflict(grouped, d, DistanceRule(IntValue(1), "day")) == Ok(false)
  {
  }

  /** The day `x` holds an event with id `id` (any event for the falsy 0). */
  predicate HoldsId(days: map<Date, seq<ScheduleEvent>>, x: Date, id: int) {
    x in days && exists e :: e in days[x] && (id == 0 || e.id == id)
  }

  lemma GroupedNonEmpty(days: map<Date, seq<ScheduleEvent>>, x: Date, id: int)
    requires x in days
    ensures GroupedEvents(days, Some(id))[x] != [] <==> HoldsId(days, x, id)
  {
    var g := GroupedEvents(days, Some(id))[x];
    assert g == Select(days[x], Some(id));
    if g != [] {
      assert g[0] in g;
    }
  }

  /** A conflict is another day within `span - 1` days of `d` that holds an
      event with the event's id (any event when the id is the falsy 0);
      events with other ids never cause one. */
  lemma ConflictWitness(s: ScheduleState, d: Date, ev: ScheduleEvent, rule: DistanceRule)
    requires forall x :: x in s.dates ==> x in s.days
    requires EventsOf(s.dates, s.days, None) != []
    requires SpanDays(rule).Ok? && SpanDays(rule).value >= 1 && d - SpanDays(rule).value + 1 >= 1
    ensures var span := SpanDays(rule).value;
      HasDistanceConflict(s, d, ev, [rule]) == Ok(true) <==>
        exists x :: x != d && d - span + 1 <= x <= d + span - 1 && HoldsId(s.days, x, ev.id)
  {
    var span := SpanDays(rule).value;
    var grouped := GroupedEvents(s.days, Some(ev.id));
    assert HasDistanceConflict(s, d, ev, [rule]) == RulesConflict(grouped, d, [rule]);
    assert RulesConflict(grouped, d, [rule]) == Ok(ConflictInWindow(grouped, d, span));
    if ConflictInWindow(grouped, d, span) {
      var x :| x in grouped && x != d && d - span + 1 <= x <= d + span - 1 && grouped[x] != [];
      GroupedNonEmpty(s.days, x, ev.id);
    }
    if exists x :: x != d && d - span + 1 <= x <= d + span - 1 && HoldsId(s.days, x, ev.id) {
      var x :| x != d && d - span + 1 <= x <= d + span - 1 && HoldsId(s.days, x, ev.id);
      GroupedNonEmpty(s.days, x, ev.id);
    }
  }
}
