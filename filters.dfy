/** The schedule event filters (core/schedule/schedule_event_filter.py):
    each filter maps a context (a schedule, the events under consideration
    and one date) to the events it lets through. */
module EventFilters {
  import opened Outcomes
  import opened Seqs
  import opened Calendar
  import opened ScheduleEvents
  import opened Schedules
  import opened Boundaries

  /** What a filter function is handed: the schedule, the events and the date. */
  datatype FilterContext = FilterContext(schedule: ScheduleState, events: seq<ScheduleEvent>, date: Date)

  /** The day map holds every listed date (as in every schedule the engine builds). */
  predicate Keyed(ctx: FilterContext) {
    forall x :: x in ctx.schedule.dates ==> x in ctx.schedule.days
  }

  /** The filter classes: the five defaults, the id exclusion and a custom
      filter wrapping a caller's function. */
  datatype EventFilter =
    | PlanningIntervalFilter
    | PlacingFilter
    | DateIntervalFilter
    | QuotaFilter
    | DistanceFilter
    | ExcludeIdsFilter(excluded: seq<int>)
    | CustomFilter(customName: string, fn: FilterContext -> Result<seq<ScheduleEvent>>)

  const CustomPrefix := "custom__"

  const DefaultPrefix := "default__"

  /** The name of a default filter after its `default__` prefix. */
  function DefaultSuffix(f: EventFilter): string
    requires !f.CustomFilter?
  {
    match f
    case PlanningIntervalFilter => "planning_interval_sch_event_filter"
    case PlacingFilter => "placing_sch_event_filter"
    case DateIntervalFilter => "date_interval_sch_event_filter"
    case QuotaFilter => "quota_sch_event_filter"
    case DistanceFilter => "distance_sch_event_filter"
    case ExcludeIdsFilter(_) => "exclude_event_ids_schedule_event_filter"
  }

  /** `get_name()`: `default__...` for the default filters, `custom__<name>`
      for a custom one. */
  function FilterName(f: EventFilter): (n: string)
    ensures f.CustomFilter? ==> |n| >= 8 && n[..8] == CustomPrefix && n[8..] == f.customName
    ensures !f.CustomFilter? ==> |n| > 9 && n[..9] == DefaultPrefix
  {
    if f.CustomFilter? then CustomPrefix + f.customName else DefaultPrefix + DefaultSuffix(f)
  }

  /** The date lies within the event's own `[mindate, maxdate]`; a missing
      bound does not restrict. */
  predicate InEventInterval(e: ScheduleEvent, d: Date) {
    (e.maxdate.None? || d <= e.maxdate.value) && (e.mindate.None? || d >= e.mindate.value)
  }

  function InIntervalOn(d: Date): ScheduleEvent -> bool {
    (e: ScheduleEvent) => InEventInterval(e, d)
  }

  function QuotaPassesOn(s: ScheduleState, d: Date): ScheduleEvent -> bool {
    (e: ScheduleEvent) => ValidateAddEvent(s, e, d) == Pass
  }

  function NotExcluded(ids: seq<int>): ScheduleEvent -> bool {
    (e: ScheduleEvent) => e.id !in ids
  }

  /** Every distance boundary of an event in order, each asked about the
      event alone on `d`; the first one that rejects it ends the scan. */
  function DistanceAccepts(s: ScheduleState, d: Date, bs: seq<Boundary>, ev: ScheduleEvent): (r: Result<bool>)
    requires forall x :: x in s.dates ==> x in s.days
  {
    if bs == [] then Ok(true)
    else if BoundaryClass(bs[0]) == "distance" then
      match DistanceEligibleEvents(s, [d], [ev], bs[0].distance)
      case Err(e) => Err(e)
      case Ok(kept) => if |kept| == 0 then Ok(false) else DistanceAccepts(s, d, bs[1..], ev)
    else DistanceAccepts(s, d, bs[1..], ev)
  }

  /** The events whose distance check passes, in order; the first error ends it. */
  function KeepAccepted(s: ScheduleState, d: Date, events: seq<ScheduleEvent>): (r: Result<seq<ScheduleEvent>>)
    requires forall x :: x in s.dates ==> x in s.days
  {
    if events == [] then Ok([])
    else
      match DistanceAccepts(s, d, events[0].boundaries, events[0])
      case Err(e) => Err(e)
      case Ok(a) =>
        match KeepAccepted(s, d, events[1..])
        case Err(e) => Err(e)
        case Ok(rest) => if a then Ok([events[0]] + rest) else Ok(rest)
  }

  /** The filter function of each filter class applied to a context. */
  function Apply(f: EventFilter, ctx: FilterContext): (r: Result<seq<ScheduleEvent>>)
    requires Keyed(ctx)
    ensures f.CustomFilter? ==> r == f.fn(ctx)
  {
    var s, d := ctx.schedule, ctx.date;
    match f
    case PlanningIntervalFilter =>
      if d > s.end then Ok([])
      else if d < s.start then Ok([])
      else Ok(ctx.events)
    case PlacingFilter =>
      if d !in s.days then Err(MissingDate)
      else if |s.days[d]| > 0 then Ok([])
      else Ok(ctx.events)
    case DateIntervalFilter => Ok(Filter(ctx.events, InIntervalOn(d)))
    case QuotaFilter => Ok(Filter(ctx.events, QuotaPassesOn(s, d)))
    case DistanceFilter => KeepAccepted(s, d, ctx.events)
    case ExcludeIdsFilter(ids) =>
      if |ids| == 0 then Ok(ctx.events) else Ok(Filter(ctx.events, NotExcluded(ids)))
    case CustomFilter(_, fn) => fn(ctx)
  }

  // ---------------------------------------------------------------------
  // Properties

  /** The names of the filter classes are pairwise different, and no default
      name can be taken by a custom filter. */
  lemma FilterNamesDistinct(f: EventFilter, g: EventFilter)
    requires !f.CustomFilter? && !g.CustomFilter?
    requires f.ExcludeIdsFilter? ==> !g.ExcludeIdsFilter?
    requires f != g
    ensures FilterName(f) != FilterName(g)
  {
    assert FilterName(f)[9..] == DefaultSuffix(f);
    assert FilterName(g)[9..] == DefaultSuffix(g);
  }

  lemma CustomNameNotDefault(f: EventFilter, g: EventFilter)
    requires f.CustomFilter? && !g.CustomFilter?
    ensures FilterName(f) != FilterName(g)
  {
    assert FilterName(f)[..8][0] == 'c';
    assert FilterName(g)[..9][0] == 'd';
  }

  lemma {:induction false} KeepAcceptedSpec(s: ScheduleState, d: Date, events: seq<ScheduleEvent>)
    requires forall x :: x in s.dates ==> x in s.days
    requires KeepAccepted(s, d, events).Ok?
    ensures var r := KeepAccepted(s, d, events).value;
      IsSubseq(r, events)
      && forall e :: e in r <==> e in events && DistanceAccepts(s, d, e.boundaries, e) == Ok(true)
  {
    if events != [] {
      KeepAcceptedSpec(s, d, events[1..]);
      var rest := KeepAccepted(s, d, events[1..]).value;
      if DistanceAccepts(s, d, events[0].boundaries, events[0]) == Ok(false) {
        SubseqCons(rest, events);
      } else {
        assert ([events[0]] + rest)[1..] == rest;
      }
      assert forall e :: e in events <==> e == events[0] || e in events[1..];
    }
  }

  /** A distance boundary asked about one event on one date keeps it exactly
      when the event has no conflict there. */
  lemma SingleEventEligible(s: ScheduleState, d: Date, ev: ScheduleEvent, rules: seq<DistanceRule>)
    requires forall x :: x in s.dates ==> x in s.days
    ensures var r := DistanceEligibleEvents(s, [d], [ev], rules);
      match HasDistanceConflict(s, d, ev, rules)
      case Err(e) => r == Err(e)
      case Ok(c) => r == Ok(if c then [] else [ev])
  {
    assert [ev][1..] == [];
    assert KeepEligible(s, d, [], rules) == Ok([]);
    match HasDistanceConflict(s, d, ev, rules)
    case Err(_) =>
    case Ok(c) => assert [ev] + [] == [ev];
  }

  /** The distance check accepts an event exactly when no distance boundary
      of it finds a conflict (given that none of them fails). */
  lemma {:induction false} DistanceAcceptsIff(s: ScheduleState, d: Date, bs: seq<Boundary>, ev: ScheduleEvent)
    requires forall x :: x in s.dates ==> x in s.days
    requires forall i :: 0 <= i < |bs| && bs[i].DistanceBoundary? ==> HasDistanceConflict(s, d, ev, bs[i].distance).Ok?
    ensures DistanceAccepts(s, d, bs, ev) == Ok(true) <==>
      forall i :: 0 <= i < |bs| && bs[i].DistanceBoundary? ==> HasDistanceConflict(s, d, ev, bs[i].distance) == Ok(false)
    ensures DistanceAccepts(s, d, bs, ev).Ok?
  {
    if bs != [] {
      DistanceAcceptsIff(s, d, bs[1..], ev);
      if bs[0].DistanceBoundary? {
        SingleEventEligible(s, d, ev, bs[0].distance);
      }
      assert forall i :: 1 <= i < |bs| ==> bs[i] == bs[1..][i - 1];
    }
  }

  /** An event without distance boundaries always passes the distance check. */
  lemma {:induction false} NoDistanceBoundaryAccepted(s: ScheduleState, d: Date, bs: seq<Boundary>, ev: ScheduleEvent)
    requires forall x :: x in s.dates ==> x in s.days
    requires forall b :: b in bs ==> !b.DistanceBoundary?
    ensures DistanceAccepts(s, d, bs, ev) == Ok(true)
  {
    if bs != [] {
      assert bs[0] in bs;
      NoDistanceBoundaryAccepted(s, d, bs[1..], ev);
    }
  }

  /** Every default filter lets through a subsequence of the context's
      events: it keeps their order and adds nothing. */
  lemma DefaultFilterSubseq(f: EventFilter, ctx: FilterContext)
    requires Keyed(ctx) && !f.CustomFilter? && Apply(f, ctx).Ok?
    ensures IsSubseq(Apply(f, ctx).value, ctx.events)
  {
    var s, d := ctx.schedule, ctx.date;
    match f
    case PlanningIntervalFilter => SubseqRefl(ctx.events);
    case PlacingFilter => SubseqRefl(ctx.events);
    case DateIntervalFilter => FilterIsSubseq(ctx.events, InIntervalOn(d));
    case QuotaFilter => FilterIsSubseq(ctx.events, QuotaPassesOn(s, d));
    case DistanceFilter => KeepAcceptedSpec(s, d, ctx.events);
    case ExcludeIdsFilter(ids) =>
      SubseqRefl(ctx.events);
      FilterIsSubseq(ctx.events, NotExcluded(ids));
  }

  /** Planning interval: nothing outside `[start, end]`, everything inside. */
  lemma PlanningIntervalSpec(ctx: FilterContext)
    requires Keyed(ctx)
    ensures ctx.date < ctx.schedule.start || ctx.date > ctx.schedule.end ==>
      Apply(PlanningIntervalFilter, ctx) == Ok([])
    ensures ctx.schedule.start <= ctx.date <= ctx.schedule.end ==>
      Apply(PlanningIntervalFilter, ctx) == Ok(ctx.events)
  {
  }

  /** Placing: a date of the schedule that already holds an event lets
      nothing through; an empty one lets everything through. */
  lemma PlacingSpec(ctx: FilterContext)
    requires Keyed(ctx)
    ensures ctx.date !in ctx.schedule.days ==> Apply(PlacingFilter, ctx) == Err(MissingDate)
    ensures ctx.date in ctx.schedule.days && ctx.schedule.days[ctx.date] != [] ==>
      Apply(PlacingFilter, ctx) == Ok([])
    ensures ctx.date in ctx.schedule.days && ctx.schedule.days[ctx.date] == [] ==>
      Apply(PlacingFilter, ctx) == Ok(ctx.events)
  {
  }

  /** Date interval: an event is kept exactly when the date is not after its
      maxdate and not before its mindate. */
  lemma DateIntervalSpec(ctx: FilterContext)
    requires Keyed(ctx)
    ensures Apply(DateIntervalFilter, ctx).Ok?
    ensures forall e :: e in Apply(DateIntervalFilter, ctx).value <==>
      e in ctx.events
      && (e.maxdate.None? || ctx.date <= e.maxdate.value)
      && (e.mindate.None? || ctx.date >= e.mindate.value)
  {
  }

  /** Quota: an event is kept exactly when `validate_quota` passes it on the date. */
  lemma QuotaSpec(ctx: FilterContext)
    requires Keyed(ctx)
    ensures Apply(QuotaFilter, ctx).Ok?
    ensures forall e :: e in Apply(QuotaFilter, ctx).value <==>
      e in ctx.events && ValidateAddEvent(ctx.schedule, e, ctx.date) == Pass
  {
  }

  /** Distance: an event is kept exactly when none of its distance boundaries
      finds a conflict on the date; events without one are always kept. */
  lemma DistanceSpec(ctx: FilterContext)
    requires Keyed(ctx) && Apply(DistanceFilter, ctx).Ok?
    ensures forall e :: e in Apply(DistanceFilter, ctx).value <==>
      e in ctx.events && DistanceAccepts(ctx.schedule, ctx.date, e.boundaries, e) == Ok(true)
    ensures forall e :: e in ctx.events && (forall b :: b in e.boundaries ==> !b.DistanceBoundary?) ==>
      e in Apply(DistanceFilter, ctx).value
  {
    KeepAcceptedSpec(ctx.schedule, ctx.date, ctx.events);
    forall e | e in ctx.events && (forall b :: b in e.boundaries ==> !b.DistanceBoundary?)
      ensures e in Apply(DistanceFilter, ctx).value
    {
      NoDistanceBoundaryAccepted(ctx.schedule, ctx.date, e.boundaries, e);
    }
  }

  /** Exclusion: no ids, no change; otherwise exactly the listed ids go. */
  lemma ExcludeIdsSpec(ctx: FilterContext, ids: seq<int>)
    requires Keyed(ctx)
    ensures ids == [] ==> Apply(ExcludeIdsFilter(ids), ctx) == Ok(ctx.events)
    ensures Apply(ExcludeIdsFilter(ids), ctx).Ok?
    ensures forall e :: e in Apply(ExcludeIdsFilter(ids), ctx).value <==> e in ctx.events && e.id !in ids
  {
  }
}
