/** `ScheduleBuilder` (core/schedule/schedule_builder.py): set-once planner
    and schedule, the candidate buckets built from the events' boundary
    rules, the planning pass over the buckets and the build status. */
module Builders {
  import opened Outcomes
  import opened Seqs
  import opened Calendar
  import opened ScheduleEvents
  import opened Schedules
  import opened Boundaries
  import opened EventFilters
  import opened RuleSets
  import opened ScheduleInputs

  /** `None`, then `plan_ok`, then `build_ok`. */
  datatype BuildStatus = Unset | PlanOk | BuildOk

  /** What a planner hands back for a date: a falsy value, an event, or some
      other truthy value. */
  datatype Pick = NoPick | Picked(event: ScheduleEvent) | OtherPick

  /** A planner's three decisions: for a date with no candidate event, with
      exactly one, and with several. */
  datatype Planner = Planner(
    planMissing: Date -> Pick,
    planSingle: (Date, ScheduleEvent) -> Pick,
    planResolve: (Date, seq<ScheduleEvent>) -> Pick)

  // ---------------------------------------------------------------------
  // build_candidates

  function InDates(ds: seq<Date>): Date -> bool {
    (d: Date) => d in ds
  }

  /** `sorted(all_dates_set & set(matches))` for the sorted schedule dates
      `allDates`: the schedule dates among the matches, in schedule order. */
  function Restrict(allDates: seq<Date>, matches: seq<Date>): (r: seq<Date>)
    ensures forall d :: d in r <==> d in allDates && d in matches
  {
    Filter(allDates, InDates(matches))
  }

  /** Restricting ascending dates keeps them ascending. */
  lemma {:induction false} RestrictAscending(allDates: seq<Date>, keep: Date -> bool)
    requires Ascending(allDates)
    ensures Ascending(Filter(allDates, keep))
  {
    if allDates != [] {
      RestrictAscending(allDates[1..], keep);
      var rest := Filter(allDates[1..], keep);
      forall x | x in rest ensures allDates[0] < x {
        var j :| 0 <= j < |allDates[1..]| && allDates[1..][j] == x;
        assert allDates[j + 1] == x;
      }
      if keep(allDates[0]) {
        var r := [allDates[0]] + rest;
        forall i, j | 0 <= i < j < |r| ensures r[i] < r[j] {
          assert r[j] == rest[j - 1] && r[j] in rest;
          if i > 0 {
            assert r[i] == rest[i - 1];
          }
        }
      }
    }
  }

  /** The dates one converted rule of an event matches: the date boundary
      gives its configured dates in `year`, the period boundary the matching
      schedule dates; the distance boundary cannot be instantiated, and a
      rule of another type has no `boundary` key. */
  function RuleMatches(rule: ConvertedRule, allDates: seq<Date>, year: int): (r: Result<seq<Date>>)
    ensures rule.PlainRule? ==> r == Err(NotABoundaryRule)
    ensures rule.ConvertedBoundary? && rule.config.DistanceBoundary? ==> r == Err(AbstractBoundary)
  {
    match rule
    case PlainRule(_) => Err(NotABoundaryRule)
    case ConvertedBoundary(b, _, _) =>
      match b
      case DateBoundary(rows) => DateMatch(year, rows)
      case PeriodBoundary(p) => PeriodMatch(p, allDates)
      case DistanceBoundary(_) => Err(AbstractBoundary)
  }

  /** The rules of one rule set applied in turn: each rule's matches replace
      the matching dates, so the last rule wins. */
  function SetMatching(rules: seq<ConvertedRule>, matching: seq<Date>, allDates: seq<Date>, year: int): (r: Result<seq<Date>>)
    ensures r.Ok? && (forall d :: d in matching ==> d in allDates) ==> forall d :: d in r.value ==> d in allDates
  {
    if rules == [] then Ok(matching)
    else
      match SetMatching(rules[..|rules| - 1], matching, allDates, year)
      case Err(e) => Err(e)
      case Ok(_) =>
        match RuleMatches(rules[|rules| - 1], allDates, year)
        case Err(e) => Err(e)
        case Ok(ms) => Ok(Restrict(allDates, ms))
  }

  /** The rule sets an event names, applied in turn; a name the conversion
      did not produce fails. */
  function EventMatching(names: seq<string>, converted: map<string, ConvertedSet>, matching: seq<Date>,
                         allDates: seq<Date>, year: int): (r: Result<seq<Date>>)
    ensures r.Ok? && (forall d :: d in matching ==> d in allDates) ==> forall d :: d in r.value ==> d in allDates
  {
    if names == [] then Ok(matching)
    else
      var last := names[|names| - 1];
      match EventMatching(names[..|names| - 1], converted, matching, allDates, year)
      case Err(e) => Err(e)
      case Ok(m) =>
        if last !in converted then Err(UnknownRuleSet)
        else SetMatching(converted[last].rules, m, allDates, year)
  }

  /** Appends `ev` to the bucket of each of the dates. */
  function AddToBuckets(buckets: map<Date, seq<ScheduleEvent>>, dates: seq<Date>, ev: ScheduleEvent)
    : (r: map<Date, seq<ScheduleEvent>>)
    requires forall d :: d in dates ==> d in buckets
    ensures r.Keys == buckets.Keys
  {
    if dates == [] then buckets
    else
      var prev := AddToBuckets(buckets, dates[..|dates| - 1], ev);
      var d := dates[|dates| - 1];
      prev[d := prev[d] + [ev]]
  }

  /** Each bucket gains the event once if its date is listed (each date
      listed once), and nothing otherwise. */
  lemma {:induction false} AddToBucketsAt(buckets: map<Date, seq<ScheduleEvent>>, dates: seq<Date>,
                                          ev: ScheduleEvent, d: Date)
    requires forall x :: x in dates ==> x in buckets
    requires Distinct(dates) && d in buckets
    ensures AddToBuckets(buckets, dates, ev)[d] == buckets[d] + if d in dates then [ev] else []
  {
    if dates != [] {
      var init := dates[..|dates| - 1];
      AddToBucketsAt(buckets, init, ev, d);
      assert d == dates[|dates| - 1] ==> d !in init by {
        DistinctNotInPrefix(dates, |dates| - 1);
      }
      assert d in dates <==> d in init || d == dates[|dates| - 1];
    }
  }

  /** What `build_candidates` carries from event to event: the matching
      dates (set once, before the first event), the events processed so far
      with their candidates set, and the buckets. */
  datatype Bucketing = Bucketing(matching: seq<Date>, events: seq<ScheduleEvent>, buckets: map<Date, seq<ScheduleEvent>>)

  /** The state reached and whether the pass failed; a failing event leaves
      the state as the previous events left it. */
  datatype BucketRun = BucketRun(state: Bucketing, outcome: Outcome)

  /** One event of the loop of `build_candidates`: with boundaries applied
      the event's rule sets decide its candidates, and an event whose rule
      sets hold no rules keeps the previous event's; without them the event
      gets all dates. The candidates are written into the event, which is
      appended to the bucket of each of them. */
  function BucketStep(b: Bucketing, ev: ScheduleEvent, converted: map<string, ConvertedSet>, applyBoundaries: bool,
                      allDates: seq<Date>, year: int): (r: Result<Bucketing>)
    requires forall d :: d in allDates ==> d in b.buckets
    requires forall d :: d in b.matching ==> d in allDates
    ensures r.Ok? ==> r.value.buckets.Keys == b.buckets.Keys && forall d :: d in r.value.matching ==> d in allDates
  {
    var m := if applyBoundaries then EventMatching(ev.rules, converted, b.matching, allDates, year) else Ok(allDates);
    match m
    case Err(e) => Err(e)
    case Ok(cands) =>
      var placed := ev.(candidates := Some(cands));
      Ok(Bucketing(cands, b.events + [placed], AddToBuckets(b.buckets, cands, placed)))
  }

  /** The loop of `build_candidates` over the events, one `BucketStep`
      each, stopping at the first failure. */
  function Bucket(events: seq<ScheduleEvent>, converted: map<string, ConvertedSet>, applyBoundaries: bool,
                  allDates: seq<Date>, year: int, days: map<Date, seq<ScheduleEvent>>): (r: BucketRun)
    requires forall d :: d in allDates ==> d in days
    ensures r.state.buckets.Keys == days.Keys
    ensures forall d :: d in r.state.matching ==> d in allDates
    ensures |r.state.events| <= |events|
  {
    if events == [] then BucketRun(Bucketing([], [], days), Pass)
    else
      var prev := Bucket(events[..|events| - 1], converted, applyBoundaries, allDates, year, days);
      if prev.outcome.Fail? then prev
      else
        match BucketStep(prev.state, events[|events| - 1], converted, applyBoundaries, allDates, year)
        case Err(e) => BucketRun(prev.state, Fail(e))
        case Ok(b) => BucketRun(b, Pass)
  }

  /** An event with candidates containing `d`. */
  function HasCandidate(d: Date): ScheduleEvent -> bool {
    (e: ScheduleEvent) => e.candidates.Some? && d in e.candidates.value
  }

  /** One step sets the event's candidates to ascending schedule dates,
      appends it and carries those dates on. */
  lemma BucketStepCandidates(b: Bucketing, ev: ScheduleEvent, converted: map<string, ConvertedSet>,
                             applyBoundaries: bool, allDates: seq<Date>, year: int)
    requires forall d :: d in allDates ==> d in b.buckets
    requires forall d :: d in b.matching ==> d in allDates
    requires Ascending(allDates) && Ascending(b.matching)
    requires BucketStep(b, ev, converted, applyBoundaries, allDates, year).Ok?
    ensures var nb := BucketStep(b, ev, converted, applyBoundaries, allDates, year).value;
      nb.events == b.events + [ev.(candidates := Some(nb.matching))]
      && Ascending(nb.matching) && forall d :: d in nb.matching ==> d in allDates
  {
    if applyBoundaries {
      EventMatchingAscending(ev.rules, converted, b.matching, allDates, year);
    }
  }

  /** The matching dates stay ascending, and a completed pass processes
      every event. */
  lemma {:induction false} BucketShape(events: seq<ScheduleEvent>, converted: map<string, ConvertedSet>,
                                       applyBoundaries: bool, allDates: seq<Date>, year: int,
                                       days: map<Date, seq<ScheduleEvent>>)
    requires forall d :: d in allDates ==> d in days
    requires Ascending(allDates)
    ensures var r := Bucket(events, converted, applyBoundaries, allDates, year, days);
      Ascending(r.state.matching) && (r.outcome.Pass? ==> |r.state.events| == |events|)
  {
    if events != [] {
      var init := events[..|events| - 1];
      BucketShape(init, converted, applyBoundaries, allDates, year, days);
      var prev := Bucket(init, converted, applyBoundaries, allDates, year, days);
      var r := Bucket(events, converted, applyBoundaries, allDates, year, days);
      if prev.outcome.Fail? {
        assert r == prev;
      } else {
        var step := BucketStep(prev.state, events[|events| - 1], converted, applyBoundaries, allDates, year);
        if step.Err? {
          assert r.state == prev.state;
        } else {
          assert r == BucketRun(step.value, Pass);
          BucketStepCandidates(prev.state, events[|events| - 1], converted, applyBoundaries, allDates, year);
        }
      }
    }
  }

  /** The `k`-th processed event is the `k`-th input event with its
      candidates set to schedule dates in ascending order. */
  lemma {:induction false} BucketCandidatesAt(events: seq<ScheduleEvent>, converted: map<string, ConvertedSet>,
                                              applyBoundaries: bool, allDates: seq<Date>, year: int,
                                              days: map<Date, seq<ScheduleEvent>>, k: int)
    requires forall d :: d in allDates ==> d in days
    requires Ascending(allDates)
    requires 0 <= k < |Bucket(events, converted, applyBoundaries, allDates, year, days).state.events|
    ensures var e := Bucket(events, converted, applyBoundaries, allDates, year, days).state.events[k];
      e == events[k].(candidates := e.candidates) && e.candidates.Some?
      && Ascending(e.candidates.value) && forall d :: d in e.candidates.value ==> d in allDates
  {
    var init := events[..|events| - 1];
    var prev := Bucket(init, converted, applyBoundaries, allDates, year, days);
    var r := Bucket(events, converted, applyBoundaries, allDates, year, days);
    if prev.outcome.Fail? {
      assert r == prev;
      BucketCandidatesAt(init, converted, applyBoundaries, allDates, year, days, k);
      assert init[k] == events[k];
    } else {
      var step := BucketStep(prev.state, events[|events| - 1], converted, applyBoundaries, allDates, year);
      if step.Err? {
        assert r.state == prev.state;
        BucketCandidatesAt(init, converted, applyBoundaries, allDates, year, days, k);
        assert init[k] == events[k];
      } else {
        assert r == BucketRun(step.value, Pass);
        BucketShape(init, converted, applyBoundaries, allDates, year, days);
        BucketStepCandidates(prev.state, events[|events| - 1], converted, applyBoundaries, allDates, year);
        if k < |prev.state.events| {
          assert r.state.events[k] == prev.state.events[k];
          BucketCandidatesAt(init, converted, applyBoundaries, allDates, year, days, k);
          assert init[k] == events[k];
        }
      }
    }
  }

  /** Every processed event is the input event with its candidates set to
      schedule dates in ascending order; a completed pass processes all. */
  lemma BucketCandidates(events: seq<ScheduleEvent>, converted: map<string, ConvertedSet>,
                         applyBoundaries: bool, allDates: seq<Date>, year: int,
                         days: map<Date, seq<ScheduleEvent>>)
    requires forall d :: d in allDates ==> d in days
    requires Ascending(allDates)
    ensures var r := Bucket(events, converted, applyBoundaries, allDates, year, days);
      (r.outcome.Pass? ==> |r.state.events| == |events|)
      && forall i :: 0 <= i < |r.state.events| ==>
        r.state.events[i] == events[i].(candidates := r.state.events[i].candidates)
        && r.state.events[i].candidates.Some?
        && Ascending(r.state.events[i].candidates.value)
        && forall d :: d in r.state.events[i].candidates.value ==> d in allDates
  {
    BucketShape(events, converted, applyBoundaries, allDates, year, days);
    var r := Bucket(events, converted, applyBoundaries, allDates, year, days);
    forall i | 0 <= i < |r.state.events|
      ensures r.state.events[i] == events[i].(candidates := r.state.events[i].candidates)
        && r.state.events[i].candidates.Some?
        && Ascending(r.state.events[i].candidates.value)
        && forall d :: d in r.state.events[i].candidates.value ==> d in allDates
    {
      BucketCandidatesAt(events, converted, applyBoundaries, allDates, year, days, i);
    }
  }

  /** Applying rule sets keeps the matching dates ascending. */
  lemma {:induction false} EventMatchingAscending(names: seq<string>, converted: map<string, ConvertedSet>,
                                                  matching: seq<Date>, allDates: seq<Date>, year: int)
    requires Ascending(allDates) && Ascending(matching)
    ensures EventMatching(names, converted, matching, allDates, year).Ok? ==>
      Ascending(EventMatching(names, converted, matching, allDates, year).value)
  {
    if names != [] {
      var init := names[..|names| - 1];
      EventMatchingAscending(init, converted, matching, allDates, year);
      var prev := EventMatching(init, converted, matching, allDates, year);
      if prev.Ok? && names[|names| - 1] in converted {
        SetMatchingAscending(converted[names[|names| - 1]].rules, prev.value, allDates, year);
      }
    }
  }

  lemma {:induction false} SetMatchingAscending(rules: seq<ConvertedRule>, matching: seq<Date>, allDates: seq<Date>, year: int)
    requires Ascending(allDates) && Ascending(matching)
    ensures SetMatching(rules, matching, allDates, year).Ok? ==> Ascending(SetMatching(rules, matching, allDates, year).value)
  {
    if rules != [] {
      SetMatchingAscending(rules[..|rules| - 1], matching, allDates, year);
      match RuleMatches(rules[|rules| - 1], allDates, year)
      case Err(_) =>
      case Ok(ms) => RestrictAscending(allDates, InDates(ms));
    }
  }

  /** Without boundaries, every event gets all schedule dates. */
  lemma {:induction false} BucketWithoutBoundaries(events: seq<ScheduleEvent>, converted: map<string, ConvertedSet>,
                                                   allDates: seq<Date>, year: int, days: map<Date, seq<ScheduleEvent>>)
    requires forall d :: d in allDates ==> d in days
    ensures var r := Bucket(events, converted, false, allDates, year, days);
      r.outcome.Pass? && |r.state.events| == |events|
      && forall i :: 0 <= i < |events| ==> r.state.events[i] == events[i].(candidates := Some(allDates))
  {
    if events != [] {
      var init := events[..|events| - 1];
      BucketWithoutBoundaries(init, converted, allDates, year, days);
      var prev := Bucket(init, converted, false, allDates, year, days);
      var r := Bucket(events, converted, false, allDates, year, days);
      var placed := events[|events| - 1].(candidates := Some(allDates));
      assert BucketStep(prev.state, events[|events| - 1], converted, false, allDates, year).value.events
        == prev.state.events + [placed];
      assert r.state.events == prev.state.events + [placed];
      forall i | 0 <= i < |events| ensures r.state.events[i] == events[i].(candidates := Some(allDates)) {
        if i < |init| {
          assert init[i] == events[i];
        }
      }
    }
  }

  /** One step appends the placed event to the bucket of `d` exactly when
      `d` is among its candidates. */
  lemma BucketStepBuckets(b: Bucketing, ev: ScheduleEvent, converted: map<string, ConvertedSet>,
                          applyBoundaries: bool, allDates: seq<Date>, year: int, d: Date)
    requires forall x :: x in allDates ==> x in b.buckets
    requires forall x :: x in b.matching ==> x in allDates
    requires Ascending(allDates) && Ascending(b.matching) && d in b.buckets
    requires BucketStep(b, ev, converted, applyBoundaries, allDates, year).Ok?
    ensures var nb := BucketStep(b, ev, converted, applyBoundaries, allDates, year).value;
      nb.buckets[d] == b.buckets[d] + Filter(nb.events[|b.events|..], HasCandidate(d))
  {
    BucketStepCandidates(b, ev, converted, applyBoundaries, allDates, year);
    var nb := BucketStep(b, ev, converted, applyBoundaries, allDates, year).value;
    var placed := ev.(candidates := Some(nb.matching));
    assert nb.events[|b.events|..] == [placed];
    AscendingDistinct(nb.matching);
    AddToBucketsAt(b.buckets, nb.matching, placed, d);
    assert Filter([placed], HasCandidate(d)) == if d in nb.matching then [placed] else [];
  }

  /** One step keeps a bucket made of `base` followed by the processed
      events that have its date among their candidates. */
  lemma BucketStepHolds(b: Bucketing, ev: ScheduleEvent, converted: map<string, ConvertedSet>,
                        applyBoundaries: bool, allDates: seq<Date>, year: int, d: Date, base: seq<ScheduleEvent>)
    requires forall x :: x in allDates ==> x in b.buckets
    requires forall x :: x in b.matching ==> x in allDates
    requires Ascending(allDates) && Ascending(b.matching) && d in b.buckets
    requires BucketStep(b, ev, converted, applyBoundaries, allDates, year).Ok?
    requires b.buckets[d] == base + Filter(b.events, HasCandidate(d))
    ensures var nb := BucketStep(b, ev, converted, applyBoundaries, allDates, year).value;
      nb.buckets[d] == base + Filter(nb.events, HasCandidate(d))
  {
    var nb := BucketStep(b, ev, converted, applyBoundaries, allDates, year).value;
    BucketStepBuckets(b, ev, converted, applyBoundaries, allDates, year, d);
    BucketStepCandidates(b, ev, converted, applyBoundaries, allDates, year);
    var tail := nb.events[|b.events|..];
    assert nb.events == b.events + tail;
    FilterAppend(b.events, tail, HasCandidate(d));
    ConcatAssoc(base, Filter(b.events, HasCandidate(d)), Filter(tail, HasCandidate(d)));
  }

  /** After the pass, each date's bucket holds the events it held before,
      then every processed event whose candidates contain that date, in
      event order. */
  lemma {:induction false} BucketsHoldCandidates(events: seq<ScheduleEvent>, converted: map<string, ConvertedSet>,
                                                 applyBoundaries: bool, allDates: seq<Date>, year: int,
                                                 days: map<Date, seq<ScheduleEvent>>, d: Date)
    requires forall x :: x in allDates ==> x in days
    requires Ascending(allDates) && d in days
    ensures var r := Bucket(events, converted, applyBoundaries, allDates, year, days);
      r.state.buckets[d] == days[d] + Filter(r.state.events, HasCandidate(d))
  {
    if events != [] {
      var init := events[..|events| - 1];
      BucketsHoldCandidates(init, converted, applyBoundaries, allDates, year, days, d);
      var prev := Bucket(init, converted, applyBoundaries, allDates, year, days);
      var r := Bucket(events, converted, applyBoundaries, allDates, year, days);
      if prev.outcome.Fail? {
        assert r == prev;
        assert r.state.buckets[d] == days[d] + Filter(r.state.events, HasCandidate(d));
      } else {
        var step := BucketStep(prev.state, events[|events| - 1], converted, applyBoundaries, allDates, year);
        if step.Err? {
          assert r.state == prev.state;
          assert r.state.buckets[d] == days[d] + Filter(r.state.events, HasCandidate(d));
        } else {
          assert r.state == step.value;
          BucketShape(init, converted, applyBoundaries, allDates, year, days);
          BucketStepHolds(prev.state, events[|events| - 1], converted, applyBoundaries, allDates, year, d, days[d]);
        }
      }
    }
  }

  lemma AscendingDistinct(s: seq<Date>)
    requires Ascending(s)
    ensures Distinct(s)
  {
  }

  /** An event whose named rule sets hold no rules keeps the matching dates
      of the event before it. */
  lemma {:induction false} EmptyRuleSetsCarryOver(names: seq<string>, converted: map<string, ConvertedSet>,
                                                  matching: seq<Date>, allDates: seq<Date>, year: int)
    requires forall n :: n in names ==> n in converted && converted[n].rules == []
    ensures EventMatching(names, converted, matching, allDates, year) == Ok(matching)
  {
    if names != [] {
      EmptyRuleSetsCarryOver(names[..|names| - 1], converted, matching, allDates, year);
    }
  }

  /** Within a rule set, the dates the rules matched before the last one do
      not matter: the result is the last rule's matches among the schedule
      dates. */
  lemma {:induction false} LastRuleWins(rules: seq<ConvertedRule>, m1: seq<Date>, m2: seq<Date>, allDates: seq<Date>, year: int)
    requires rules != [] && SetMatching(rules, m1, allDates, year).Ok? && SetMatching(rules, m2, allDates, year).Ok?
    ensures SetMatching(rules, m1, allDates, year) == SetMatching(rules, m2, allDates, year)
    ensures SetMatching(rules, m1, allDates, year) ==
      Ok(Restrict(allDates, RuleMatches(rules[|rules| - 1], allDates, year).value))
  {
  }

  // ---------------------------------------------------------------------
  // plan_schedule

  /** The planner's pick for a date, by the number of candidate events. */
  function PickFor(p: Planner, d: Date, bucket: seq<ScheduleEvent>): Pick {
    if |bucket| == 0 then p.planMissing(d)
    else if |bucket| == 1 then p.planSingle(d, bucket[0])
    else p.planResolve(d, bucket)
  }

  /** The loop of `plan_schedule` over the dates: falsy picks are passed
      over; the first other pick ends the pass, as a rejected non-event or
      as `add_event` refusing the single date it is handed. */
  function PlanOutcome(p: Option<Planner>, dates: seq<Date>, buckets: map<Date, seq<ScheduleEvent>>): (o: Outcome)
    requires forall d :: d in dates ==> d in buckets
    ensures dates == [] ==> o == Pass
    ensures p.None? && dates != [] ==> o == Fail(NoPlanner)
    ensures o.Fail? ==> o.error == NoPlanner || o.error == NotAnEvent || o.error == DatesNotAList
  {
    if dates == [] then Pass
    else if p.None? then Fail(NoPlanner)
    else
      match PickFor(p.value, dates[0], buckets[dates[0]])
      case NoPick => PlanOutcome(p, dates[1..], buckets)
      case OtherPick => Fail(NotAnEvent)
      case Picked(_) => Fail(DatesNotAList)
  }

  /** The pass succeeds exactly when every date's pick is falsy. */
  lemma {:induction false} PlanOutcomePass(p: Planner, dates: seq<Date>, buckets: map<Date, seq<ScheduleEvent>>)
    requires forall d :: d in dates ==> d in buckets
    ensures PlanOutcome(Some(p), dates, buckets).Pass? <==>
      forall i :: 0 <= i < |dates| ==> PickFor(p, dates[i], buckets[dates[i]]).NoPick?
  {
    if dates != [] {
      PlanOutcomePass(p, dates[1..], buckets);
      assert forall i :: 1 <= i < |dates| ==> dates[1..][i - 1] == dates[i];
    }
  }

  /** The first date whose pick is not falsy decides the failure: an event
      is handed to `add_event` as a single date and refused. */
  lemma {:induction false} PlanOutcomeFirstPick(p: Planner, dates: seq<Date>, buckets: map<Date, seq<ScheduleEvent>>, k: int)
    requires forall d :: d in dates ==> d in buckets
    requires 0 <= k < |dates| && !PickFor(p, dates[k], buckets[dates[k]]).NoPick?
    requires forall i :: 0 <= i < k ==> PickFor(p, dates[i], buckets[dates[i]]).NoPick?
    ensures PlanOutcome(Some(p), dates, buckets) ==
      if PickFor(p, dates[k], buckets[dates[k]]).Picked? then Fail(DatesNotAList) else Fail(NotAnEvent)
  {
    if k > 0 {
      assert forall i :: 0 <= i < k - 1 ==> dates[1..][i] == dates[i + 1];
      PlanOutcomeFirstPick(p, dates[1..], buckets, k - 1);
    }
  }

  /** The fields of a `ScheduleBuilder`, as one value. */
  datatype BuilderState = BuilderState(
    status: BuildStatus, allowCandidates: bool, applyBoundaries: bool,
    input: ScheduleInput?, planner: Option<Planner>, schedule: Schedule?,
    candidates: map<Date, seq<ScheduleEvent>>, candidateDates: seq<Date>, filters: seq<EventFilter>)

  class ScheduleBuilder {
    var status: BuildStatus
    /** The build options `build_candidates` and `apply_boundaries`. */
    var allowCandidates: bool
    var applyBoundaries: bool
    var input: ScheduleInput?
    var planner: Option<Planner>
    var schedule: Schedule?
    /** The candidate day map: a copy of the schedule's days taken by
        `set_schedule`, with its dates in key order. */
    var candidates: map<Date, seq<ScheduleEvent>>
    var candidateDates: seq<Date>
    /** The registered event filters, in registration order. */
    var filters: seq<EventFilter>

    ghost predicate Valid()
      reads this
    {
      Distinct(candidateDates) && forall d :: d in candidates <==> d in candidateDates
    }

    function Snapshot(): BuilderState
      reads this
    {
      BuilderState(status, allowCandidates, applyBoundaries, input, planner, schedule, candidates, candidateDates, filters)
    }

    constructor()
      ensures Valid()
      ensures status == Unset && allowCandidates && applyBoundaries
      ensures input == null && planner.None? && schedule == null
      ensures candidates == map[] && candidateDates == [] && filters == []
    {
      status := Unset;
      allowCandidates := true;
      applyBoundaries := true;
      input := null;
      planner := None;
      schedule := null;
      candidates := map[];
      candidateDates := [];
      filters := [];
    }

    /** `set_planner`: rejects a missing planner and any second planner. */
    method SetPlanner(p: Option<Planner>) returns (o: Outcome)
      modifies this
      ensures p.None? ==> o == Fail(NullPlanner)
      ensures p.Some? && old(planner).Some? ==> o == Fail(PlannerAlreadySet)
      ensures p.Some? && old(planner).None? ==> o == Pass
      ensures planner == if o.Pass? then p else old(planner)
      ensures status == old(status) && schedule == old(schedule) && input == old(input)
      ensures candidates == old(candidates) && candidateDates == old(candidateDates) && filters == old(filters)
      ensures allowCandidates == old(allowCandidates) && applyBoundaries == old(applyBoundaries)
    {
      if p.None? {
        return Fail(NullPlanner);
      }
      if planner.Some? {
        return Fail(PlannerAlreadySet);
      }
      planner := p;
      o := Pass;
    }

    /** `set_schedule`: rejects a missing schedule and any second schedule;
        the candidate map is a copy of the schedule's days, with the same
        dates, which later changes to the schedule do not reach. */
    method SetSchedule(s: Schedule?) returns (o: Outcome)
      requires s != null ==> s.Valid()
      modifies this
      ensures Valid() || old(!Valid())
      ensures s == null ==> o == Fail(NullSchedule)
      ensures s != null && old(schedule) != null ==> o == Fail(ScheduleAlreadySet)
      ensures s != null && old(schedule) == null ==> o == Pass
      ensures o.Pass? ==> schedule == s && candidates == s.days && candidateDates == s.dates
      ensures o.Fail? ==> schedule == old(schedule) && candidates == old(candidates) && candidateDates == old(candidateDates)
      ensures status == old(status) && planner == old(planner) && input == old(input) && filters == old(filters)
      ensures allowCandidates == old(allowCandidates) && applyBoundaries == old(applyBoundaries)
    {
      if s == null {
        return Fail(NullSchedule);
      }
      if schedule != null {
        return Fail(ScheduleAlreadySet);
      }
      schedule := s;
      candidates := s.days;
      candidateDates := s.dates;
      o := Pass;
    }

    /** `set_schedule_input`. */
    method SetScheduleInput(inp: ScheduleInput?)
      modifies this
      ensures input == inp
      ensures status == old(status) && planner == old(planner) && schedule == old(schedule) && filters == old(filters)
      ensures candidates == old(candidates) && candidateDates == old(candidateDates)
      ensures allowCandidates == old(allowCandidates) && applyBoundaries == old(applyBoundaries)
    {
      input := inp;
    }

    /** Registers an event filter after the ones before it. */
    method RegisterFilter(f: EventFilter)
      modifies this
      ensures filters == old(filters) + [f]
      ensures status == old(status) && planner == old(planner) && schedule == old(schedule) && input == old(input)
      ensures candidates == old(candidates) && candidateDates == old(candidateDates)
      ensures allowCandidates == old(allowCandidates) && applyBoundaries == old(applyBoundaries)
    {
      filters := filters + [f];
    }

    /** `build_candidates(boundaries)`, with the rule-set document and the
        names of the loaded boundary modules: refused when the option
        forbids it; a missing input fails when its events are fetched, and a
        builder whose schedule was never set fails at its candidate buckets,
        after the fetch has filled the input's cache. Otherwise the input's
        events (active or not) get their candidates and fill the buckets,
        and the input's cached list holds the events with their candidates,
        followed by any the pass did not reach. */
    method BuildCandidates(doc: RuleDoc, loaded: set<string>, year: int) returns (o: Outcome)
      requires Valid() && (input != null ==> input.Valid())
      modifies this, input
      ensures Valid() && input == old(input) && (input != null ==> input.Valid())
      ensures status == old(status) && planner == old(planner) && schedule == old(schedule) && filters == old(filters)
      ensures allowCandidates == old(allowCandidates) && applyBoundaries == old(applyBoundaries)
      ensures candidateDates == old(candidateDates)
      ensures !old(allowCandidates) ==>
        o == Fail(CandidatesNotAllowed) && candidates == old(candidates) && (input != null ==> unchanged(input))
      ensures old(allowCandidates) && input == null ==> o == Fail(NoScheduleInput) && candidates == old(candidates)
      ensures old(allowCandidates) && input != null ==>
        var events := if old(input.converted) && !old(input.requireActive) then old(input.eventData.value)
          else Events(old(input.rows), None);
        input.rows == old(input.rows) && input.initSchedule == old(input.initSchedule)
        && input.converted && !input.requireActive
        && (old(schedule) == null ==>
              o == Fail(NoCandidates) && candidates == old(candidates) && input.eventData == Some(events))
        && (old(schedule) != null ==>
              var conv := ConvertSpec(doc.ruleSets, loaded);
              var allDates := SortedDates(old(candidateDates));
              (conv.Err? ==> o == Fail(conv.error) && candidates == old(candidates) && input.eventData == Some(events))
              && (conv.Ok? ==>
                var run := Bucket(events, conv.value, old(applyBoundaries), allDates, year, old(candidates));
                o == run.outcome && candidates == run.state.buckets
                && input.eventData == Some(run.state.events + events[|run.state.events|..])))
    {
      if !allowCandidates {
        return Fail(CandidatesNotAllowed);
      }
      if input == null {
        return Fail(NoScheduleInput);
      }
      ConvertKeepsAll(input.rows, None);
      WithoutPrioUnchanged(input.rows);
      var fetched := input.GetEventData(false, None);
      // without `require_active` the conversion cannot fail
      assert fetched.Ok?;
      var events := fetched.value;
      if schedule == null {
        return Fail(NoCandidates);
      }
      var allDates := SortedDates(candidateDates);
      SortedDistinctAscending(candidateDates);
      var conv := ConvertRuleSet(doc, loaded);
      if conv.Err? {
        return Fail(conv.error);
      }
      var run := ComputeCandidates(events, conv.value, applyBoundaries, allDates, year, candidates);
      candidates := run.state.buckets;
      input.eventData := Some(run.state.events + events[|run.state.events|..]);
      o := run.outcome;
    }

    /** `plan_schedule()`: the dates in ascending order, each handed to the
        planner by the number of its candidate events; see `PlanOutcome`.
        The schedule is not changed, since `add_event` refuses a single date
        before touching it. A builder whose schedule was never set has no
        candidate buckets to read. */
    method PlanSchedule() returns (o: Outcome)
      requires Valid() && (schedule != null ==> schedule.Valid())
      modifies this, schedule, if schedule != null then {schedule.quota} else {}
      ensures schedule == old(schedule)
      ensures Valid() && (schedule != null ==> schedule.Valid() && schedule.State() == old(schedule.State()))
      ensures schedule == null ==> o == Fail(NoCandidates)
      ensures schedule != null ==> o == PlanOutcome(planner, SortedDates(candidateDates), candidates)
      ensures status == if o.Pass? then PlanOk else old(status)
      ensures planner == old(planner) && schedule == old(schedule) && input == old(input) && filters == old(filters)
      ensures candidates == old(candidates) && candidateDates == old(candidateDates)
      ensures allowCandidates == old(allowCandidates) && applyBoundaries == old(applyBoundaries)
    {
      if schedule == null {
        return Fail(NoCandidates);
      }
      SortedDistinctAscending(candidateDates);
      o := PlanDates(planner, SortedDates(candidateDates), candidates, schedule);
      if o.Pass? {
        status := PlanOk;
      }
    }

    /** `build()`: only a planned build may be built. */
    method Build() returns (o: Outcome)
      modifies this
      ensures o.Pass? <==> old(status) == PlanOk
      ensures o.Fail? ==> o.error == NotPlanned
      ensures status == if o.Pass? then BuildOk else old(status)
      ensures planner == old(planner) && schedule == old(schedule) && input == old(input) && filters == old(filters)
      ensures candidates == old(candidates) && candidateDates == old(candidateDates)
      ensures allowCandidates == old(allowCandidates) && applyBoundaries == old(applyBoundaries)
    {
      if status != PlanOk {
        return Fail(NotPlanned);
      }
      status := BuildOk;
      o := Pass;
    }

    /** `reset(build_options)`: the status is cleared and the given options
        replace the current ones. */
    method Reset(allow: Option<bool>, apply: Option<bool>)
      modifies this
      ensures status == Unset
      ensures allowCandidates == allow.GetOr(old(allowCandidates))
      ensures applyBoundaries == apply.GetOr(old(applyBoundaries))
      ensures planner == old(planner) && schedule == old(schedule) && input == old(input) && filters == old(filters)
      ensures candidates == old(candidates) && candidateDates == old(candidateDates)
    {
      status := Unset;
      allowCandidates := allow.GetOr(allowCandidates);
      applyBoundaries := apply.GetOr(applyBoundaries);
    }

    /** `extract_schedule()`: the schedule, once built. */
    function ExtractSchedule(): (r: Result<Schedule?>)
      reads this
      ensures r.Ok? <==> status == BuildOk
      ensures r.Ok? ==> r.value == schedule
      ensures r.Err? ==> r.error == NotBuilt
    {
      if status != BuildOk then Err(NotBuilt) else Ok(schedule)
    }
  }

  /** The loop of `plan_schedule` over the dates, handing a picked event to
      the schedule's `add_event`. */
  method PlanDates(planner: Option<Planner>, dates: seq<Date>, buckets: map<Date, seq<ScheduleEvent>>, schedule: Schedule)
    returns (o: Outcome)
    requires forall d :: d in dates ==> d in buckets
    requires schedule.Valid()
    modifies schedule, schedule.quota
    ensures schedule.Valid() && schedule.State() == old(schedule.State())
    ensures o == PlanOutcome(planner, dates, buckets)
  {
    var i := 0;
    while i < |dates|
      invariant 0 <= i <= |dates|
      invariant PlanOutcome(planner, dates, buckets) == PlanOutcome(planner, dates[i..], buckets)
    {
      assert dates[i..][1..] == dates[i + 1..];
      if planner.None? {
        return Fail(NoPlanner);
      }
      var pick := PickFor(planner.value, dates[i], buckets[dates[i]]);
      match pick
      case OtherPick =>
        return Fail(NotAnEvent);
      case Picked(ev) =>
        o := schedule.AddEvent(NotAList, ev);
        return;
      case NoPick =>
      i := i + 1;
    }
    o := Pass;
  }

  // ---------------------------------------------------------------------
  // The loops of build_candidates

  /** The loop over the events. */
  method ComputeCandidates(events: seq<ScheduleEvent>, converted: map<string, ConvertedSet>, applyBoundaries: bool,
                           allDates: seq<Date>, year: int, days: map<Date, seq<ScheduleEvent>>) returns (run: BucketRun)
    requires forall d :: d in allDates ==> d in days
    ensures run == Bucket(events, converted, applyBoundaries, allDates, year, days)
  {
    var b := Bucketing([], [], days);
    var i := 0;
    while i < |events|
      invariant 0 <= i <= |events|
      invariant Bucket(events[..i], converted, applyBoundaries, allDates, year, days) == BucketRun(b, Pass)
    {
      assert events[..i + 1][..i] == events[..i];
      var next := PlaceEvent(b, events[i], converted, applyBoundaries, allDates, year);
      if next.Err? {
        BucketStops(events, converted, applyBoundaries, allDates, year, days, i + 1);
        return BucketRun(b, Fail(next.error));
      }
      assert Bucket(events[..i + 1], converted, applyBoundaries, allDates, year, days) == BucketRun(next.value, Pass);
      b := next.value;
      i := i + 1;
    }
    assert events[..i] == events;
    run := BucketRun(b, Pass);
  }

  /** The body of the loop over the events. */
  method PlaceEvent(b: Bucketing, ev: ScheduleEvent, converted: map<string, ConvertedSet>, applyBoundaries: bool,
                    allDates: seq<Date>, year: int) returns (r: Result<Bucketing>)
    requires forall d :: d in allDates ==> d in b.buckets
    requires forall d :: d in b.matching ==> d in allDates
    ensures r == BucketStep(b, ev, converted, applyBoundaries, allDates, year)
  {
    var cands := allDates;
    if applyBoundaries {
      var m := MatchEvent(ev.rules, converted, b.matching, allDates, year);
      if m.Err? {
        return Err(m.error);
      }
      cands := m.value;
    }
    var placed := ev.(candidates := Some(cands));
    var buckets := AddEventToBuckets(b.buckets, cands, placed);
    r := Ok(Bucketing(cands, b.events + [placed], buckets));
  }

  /** Once an event fails, later events are not processed. */
  lemma {:induction false} BucketStops(events: seq<ScheduleEvent>, converted: map<string, ConvertedSet>, applyBoundaries: bool,
                                       allDates: seq<Date>, year: int, days: map<Date, seq<ScheduleEvent>>, n: int)
    requires forall d :: d in allDates ==> d in days
    requires 0 <= n <= |events| && Bucket(events[..n], converted, applyBoundaries, allDates, year, days).outcome.Fail?
    ensures Bucket(events, converted, applyBoundaries, allDates, year, days) ==
      Bucket(events[..n], converted, applyBoundaries, allDates, year, days)
  {
    if n < |events| {
      var init := events[..|events| - 1];
      assert init[..n] == events[..n];
      BucketStops(init, converted, applyBoundaries, allDates, year, days, n);
    } else {
      assert events[..n] == events;
    }
  }

  /** The loops over an event's rule-set names and each set's rules. */
  method MatchEvent(names: seq<string>, converted: map<string, ConvertedSet>, matching: seq<Date>,
                    allDates: seq<Date>, year: int) returns (r: Result<seq<Date>>)
    ensures r == EventMatching(names, converted, matching, allDates, year)
  {
    var m := matching;
    var i := 0;
    while i < |names|
      invariant 0 <= i <= |names|
      invariant EventMatching(names[..i], converted, matching, allDates, year) == Ok(m)
    {
      assert names[..i + 1][..i] == names[..i];
      if names[i] !in converted {
        EventMatchingStops(names, converted, matching, allDates, year, i + 1);
        return Err(UnknownRuleSet);
      }
      var next := MatchRuleSet(converted[names[i]].rules, m, allDates, year);
      if next.Err? {
        EventMatchingStops(names, converted, matching, allDates, year, i + 1);
        return next;
      }
      m := next.value;
      i := i + 1;
    }
    assert names[..i] == names;
    r := Ok(m);
  }

  lemma {:induction false} EventMatchingStops(names: seq<string>, converted: map<string, ConvertedSet>, matching: seq<Date>,
                                              allDates: seq<Date>, year: int, n: int)
    requires 0 <= n <= |names| && EventMatching(names[..n], converted, matching, allDates, year).Err?
    ensures EventMatching(names, converted, matching, allDates, year) == EventMatching(names[..n], converted, matching, allDates, year)
  {
    if n < |names| {
      var init := names[..|names| - 1];
      assert init[..n] == names[..n];
      EventMatchingStops(init, converted, matching, allDates, year, n);
    } else {
      assert names[..n] == names;
    }
  }

  method MatchRuleSet(rules: seq<ConvertedRule>, matching: seq<Date>, allDates: seq<Date>, year: int)
    returns (r: Result<seq<Date>>)
    ensures r == SetMatching(rules, matching, allDates, year)
  {
    var m := matching;
    var j := 0;
    while j < |rules|
      invariant 0 <= j <= |rules|
      invariant SetMatching(rules[..j], matching, allDates, year) == Ok(m)
    {
      assert rules[..j + 1][..j] == rules[..j];
      var ms := RuleMatches(rules[j], allDates, year);
      if ms.Err? {
        SetMatchingStops(rules, matching, allDates, year, j + 1);
        return Err(ms.error);
      }
      m := Restrict(allDates, ms.value);
      j := j + 1;
    }
    assert rules[..j] == rules;
    r := Ok(m);
  }

  lemma {:induction false} SetMatchingStops(rules: seq<ConvertedRule>, matching: seq<Date>, allDates: seq<Date>, year: int, n: int)
    requires 0 <= n <= |rules| && SetMatching(rules[..n], matching, allDates, year).Err?
    ensures SetMatching(rules, matching, allDates, year) == SetMatching(rules[..n], matching, allDates, year)
  {
    if n < |rules| {
      var init := rules[..|rules| - 1];
      assert init[..n] == rules[..n];
      SetMatchingStops(init, matching, allDates, year, n);
    } else {
      assert rules[..n] == rules;
    }
  }

  /** The loop appending the event to the bucket of each candidate date. */
  method AddEventToBuckets(buckets: map<Date, seq<ScheduleEvent>>, dates: seq<Date>, ev: ScheduleEvent)
    returns (r: map<Date, seq<ScheduleEvent>>)
    requires forall d :: d in dates ==> d in buckets
    ensures r == AddToBuckets(buckets, dates, ev)
  {
    r := buckets;
    var k := 0;
    while k < |dates|
      invariant 0 <= k <= |dates|
      invariant r == AddToBuckets(buckets, dates[..k], ev)
    {
      assert dates[..k + 1][..k] == dates[..k];
      r := r[dates[k] := r[dates[k]] + [ev]];
      k := k + 1;
    }
    assert dates[..k] == dates;
  }
}
