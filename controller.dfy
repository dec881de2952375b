/** `AutomatorController` (automator_controller.py): the entry point of a
    scheduling run. It keeps the options and the custom event filters, adds
    the names of the global rule sets to every event's rules, validates the
    input, and lets the scheduler create the schedule up to `iterations`
    times, feeding each schedule back as the next run's initial schedule and
    stopping once a schedule is complete or fails validation. */
module Controllers {
  import opened Outcomes
  import opened Seqs
  import opened ScheduleEvents
  import opened Schedules
  import opened EventFilters
  import opened RuleSets
  import opened ScheduleInputs
  import opened Builders

  // ---------------------------------------------------------------------
  // Values

  /** What `pre_validate` and `post_validate` report: whether the input is
      valid, the data of the findings, and the message. */
  datatype Validation = Validation(ok: bool, data: seq<string>, msg: Option<string>)

  /** The recorded build error: `dict(validation_data=..., msg=...)`. */
  datatype BuildError = BuildError(validationData: seq<string>, msg: Option<string>)

  /** A column of the build error, and what `get_build_error` hands back. */
  datatype ErrorColumn = MsgColumn | DataColumn
  datatype ErrorPart = WholeError(error: Option<BuildError>) | MsgPart(msg: Option<string>) | DataPart(data: seq<string>)

  /** The `planning` build option, with its optional `exclude_event_ids`. */
  datatype PlanningOptions = PlanningOptions(excludeEventIds: Option<seq<int>>)

  /** What the scheduler is created with: the planner, the initial schedule,
      the excluded event ids and the custom event filters. */
  datatype SchedulerSetup = SchedulerSetup(
    planner: Planner, initial: Option<ScheduleState>, excluded: seq<int>, filters: seq<EventFilter>)

  /** The validator, the scheduler and the completeness test, which lie
      outside this model. The source hands `create_schedule` the whole
      input; `create` here sees only the part of it this model varies, the
      input's event rows and its current initial schedule, and the input's
      rule sets, which stay fixed across iterations, are folded into the
      service itself. */
  datatype Services = Services(
    preValidate: (seq<EventRow>, seq<RuleDoc>, Option<ScheduleState>) -> Validation,
    create: (SchedulerSetup, seq<EventRow>, Option<ScheduleState>) -> ScheduleState,
    postValidate: ScheduleState -> Validation,
    complete: ScheduleState -> bool)

  /** What `build` returns: `False` after a failed validation, the last
      schedule (`None` when no iteration ran), or an exception. */
  datatype BuildResult = Invalid | Built(schedule: Option<ScheduleState>) | Raised(error: Error)

  // ---------------------------------------------------------------------
  // Global rules

  /** The names of the rule sets in `rs`. */
  function NamesOf(rs: seq<RuleSet>): (r: set<string>)
    ensures forall x :: x in r <==> exists i :: 0 <= i < |rs| && rs[i].name == x
  {
    set i | 0 <= i < |rs| :: rs[i].name
  }

  /** The names of the rule sets of every document whose scope is
      `global`, document after document. */
  function GlobalNames(docs: seq<RuleDoc>): (r: set<string>)
  {
    if docs == [] then {}
    else
      var last := docs[|docs| - 1];
      GlobalNames(docs[..|docs| - 1]) + if last.scope == "global" then NamesOf(last.ruleSets) else {}
  }

  /** A name is global exactly when some global document has a rule set of
      that name. */
  lemma {:induction false} GlobalNamesSpec(docs: seq<RuleDoc>, x: string)
    ensures x in GlobalNames(docs) <==>
      exists i, j :: 0 <= i < |docs| && docs[i].scope == "global" && 0 <= j < |docs[i].ruleSets| && docs[i].ruleSets[j].name == x
  {
    if docs != [] {
      var init := docs[..|docs| - 1];
      GlobalNamesSpec(init, x);
      if x in GlobalNames(init) {
        var i, j :| 0 <= i < |init| && init[i].scope == "global" && 0 <= j < |init[i].ruleSets| && init[i].ruleSets[j].name == x;
        assert docs[i] == init[i];
      }
      if exists i, j :: 0 <= i < |docs| && docs[i].scope == "global" && 0 <= j < |docs[i].ruleSets| && docs[i].ruleSets[j].name == x {
        var i, j :| 0 <= i < |docs| && docs[i].scope == "global" && 0 <= j < |docs[i].ruleSets| && docs[i].ruleSets[j].name == x;
        if i < |docs| - 1 {
          assert init[i] == docs[i];
        }
      }
    }
  }

  /** The first loop of `build`: the set of global rule-set names. */
  method CollectGlobalNames(docs: seq<RuleDoc>) returns (g: set<string>)
    ensures g == GlobalNames(docs)
  {
    g := {};
    for i := 0 to |docs|
      invariant g == GlobalNames(docs[..i])
    {
      assert docs[..i + 1][..i] == docs[..i];
      var doc := docs[i];
      if doc.scope == "global" {
        g := AddNames(g, doc.ruleSets);
      }
    }
    assert docs[..|docs|] == docs;
  }

  /** The inner loop: each rule set's name joins the set. */
  method AddNames(g0: set<string>, rs: seq<RuleSet>) returns (g: set<string>)
    ensures g == g0 + NamesOf(rs)
  {
    g := g0;
    for j := 0 to |rs|
      invariant g == g0 + NamesOf(rs[..j])
    {
      assert NamesOf(rs[..j + 1]) == NamesOf(rs[..j]) + {rs[j].name} by {
        assert forall k :: 0 <= k < j ==> rs[..j + 1][k] == rs[..j][k];
      }
      g := g + {rs[j].name};
    }
    assert rs[..|rs|] == rs;
  }

  /** `list(s)`: the elements of a set, each once, in some order. */
  method ListOfSet(s: set<string>) returns (r: seq<string>)
    ensures Distinct(r) && forall x :: x in r <==> x in s
  {
    r := [];
    var left := s;
    while left != {}
      invariant left <= s && Distinct(r)
      invariant forall x :: x in r <==> x in s && x !in left
      decreases |left|
    {
      var x :| x in left;
      r := r + [x];
      left := left - {x};
    }
  }

  /** The row `after` is the row `before` with the global names `g` added
      to its rules, each rule once. */
  ghost predicate Injected(before: EventRow, after: EventRow, g: set<string>) {
    after == before.(rules := after.rules)
    && Distinct(after.rules)
    && forall x :: x in after.rules <==> x in before.rules || x in g
  }

  /** The injection loop of `build`: every row gets the global rule-set
      names; `list(set(...))` leaves each name once, in an order Python does
      not fix. */
  method InjectGlobalRules(rows: seq<EventRow>, docs: seq<RuleDoc>) returns (out: seq<EventRow>)
    ensures |out| == |rows|
    ensures forall i :: 0 <= i < |rows| ==> Injected(rows[i], out[i], GlobalNames(docs))
  {
    var g := CollectGlobalNames(docs);
    var names := ListOfSet(g);
    out := [];
    for i := 0 to |rows|
      invariant |out| == i
      invariant forall k :: 0 <= k < i ==> Injected(rows[k], out[k], g)
    {
      var row := rows[i];
      out := out + [row.(rules := Dedup(row.rules + names))];
    }
  }

  /** Pairwise different sequences with the same elements are permutations
      of each other. */
  lemma SameElementsPermutation(s: seq<string>, t: seq<string>)
    requires Distinct(s) && Distinct(t)
    requires forall x :: x in s <==> x in t
    ensures multiset(s) == multiset(t)
  {
    forall x ensures multiset(s)[x] == multiset(t)[x] {
      DistinctMultiplicity(s, x);
      DistinctMultiplicity(t, x);
      if x in s {
        assert x in multiset(s) && x in multiset(t);
      } else {
        assert x !in multiset(s) && x !in multiset(t);
      }
    }
  }

  /** Injection fixes a row's rules up to their order. */
  lemma InjectionDeterminate(before: EventRow, a: EventRow, b: EventRow, g: set<string>)
    requires Injected(before, a, g) && Injected(before, b, g)
    ensures a == b.(rules := a.rules) && multiset(a.rules) == multiset(b.rules)
  {
    SameElementsPermutation(a.rules, b.rules);
  }

  /** Injecting the same global names a second time changes a row's rules
      only in their order. */
  lemma InjectionIdempotent(before: EventRow, once: EventRow, twice: EventRow, g: set<string>)
    requires Injected(before, once, g) && Injected(once, twice, g)
    ensures twice == once.(rules := twice.rules) && multiset(twice.rules) == multiset(once.rules)
  {
    SameElementsPermutation(twice.rules, once.rules);
  }

  // ---------------------------------------------------------------------
  // The iteration loop

  /** Why the loop ended, or that it goes on. */
  datatype Stop = Running | Completed | Rejected(validation: Validation)

  /** The loop after some iterations: the last schedule created, the
      input's initial schedule, how many schedules were created, and why
      the loop stopped. */
  datatype Progress = Progress(schedule: Option<ScheduleState>, feed: Option<ScheduleState>, runs: nat, stop: Stop)

  /** The loop of `build` after `k` passes of `range(iterations)`: the
      first pass creates from the initial schedule, each later one from the
      schedule before it; a schedule that fails `post_validate` or is
      complete ends the loop. */
  function Iterate(sv: Services, setup: SchedulerSetup, rows: seq<EventRow>, init: Option<ScheduleState>, k: nat): (p: Progress)
    ensures p.runs <= k
    ensures p.stop.Running? ==> p.runs == k
    ensures p.runs == 0 <==> p.schedule.None?
    ensures p.runs == 0 ==> p.feed == init
    ensures p.schedule.Some? ==> p.schedule.value == sv.create(setup, rows, p.feed)
    ensures p.stop.Completed? ==> p.schedule.Some? && sv.complete(p.schedule.value) && sv.postValidate(p.schedule.value).ok
    ensures p.stop.Rejected? ==>
      p.schedule.Some? && p.stop.validation == sv.postValidate(p.schedule.value) && !p.stop.validation.ok
    ensures p.stop.Running? && p.schedule.Some? ==>
      !sv.complete(p.schedule.value) && sv.postValidate(p.schedule.value).ok
  {
    if k == 0 then Progress(None, init, 0, Running)
    else
      var prev := Iterate(sv, setup, rows, init, k - 1);
      if !prev.stop.Running? then prev
      else
        var feed := if k > 1 then prev.schedule else prev.feed;
        var s := sv.create(setup, rows, feed);
        var v := sv.postValidate(s);
        Progress(Some(s), feed, prev.runs + 1, if !v.ok then Rejected(v) else if sv.complete(s) then Completed else Running)
  }

  /** Once the loop has stopped, later passes change nothing: no further
      schedule is created. */
  lemma {:induction false} IterateStops(sv: Services, setup: SchedulerSetup, rows: seq<EventRow>, init: Option<ScheduleState>, j: nat, k: nat)
    requires j <= k && !Iterate(sv, setup, rows, init, j).stop.Running?
    ensures Iterate(sv, setup, rows, init, k) == Iterate(sv, setup, rows, init, j)
    decreases k - j
  {
    if j < k {
      IterateStops(sv, setup, rows, init, j, k - 1);
    }
  }

  /** From the second iteration on, each schedule is created from the
      schedule of the iteration before it. */
  lemma FeedBack(sv: Services, setup: SchedulerSetup, rows: seq<EventRow>, init: Option<ScheduleState>, k: nat, j: nat)
    requires 2 <= j <= Iterate(sv, setup, rows, init, k).runs
    ensures var prev := Iterate(sv, setup, rows, init, j - 1);
      prev.schedule.Some? && Iterate(sv, setup, rows, init, j).feed == prev.schedule
      && Iterate(sv, setup, rows, init, j).schedule == Some(sv.create(setup, rows, prev.schedule))
  {
    if !Iterate(sv, setup, rows, init, j - 1).stop.Running? {
      IterateStops(sv, setup, rows, init, j - 1, k);
      assert false;
    }
  }

  /** The loop ends with the schedule of its last iteration, and it ends
      before `iterations` only at a schedule that is complete or fails
      `post_validate`. */
  lemma {:induction false} EndsAtLastRun(sv: Services, setup: SchedulerSetup, rows: seq<EventRow>, init: Option<ScheduleState>, k: nat)
    ensures var p := Iterate(sv, setup, rows, init, k);
      Iterate(sv, setup, rows, init, p.runs) == p
      && (p.runs < k ==> p.schedule.Some? && (sv.complete(p.schedule.value) || !sv.postValidate(p.schedule.value).ok))
  {
    if k > 0 && !Iterate(sv, setup, rows, init, k - 1).stop.Running? {
      EndsAtLastRun(sv, setup, rows, init, k - 1);
    }
  }

  // ---------------------------------------------------------------------
  // The controller

  class AutomatorController {
    /** `__built_run` and `__build_error`. */
    var builtRun: bool
    var buildError: Option<BuildError>
    /** The `iterations` and `planning` build options. */
    var iterations: int
    var planning: Option<PlanningOptions>
    /** `__planner`, absent until `set_planner`. */
    var planner: Option<Planner>
    /** `__initial_schedule`. */
    var initialSchedule: Option<ScheduleState>
    /** `__sch_event_filters`. */
    var filters: seq<EventFilter>

    constructor Init(iterations: int, planning: Option<PlanningOptions>)
      ensures !builtRun && buildError.None? && planner.None? && initialSchedule.None? && filters == []
      ensures this.iterations == iterations && this.planning == planning
    {
      builtRun := false;
      buildError := None;
      this.iterations := iterations;
      this.planning := planning;
      planner := None;
      initialSchedule := None;
      filters := [];
    }

    /** `AutomatorController(...)` with the given build options: zero
        iterations are refused. */
    static method New(iterations: int, planning: Option<PlanningOptions>) returns (r: Result<AutomatorController>)
      ensures r.Err? <==> iterations == 0
      ensures r.Err? ==> r.error == ZeroIterations
      ensures r.Ok? ==> fresh(r.value)
      ensures r.Ok? ==> !r.value.builtRun && r.value.buildError.None? && r.value.filters == []
      ensures r.Ok? ==> r.value.iterations == iterations && r.value.planning == planning
      ensures r.Ok? ==> r.value.planner.None? && r.value.initialSchedule.None?
    {
      if iterations == 0 {
        return Err(ZeroIterations);
      }
      var c := new AutomatorController.Init(iterations, planning);
      r := Ok(c);
    }

    /** `get_build_error(col)`: refused before `build`; the whole error, or
        one of its columns, which needs an error to have been recorded. */
    function GetBuildError(col: Option<ErrorColumn>): (r: Result<ErrorPart>)
      reads this
      ensures !builtRun ==> r == Err(NotBuiltYet)
      ensures builtRun && col.None? ==> r == Ok(WholeError(buildError))
      ensures builtRun && col.Some? && buildError.None? ==> r == Err(NoBuildError)
      ensures builtRun && col == Some(MsgColumn) && buildError.Some? ==> r == Ok(MsgPart(buildError.value.msg))
      ensures builtRun && col == Some(DataColumn) && buildError.Some? ==> r == Ok(DataPart(buildError.value.validationData))
    {
      if !builtRun then Err(NotBuiltYet)
      else if col.None? then Ok(WholeError(buildError))
      else if buildError.None? then Err(NoBuildError)
      else if col.value == MsgColumn then Ok(MsgPart(buildError.value.msg))
      else Ok(DataPart(buildError.value.validationData))
    }

    method SetPlanner(p: Planner)
      modifies this
      ensures planner == Some(p)
      ensures builtRun == old(builtRun) && buildError == old(buildError) && iterations == old(iterations)
      ensures planning == old(planning) && initialSchedule == old(initialSchedule) && filters == old(filters)
    {
      planner := Some(p);
    }

    method InitSchedule(s: Option<ScheduleState>)
      modifies this
      ensures initialSchedule == s
      ensures builtRun == old(builtRun) && buildError == old(buildError) && iterations == old(iterations)
      ensures planning == old(planning) && planner == old(planner) && filters == old(filters)
    {
      initialSchedule := s;
    }

    /** `set_build_option('iterations', n)`: unlike the constructor, it does
        not refuse zero. */
    method SetIterations(n: int)
      modifies this
      ensures iterations == n
      ensures builtRun == old(builtRun) && buildError == old(buildError) && planning == old(planning)
      ensures planner == old(planner) && initialSchedule == old(initialSchedule) && filters == old(filters)
    {
      iterations := n;
    }

    /** `set_build_option('planning', p)`. */
    method SetPlanning(p: PlanningOptions)
      modifies this
      ensures planning == Some(p)
      ensures builtRun == old(builtRun) && buildError == old(buildError) && iterations == old(iterations)
      ensures planner == old(planner) && initialSchedule == old(initialSchedule) && filters == old(filters)
    {
      planning := Some(p);
    }

    /** `add_schedule_event_filter(name, fn)`: a custom filter named
        `custom__<name>` runs after the filters added before it. */
    method AddScheduleEventFilter(name: string, fn: FilterContext -> Result<seq<ScheduleEvent>>)
      modifies this
      ensures filters == old(filters) + [CustomFilter(name, fn)]
      ensures FilterName(filters[|filters| - 1]) == CustomPrefix + name
      ensures builtRun == old(builtRun) && buildError == old(buildError) && iterations == old(iterations)
      ensures planning == old(planning) && planner == old(planner) && initialSchedule == old(initialSchedule)
    {
      filters := filters + [CustomFilter(name, fn)];
    }

    /** The scheduler's setup for the current options. */
    function Setup(): (s: SchedulerSetup)
      requires planner.Some? && planning.Some?
      reads this
      ensures s.planner == planner.value && s.initial == initialSchedule && s.filters == filters
      ensures s.excluded == planning.value.excludeEventIds.GetOr([])
    {
      SchedulerSetup(planner.value, initialSchedule, planning.value.excludeEventIds.GetOr([]), filters)
    }

    /** `build(event_data, rule_set)`: the rows with the global rule-set
        names injected (handed back, as Python changes the caller's rows in
        place), then validation, the scheduler's setup and the iteration
        loop. A failed validation records its error and returns `False`,
        raising instead when it recorded no message. */
    method Build(rows: seq<EventRow>, docs: seq<RuleDoc>, sv: Services) returns (r: BuildResult, injected: seq<EventRow>)
      modifies this
      ensures builtRun
      ensures iterations == old(iterations) && planning == old(planning) && planner == old(planner)
      ensures initialSchedule == old(initialSchedule) && filters == old(filters)
      ensures |injected| == |rows| && forall i :: 0 <= i < |rows| ==> Injected(rows[i], injected[i], GlobalNames(docs))
      ensures var pre := sv.preValidate(injected, docs, initialSchedule);
        (!pre.ok ==> buildError == Some(BuildError(pre.data, pre.msg))
                     && r == if pre.msg.None? then Raised(AssertionFailed) else Invalid)
        && (pre.ok && planning.None? ==> buildError == old(buildError) && r == Raised(MissingPlanningOption))
        && (pre.ok && planning.Some? && planner.None? ==> buildError == old(buildError) && r == Raised(NoPlanner))
      ensures var pre := sv.preValidate(injected, docs, initialSchedule);
        pre.ok && planning.Some? && planner.Some? ==>
          var p := Iterate(sv, Setup(), injected, initialSchedule, if iterations < 0 then 0 else iterations);
          (p.stop.Rejected? ==> buildError == Some(BuildError(p.stop.validation.data, p.stop.validation.msg))
                                && r == if p.stop.validation.msg.None? then Raised(AssertionFailed) else Invalid)
          && (!p.stop.Rejected? ==> buildError == old(buildError) && r == Built(p.schedule))
    {
      builtRun := true;
      injected := InjectGlobalRules(rows, docs);
      var inp := new ScheduleInput(injected, DocList(docs), initialSchedule);
      var pre := sv.preValidate(inp.rows, docs, inp.initSchedule);
      if !pre.ok {
        buildError := Some(BuildError(pre.data, pre.msg));
        r := if pre.msg.None? then Raised(AssertionFailed) else Invalid;
        return;
      }
      if planning.None? {
        return Raised(MissingPlanningOption), injected;
      }
      if planner.None? {
        return Raised(NoPlanner), injected;
      }
      var setup := Setup();
      var n := if iterations < 0 then 0 else iterations;
      var p := RunIterations(sv, setup, inp, n);
      if p.stop.Rejected? {
        var v := p.stop.validation;
        buildError := Some(BuildError(v.data, v.msg));
        r := if v.msg.None? then Raised(AssertionFailed) else Invalid;
      } else {
        r := Built(p.schedule);
      }
    }
  }

  /** The loop of `build` over a fresh input: `create_schedule` up to `n`
      times, feeding the schedule back through `set_init_schedule`, until a
      schedule fails `post_validate` or is complete. */
  method RunIterations(sv: Services, setup: SchedulerSetup, inp: ScheduleInput, n: nat) returns (p: Progress)
    modifies inp
    ensures p == Iterate(sv, setup, old(inp.rows), old(inp.initSchedule), n)
  {
    ghost var rows := inp.rows;
    ghost var init := inp.initSchedule;
    var schedule: Option<ScheduleState> := None;
    var idx := 0;
    while idx < n
      invariant 0 <= idx <= n && inp.rows == rows
      invariant Iterate(sv, setup, rows, init, idx) == Progress(schedule, inp.initSchedule, idx, Running)
    {
      if idx > 0 {
        inp.SetInitSchedule(schedule);
      }
      var s := sv.create(setup, inp.rows, inp.initSchedule);
      schedule := Some(s);
      var v := sv.postValidate(s);
      if !v.ok {
        IterateStops(sv, setup, rows, init, idx + 1, n);
        return Progress(schedule, inp.initSchedule, idx + 1, Rejected(v));
      }
      if sv.complete(s) {
        IterateStops(sv, setup, rows, init, idx + 1, n);
        return Progress(schedule, inp.initSchedule, idx + 1, Completed);
      }
      idx := idx + 1;
    }
    p := Progress(schedule, inp.initSchedule, idx, Running);
  }
}
