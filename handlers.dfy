/** The chain of responsibility that drives a build
    (core/handler/handler.py, core/handler/handler_helper.py): handlers
    linked by their next pointers, each doing its stage's work on the
    schedule builder and then handing the request on; and the setup stage
    (core/handler/impl/setup_handler.py), which wires planner, input and
    schedule into the builder and registers the event filters in order,
    rejecting a repeated filter name. */
module Handlers {
  import opened Outcomes
  import opened Seqs
  import opened EventFilters
  import opened Schedules
  import opened ScheduleInputs
  import opened Builders
  import opened FilterRegistration

  // ---------------------------------------------------------------------
  // Stages

  /** What `SetupHandler.with_input` stores: the planner, the schedule
      input, the schedule the planner's `plan_init` hands back for the
      stored options and initial schedule, and the custom event filters. */
  datatype SetupConfig = SetupConfig(
    planner: Option<Planner>, input: ScheduleInput?, planned: Schedule?, customFilters: seq<EventFilter>)

  /** The work a handler does before handing on: the setup stage, a stage
      that only hands on, and the termination stage. */
  datatype Stage = SetupStage(cfg: SetupConfig) | ForwardStage | TerminationStage

  /** The builder after a stage, and whether the stage raised. */
  datatype Handled = Handled(state: BuilderState, outcome: Outcome)

  /** `SetupHandler.handle` on a builder in state `st`: the planner, the
      input and the planned schedule are set in that order, each setter
      able to raise; then the default filters and the custom ones are
      registered in order until a name repeats. */
  function SetupSpec(cfg: SetupConfig, st: BuilderState): (r: Handled)
    reads cfg.planned
    ensures r.outcome.Pass? ==> r.state.filters == st.filters + DefaultFilters() + cfg.customFilters
    ensures r.state.status == st.status
  {
    if cfg.planner.None? then Handled(st, Fail(NullPlanner))
    else if st.planner.Some? then Handled(st, Fail(PlannerAlreadySet))
    else
      var st1 := st.(planner := cfg.planner, input := cfg.input);
      if cfg.planned == null then Handled(st1, Fail(NullSchedule))
      else if st.schedule != null then Handled(st1, Fail(ScheduleAlreadySet))
      else
        var st2 := st1.(schedule := cfg.planned, candidates := cfg.planned.days, candidateDates := cfg.planned.dates);
        var fs := DefaultFilters() + cfg.customFilters;
        var k := FirstDuplicate(fs);
        assert k == |fs| ==> fs[..k] == fs;
        ConcatAssoc(st.filters, DefaultFilters(), cfg.customFilters);
        Handled(st2.(filters := st.filters + fs[..k]),
                if k < |fs| then Fail(DuplicateFilter(FilterName(fs[k]))) else Pass)
  }

  /** `ScheduleBuilder.build()` as the termination stage runs it. */
  function BuildSpec(st: BuilderState): (r: Handled)
    ensures r.outcome.Pass? <==> st.status == PlanOk
    ensures r.state.status == if st.status == PlanOk then BuildOk else st.status
  {
    if st.status == PlanOk then Handled(st.(status := BuildOk), Pass) else Handled(st, Fail(NotPlanned))
  }

  // ---------------------------------------------------------------------
  // The chain

  class Handler {
    /** `_next_handler`. */
    var next: Handler?
    const stage: Stage

    /** A new handler has no next handler. */
    constructor(stage: Stage)
      ensures next == null && this.stage == stage
    {
      next := null;
      this.stage := stage;
    }

    /** `set_next(handler)`: stores the handler and hands it back. */
    method SetNext(h: Handler?) returns (r: Handler?)
      modifies this
      ensures next == h && r == h
    {
      next := h;
      r := h;
    }

    /** `handle(request)` on the builder the request carries, `chain` being
        this handler and the handlers its next pointers lead to. */
    method Handle(req: ScheduleBuilder, ghost chain: seq<Handler>) returns (o: Outcome)
      requires Linked(chain) && chain[0] == this && PlannedValid(chain)
      modifies req
      ensures Handled(req.Snapshot(), o) == ChainSpec(chain, old(req.Snapshot()))
      decreases |chain|
    {
      ghost var st := req.Snapshot();
      match stage {
        case TerminationStage =>
          o := req.Build();
          return;
        case SetupStage(cfg) =>
          assert cfg.planned != null ==> cfg.planned in Planned(chain);
          o := RunSetup(cfg, req);
          if o.Fail? {
            return;
          }
        case ForwardStage =>
          o := Pass;
      }
      assert |chain| > 1 ==> chain[0].next == chain[1];
      if next == null {
        return;
      }
      assert Linked(chain[1..]) && PlannedValid(chain[1..]) by {
        assert forall i :: 0 <= i < |chain| - 1 ==> chain[1..][i] == chain[i + 1];
      }
      o := next.Handle(req, chain[1..]);
    }
  }

  /** `chain` as a list of handlers linked through their next pointers,
      the last one having none. */
  ghost predicate Linked(chain: seq<Handler>)
    reads set h | h in chain
  {
    |chain| > 0
    && (forall i :: 0 <= i < |chain| - 1 ==> chain[i].next == chain[i + 1])
    && chain[|chain| - 1].next == null
  }

  /** The schedules the setup stages of `chain` will install. */
  function Planned(chain: seq<Handler>): set<Schedule> {
    set i | 0 <= i < |chain| && chain[i].stage.SetupStage? && chain[i].stage.cfg.planned != null
      :: chain[i].stage.cfg.planned
  }

  ghost predicate PlannedValid(chain: seq<Handler>)
    reads Planned(chain)
  {
    forall i :: 0 <= i < |chain| && chain[i].stage.SetupStage? && chain[i].stage.cfg.planned != null ==>
      chain[i].stage.cfg.planned.Valid()
  }

  lemma PlannedTail(chain: seq<Handler>)
    requires chain != []
    ensures Planned(chain[1..]) <= Planned(chain)
  {
    forall s | s in Planned(chain[1..]) ensures s in Planned(chain) {
      var i :| 0 <= i < |chain[1..]| && chain[1..][i].stage.SetupStage? && chain[1..][i].stage.cfg.planned == s;
      assert chain[i + 1] == chain[1..][i];
    }
  }

  /** What handing a request to the first handler of `chain` does: each
      stage does its work and hands on, the first error ends the walk, and
      the termination stage builds and ends it; the walk ends with `None`
      at a handler without a next one. */
  function ChainSpec(chain: seq<Handler>, st: BuilderState): (r: Handled)
    requires chain != []
    reads Planned(chain)
    ensures (forall i :: 0 <= i < |chain| ==> !chain[i].stage.TerminationStage?) ==> r.state.status == st.status
    decreases |chain|
  {
    match chain[0].stage
    case TerminationStage => BuildSpec(st)
    case SetupStage(cfg) =>
      assert cfg.planned != null ==> cfg.planned in Planned(chain);
      var r := SetupSpec(cfg, st);
      if r.outcome.Fail? || |chain| == 1 then r
      else PlannedTail(chain); ChainSpec(chain[1..], r.state)
    case ForwardStage =>
      if |chain| == 1 then Handled(st, Pass)
      else PlannedTail(chain); ChainSpec(chain[1..], st)
  }

  /** The body of `SetupHandler.handle`. */
  method RunSetup(cfg: SetupConfig, b: ScheduleBuilder) returns (o: Outcome)
    requires cfg.planned != null ==> cfg.planned.Valid()
    modifies b
    ensures Handled(b.Snapshot(), o) == SetupSpec(cfg, old(b.Snapshot()))
  {
    ghost var st := b.Snapshot();
    o := b.SetPlanner(cfg.planner);
    if o.Fail? {
      return;
    }
    b.SetScheduleInput(cfg.input);
    o := b.SetSchedule(cfg.planned);
    if o.Fail? {
      return;
    }
    o := RegisterFilters(b, DefaultFilters() + cfg.customFilters);
  }

  /** The registration loop of `SetupHandler.handle`: filters are
      registered in order until one's name was registered before; that one
      raises. */
  method RegisterFilters(b: ScheduleBuilder, fs: seq<EventFilter>) returns (o: Outcome)
    modifies b
    ensures var k := FirstDuplicate(fs);
      b.Snapshot() == old(b.Snapshot()).(filters := old(b.filters) + fs[..k])
      && o == if k < |fs| then Fail(DuplicateFilter(FilterName(fs[k]))) else Pass
  {
    ghost var names := FilterNames(fs);
    ghost var st0 := b.Snapshot();
    ghost var k := FirstDuplicate(fs);
    var registered: set<string> := {};
    var i := 0;
    while i < |fs|
      invariant 0 <= i <= |fs|
      invariant k == RepeatFrom(names, i, registered)
      invariant b.Snapshot() == st0.(filters := st0.filters + fs[..i])
    {
      var name := FilterName(fs[i]);
      assert names[i] == name;
      if name in registered {
        assert k == i;
        return Fail(DuplicateFilter(name));
      }
      RegisterStep(b, fs, i, st0);
      registered := registered + {name};
      i := i + 1;
    }
    assert k == |fs| && fs[..i] == fs;
    o := Pass;
  }

  /** One pass of the registration loop: the filter at `i` is appended. */
  method RegisterStep(b: ScheduleBuilder, fs: seq<EventFilter>, i: int, ghost st0: BuilderState)
    requires 0 <= i < |fs| && b.Snapshot() == st0.(filters := st0.filters + fs[..i])
    modifies b
    ensures b.Snapshot() == st0.(filters := st0.filters + fs[..i + 1])
  {
    b.RegisterFilter(fs[i]);
    assert fs[..i + 1] == fs[..i] + [fs[i]];
  }

  /** `link_handler_chain(handlers)`: each handler but the last gets the
      one after it as its next handler; a handler listed twice keeps the
      link of its later position; the list comes back as it was. */
  method LinkHandlerChain(hs: seq<Handler>) returns (r: seq<Handler>)
    modifies set h | h in hs
    ensures r == hs
    ensures forall i :: 0 <= i < |hs| - 1 && hs[i] !in hs[i + 1..|hs| - 1] ==> hs[i].next == hs[i + 1]
    ensures |hs| > 0 && hs[|hs| - 1] !in hs[..|hs| - 1] ==> hs[|hs| - 1].next == old(hs[|hs| - 1].next)
  {
    ghost var lastNext := if |hs| > 0 then hs[|hs| - 1].next else null;
    for idx := 0 to |hs|
      invariant LinkInv(hs, LinkCount(hs, idx), lastNext)
    {
      LinkAt(hs, idx, lastNext);
    }
    r := hs;
  }

  /** Handler `i` links to handler `i + 1` for each of the first `n`
      positions that the handler does not hold again later, and the last
      handler, unless it is listed earlier too, still links to `v`. */
  ghost predicate LinkInv(hs: seq<Handler>, n: int, v: Handler?)
    requires 0 <= n && (n < |hs| || n == 0)
    reads set h | h in hs
  {
    && (forall i :: 0 <= i < n && hs[i] !in hs[i + 1..n] ==> hs[i].next == hs[i + 1])
    && (|hs| > 0 && hs[|hs| - 1] !in hs[..|hs| - 1] ==> hs[|hs| - 1].next == v)
  }

  /** The body of the loop of `link_handler_chain` for position `idx`:
      every handler but the last gets the one after it as its next. */
  method LinkAt(hs: seq<Handler>, idx: int, ghost lastNext: Handler?)
    requires 0 <= idx < |hs| && LinkInv(hs, LinkCount(hs, idx), lastNext)
    modifies hs[idx]
    ensures LinkInv(hs, LinkCount(hs, idx + 1), lastNext)
  {
    if idx < |hs| - 1 {
      assert hs[..|hs| - 1][idx] == hs[idx];
      var _ := hs[idx].SetNext(hs[idx + 1]);
      forall i | 0 <= i < idx + 1 && hs[i] !in hs[i + 1..idx + 1] ensures hs[i].next == hs[i + 1] {
        if i < idx {
          assert hs[idx] in hs[i + 1..idx + 1];
          assert hs[i + 1..idx] <= hs[i + 1..idx + 1];
        }
      }
    }
  }

  /** How many `set_next` calls `link_handler_chain` has made after `idx`
      handlers. */
  function LinkCount(hs: seq<Handler>, idx: int): (n: int)
    requires 0 <= idx <= |hs|
    ensures 0 <= n <= idx && (n < |hs| || n == 0)
  {
    if idx < |hs| - 1 then idx else if |hs| > 0 then |hs| - 1 else 0
  }

  /** Linking handlers that are pairwise different, the last of which has
      no next handler, yields a chain `handle` can walk. */
  lemma LinkedChain(hs: seq<Handler>)
    requires |hs| > 0 && Distinct(hs) && hs[|hs| - 1].next == null
    requires forall i :: 0 <= i < |hs| - 1 && hs[i] !in hs[i + 1..|hs| - 1] ==> hs[i].next == hs[i + 1]
    ensures Linked(hs)
  {
    forall i | 0 <= i < |hs| - 1 ensures hs[i].next == hs[i + 1] {
      var rest := hs[i + 1..|hs| - 1];
      forall j | 0 <= j < |rest| ensures rest[j] != hs[i] {
        assert rest[j] == hs[i + 1 + j];
      }
    }
  }

  /** `run_handler_chain(handlers, request)`: the first handler handles the
      request; an empty list has no first handler. */
  method RunHandlerChain(hs: seq<Handler>, req: ScheduleBuilder, ghost chain: seq<Handler>) returns (o: Outcome)
    requires hs != [] ==> Linked(chain) && chain[0] == hs[0] && PlannedValid(chain)
    modifies req
    ensures hs == [] ==> o == Fail(EmptyHandlerList) && req.Snapshot() == old(req.Snapshot())
    ensures hs != [] ==> Handled(req.Snapshot(), o) == ChainSpec(chain, old(req.Snapshot()))
  {
    if hs == [] {
      return Fail(EmptyHandlerList);
    }
    o := hs[0].Handle(req, chain);
  }

  // ---------------------------------------------------------------------
  // Properties

  /** A chain of stages that only hand on leaves the builder alone and
      ends with `None`. */
  lemma {:induction false} ForwardingChain(chain: seq<Handler>, st: BuilderState)
    requires chain != [] && forall i :: 0 <= i < |chain| ==> chain[i].stage.ForwardStage?
    ensures ChainSpec(chain, st) == Handled(st, Pass)
    decreases |chain|
  {
    if |chain| > 1 {
      assert forall i :: 0 <= i < |chain| - 1 ==> chain[1..][i] == chain[i + 1];
      ForwardingChain(chain[1..], st);
    }
  }

  /** Setting up a fresh builder with custom filters of pairwise different
      names installs planner, input and schedule and registers the five
      default filters, in order, followed by the custom ones. */
  lemma SetupFreshBuilder(cfg: SetupConfig, st: BuilderState)
    requires cfg.planner.Some? && cfg.planned != null
    requires st.planner.None? && st.schedule == null
    requires forall f :: f in cfg.customFilters ==> f.CustomFilter?
    requires DistinctNames(cfg.customFilters)
    ensures SetupSpec(cfg, st) == Handled(
      st.(planner := cfg.planner, input := cfg.input, schedule := cfg.planned,
          candidates := cfg.planned.days, candidateDates := cfg.planned.dates,
          filters := st.filters + DefaultFilters() + cfg.customFilters),
      Pass)
  {
    SetupFiltersStop(cfg.customFilters);
    FirstRepeatNone(FilterNames(cfg.customFilters));
    ConcatAssoc(st.filters, DefaultFilters(), cfg.customFilters);
  }

  /** A custom filter whose name an earlier custom filter already has makes
      setup raise naming it; the defaults and the custom filters before it
      are registered. */
  lemma SetupRejectsDuplicate(cfg: SetupConfig, st: BuilderState)
    requires cfg.planner.Some? && cfg.planned != null
    requires st.planner.None? && st.schedule == null
    requires forall f :: f in cfg.customFilters ==> f.CustomFilter?
    requires !DistinctNames(cfg.customFilters)
    ensures var k := FirstDuplicate(cfg.customFilters);
      k < |cfg.customFilters|
      && SetupSpec(cfg, st).outcome == Fail(DuplicateFilter(FilterName(cfg.customFilters[k])))
      && SetupSpec(cfg, st).state.filters == st.filters + DefaultFilters() + cfg.customFilters[..k]
      && DistinctNames(cfg.customFilters[..k])
      && exists j :: 0 <= j < k && FilterName(cfg.customFilters[j]) == FilterName(cfg.customFilters[k])
  {
    var cs, d := cfg.customFilters, DefaultFilters();
    var k := FirstDuplicate(cs);
    SetupFiltersStop(cs);
    FirstDuplicateSpec(cs);
    PrefixOfConcat(d, cs, k);
    ConcatAssoc(st.filters, d, cs[..k]);
    assert (d + cs)[|d| + k] == cs[k];
    var r := SetupSpec(cfg, st);
    assert r.state.filters == st.filters + (d + cs)[..|d| + k];
    assert r.outcome == Fail(DuplicateFilter(FilterName((d + cs)[|d| + k])));
  }
}
