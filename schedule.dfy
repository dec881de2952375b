/** The schedule (core/schedule/schedule.py): a table of days, each holding
    an ordered list of events, together with per-event quota windows that
    are validated before an event is placed and consumed afterwards. The pure
    functions on `ScheduleState` specify what the classes `ScheduleQuota`,
    `Schedule` and `ScheduleIterator` do in place. */
module Schedules {
  import opened Outcomes
  import opened Seqs
  import opened Calendar
  import opened EventQuotas
  import opened ScheduleEvents

  // ---------------------------------------------------------------------
  // Quota accounting

  /** The number of uses a window allows: `max - min + 1`. */
  function Allowance(w: QuotaWindow): int {
    w.max - w.min + 1
  }

  predicate Excessive(w: QuotaWindow) {
    w.used > Allowance(w)
  }

  /** Some date of `dates` lies in the window. */
  predicate Overlaps(dates: seq<Date>, w: QuotaWindow) {
    exists d :: d in dates && d in w.dates
  }

  /** One window after consuming `consume` uses on `dates`: usage grows and the
      remaining quota shrinks, never below zero, when the window holds one of
      the dates; otherwise the window is unchanged. */
  function ConsumeWindow(w: QuotaWindow, dates: seq<Date>, consume: int): (r: QuotaWindow)
    ensures r.dates == w.dates && r.min == w.min && r.max == w.max
    ensures !Overlaps(dates, w) ==> r == w
    ensures Overlaps(dates, w) ==>
      r == w.(used := w.used + consume, quota := if w.quota - consume < 0 then 0 else w.quota - consume)
  {
    if Overlaps(dates, w) then
      var q := w.quota - consume;
      w.(used := w.used + consume, quota := if q < 0 then 0 else q)
    else w
  }

  function ConsumeWindows(ws: seq<QuotaWindow>, dates: seq<Date>, consume: int): (r: seq<QuotaWindow>)
    ensures |r| == |ws|
    ensures forall k :: 0 <= k < |r| ==> r[k] == ConsumeWindow(ws[k], dates, consume)
  {
    if ws == [] then []
    else ConsumeWindows(ws[..|ws| - 1], dates, consume) + [ConsumeWindow(ws[|ws| - 1], dates, consume)]
  }

  /** `__consume_quota_usage`: the event's windows after consumption, `[]`
      for an event without windows, and an error for more than one date. */
  function ConsumeUsage(quotas: map<int, seq<QuotaWindow>>, id: int, dates: seq<Date>, consume: int)
    : (r: Result<seq<QuotaWindow>>)
    ensures id !in quotas ==> r == Ok([])
    ensures id in quotas && |dates| > 1 ==> r == Err(MultiDateQuota)
    ensures r.Ok? && id in quotas ==> |r.value| == |quotas[id]|
  {
    if id !in quotas then Ok([])
    else if |dates| > 1 then Err(MultiDateQuota)
    else Ok(ConsumeWindows(quotas[id], dates, consume))
  }

  /** `ScheduleQuota.validate`: consumes one use on a copy of the windows and
      fails when any window then exceeds its allowance. */
  function ValidateQuota(quotas: map<int, seq<QuotaWindow>>, id: int, dates: seq<Date>): (o: Outcome)
    ensures o.Fail? ==> o.error == ExcessiveQuota || o.error == MultiDateQuota
  {
    match ConsumeUsage(quotas, id, dates, 1)
    case Err(e) => Fail(e)
    case Ok(ws) =>
      if exists k :: 0 <= k < |ws| && Excessive(ws[k]) then Fail(ExcessiveQuota) else Pass
  }

  /** Validation for one date succeeds exactly when every window of the event,
      counting one more use in the windows that hold the date, stays within
      its allowance; an event without windows always validates. */
  lemma ValidateQuotaIff(quotas: map<int, seq<QuotaWindow>>, id: int, d: Date)
    ensures id !in quotas ==> ValidateQuota(quotas, id, [d]) == Pass
    ensures ValidateQuota(quotas, id, [d]) == Pass <==>
      (id !in quotas
       || forall w :: w in quotas[id] ==> (if d in w.dates then w.used + 1 else w.used) <= Allowance(w))
  {
    if id in quotas {
      var ws := quotas[id];
      var cs := ConsumeWindows(ws, [d], 1);
      forall k | 0 <= k < |ws|
        ensures Excessive(cs[k]) <==> (if d in ws[k].dates then ws[k].used + 1 else ws[k].used) > Allowance(ws[k])
      {
        assert Overlaps([d], ws[k]) <==> d in ws[k].dates by {
          if d in ws[k].dates {
            assert d in [d];
          }
        }
      }
    }
  }

  /** Consuming on one date changes exactly the windows holding that date:
      their usage grows by `consume` and their remaining quota drops to
      `max(0, quota - consume)`. */
  lemma ConsumeOneDate(quotas: map<int, seq<QuotaWindow>>, id: int, d: Date, consume: int)
    requires id in quotas
    ensures var r := ConsumeUsage(quotas, id, [d], consume);
      r.Ok? && |r.value| == |quotas[id]|
      && forall k :: 0 <= k < |r.value| ==>
        var w := quotas[id][k];
        (d in w.dates ==> r.value[k] == w.(used := w.used + consume, quota := if w.quota < consume then 0 else w.quota - consume))
        && (d !in w.dates ==> r.value[k] == w)
  {
    var ws := quotas[id];
    forall k | 0 <= k < |ws| ensures Overlaps([d], ws[k]) <==> d in ws[k].dates {
      if d in ws[k].dates {
        assert d in [d];
      }
    }
  }

  /** No window of any event exceeds its allowance. */
  predicate WithinAllowance(quotas: map<int, seq<QuotaWindow>>) {
    forall id, k :: id in quotas && 0 <= k < |quotas[id]| ==> !Excessive(quotas[id][k])
  }

  /** Quota bookkeeping of one schedule: windows per event id. */
  class ScheduleQuota {
    var eventQuotas: map<int, seq<QuotaWindow>>

    constructor()
      ensures eventQuotas == map[]
    {
      eventQuotas := map[];
    }

    /** `get(event_id)`: the event's windows, `[]` when it has none. */
    function Get(id: int): (ws: seq<QuotaWindow>)
      reads this
      ensures id !in eventQuotas ==> ws == []
      ensures id in eventQuotas ==> ws == eventQuotas[id]
    {
      if id in eventQuotas then eventQuotas[id] else []
    }

    /** `exists(event_id)`. */
    predicate Exists(id: int)
      reads this
    {
      id in eventQuotas
    }

    /** `add_quota`: expands the template over `[start, end]` and appends the
        windows to the event's list; an expansion error leaves it unchanged. */
    method AddQuota(id: int, start: Date, end: Date, t: QuotaTemplate) returns (r: Result<seq<QuotaWindow>>)
      modifies this
      ensures r == EventQuota(start, end, t)
      ensures r.Ok? ==> eventQuotas == old(eventQuotas)[id := old(Get(id)) + r.value]
      ensures r.Err? ==> eventQuotas == old(eventQuotas)
    {
      r := MakeEventQuota(start, end, t);
      if r.Ok? {
        eventQuotas := eventQuotas[id := Get(id) + r.value];
      }
    }

    /** The loop of `__consume_quota_usage` over an event's windows. */
    static method ConsumeEach(ws: seq<QuotaWindow>, dates: seq<Date>, consume: int) returns (r: seq<QuotaWindow>)
      ensures r == ConsumeWindows(ws, dates, consume)
    {
      r := [];
      var i := 0;
      while i < |ws|
        invariant 0 <= i <= |ws|
        invariant r == ConsumeWindows(ws[..i], dates, consume)
      {
        assert ws[..i + 1][..i] == ws[..i];
        var w := ws[i];
        var overlaps := false;
        var j := 0;
        while j < |dates|
          invariant 0 <= j <= |dates|
          invariant overlaps <==> exists x :: x in dates[..j] && x in w.dates
        {
          assert dates[..j + 1] == dates[..j] + [dates[j]];
          if dates[j] in w.dates {
            overlaps := true;
          }
          j := j + 1;
        }
        assert dates[..j] == dates;
        if overlaps {
          var q := w.quota - consume;
          w := w.(used := w.used + consume, quota := if q < 0 then 0 else q);
        }
        r := r + [w];
        i := i + 1;
      }
      assert ws[..|ws|] == ws;
    }

    /** `consume_quota_usage`: updates the event's windows in place and
        returns them; other events' windows are untouched. */
    method ConsumeQuotaUsage(ev: ScheduleEvent, dates: seq<Date>, consume: int) returns (r: Result<seq<QuotaWindow>>)
      modifies this
      ensures r == ConsumeUsage(old(eventQuotas), ev.id, dates, consume)
      ensures eventQuotas ==
        if r.Ok? && ev.id in old(eventQuotas) then old(eventQuotas)[ev.id := r.value] else old(eventQuotas)
    {
      if ev.id !in eventQuotas {
        return Ok([]);
      }
      if |dates| > 1 {
        return Err(MultiDateQuota);
      }
      var ws := ConsumeEach(eventQuotas[ev.id], dates, consume);
      eventQuotas := eventQuotas[ev.id := ws];
      r := Ok(ws);
    }

    /** `validate`: a dry run of one use on copies of the windows. It
        modifies nothing. */
    method Validate(ev: ScheduleEvent, dates: seq<Date>) returns (o: Outcome)
      ensures o == ValidateQuota(eventQuotas, ev.id, dates)
    {
      if ev.id !in eventQuotas {
        return Pass;
      }
      if |dates| > 1 {
        return Fail(MultiDateQuota);
      }
      var ws := ConsumeEach(eventQuotas[ev.id], dates, 1);
      var i := 0;
      while i < |ws|
        invariant 0 <= i <= |ws|
        invariant forall k :: 0 <= k < i ==> !Excessive(ws[k])
      {
        if ws[i].used > ws[i].max - ws[i].min + 1 {
          return Fail(ExcessiveQuota);
        }
        i := i + 1;
      }
      o := Pass;
    }
  }

  // ---------------------------------------------------------------------
  // The schedule table

  /** A snapshot of a schedule: its planning interval, its dates in the
      order the day map holds them, the events of each day, the quota windows
      per event id, whether quota validation is on, and the daily limit. */
  datatype ScheduleState = ScheduleState(
    start: Date,
    end: Date,
    dates: seq<Date>,
    days: map<Date, seq<ScheduleEvent>>,
    quotas: map<int, seq<QuotaWindow>>,
    useValidation: bool,
    dailyLimit: int)

  /** The day map's keys are exactly the listed dates, each listed once. */
  ghost predicate WellFormed(s: ScheduleState) {
    Distinct(s.dates) && forall d :: d in s.days <==> d in s.dates
  }

  /** What `add_event` was handed as its dates: a list, or anything else. */
  datatype DatesArg = DateList(dates: seq<Date>) | NotAList

  /** A schedule and the outcome of an operation on it. */
  datatype Step = Step(state: ScheduleState, outcome: Outcome)

  /** `validate_quota(event, date)`: with validation off the event passes
      unchecked; otherwise it passes exactly when one more use on `d` keeps
      every window of the event within its allowance. */
  function ValidateAddEvent(s: ScheduleState, ev: ScheduleEvent, d: Date): (o: Outcome)
    ensures o == Pass <==>
      (!s.useValidation || ev.id !in s.quotas
       || forall w :: w in s.quotas[ev.id] ==> (if d in w.dates then w.used + 1 else w.used) <= Allowance(w))
    ensures o.Fail? ==> o.error == ExcessiveQuota
  {
    ValidateQuotaIff(s.quotas, ev.id, d);
    if s.useValidation then ValidateQuota(s.quotas, ev.id, [d]) else Pass
  }

  /** One pass of `add_event`'s loop, for date `d` of the list `all`: the day
      must exist; with validation on, the quota must validate (nothing changes
      otherwise); the event is appended; then more events than the daily limit
      fail, with the event left in place and no quota consumed; finally one
      use is consumed with the whole list `all`. */
  function AddStep(s: ScheduleState, ev: ScheduleEvent, d: Date, all: seq<Date>): (r: Step)
    ensures r.state.dates == s.dates && r.state.days.Keys == s.days.Keys
  {
    if d !in s.days then Step(s, Fail(MissingDate))
    else if s.useValidation && ValidateQuota(s.quotas, ev.id, [d]).Fail? then
      Step(s, ValidateQuota(s.quotas, ev.id, [d]))
    else
      var s1 := s.(days := s.days[d := s.days[d] + [ev]]);
      if |s1.days[d]| > s.dailyLimit then Step(s1, Fail(DailyLimitExceeded))
      else
        match ConsumeUsage(s.quotas, ev.id, all, 1)
        case Err(e) => Step(s1, Fail(e))
        case Ok(ws) =>
          if ev.id in s.quotas then Step(s1.(quotas := s.quotas[ev.id := ws]), Pass) else Step(s1, Pass)
  }

  /** `add_event`'s loop over the dates `todo` (a prefix of `all`), stopping at
      the first failure. */
  function AddAll(s: ScheduleState, ev: ScheduleEvent, todo: seq<Date>, all: seq<Date>): (r: Step)
    ensures r.state.dates == s.dates && r.state.days.Keys == s.days.Keys
  {
    if todo == [] then Step(s, Pass)
    else
      var prev := AddAll(s, ev, todo[..|todo| - 1], all);
      if prev.outcome.Fail? then prev else AddStep(prev.state, ev, todo[|todo| - 1], all)
  }

  /** `Schedule.add_event(dates, sch_event)`. */
  function AddEventSpec(s: ScheduleState, arg: DatesArg, ev: ScheduleEvent): (r: Step)
    ensures arg.NotAList? ==> r == Step(s, Fail(DatesNotAList))
    ensures r.state.dates == s.dates && r.state.days.Keys == s.days.Keys
  {
    match arg
    case NotAList => Step(s, Fail(DatesNotAList))
    case DateList(ds) => AddAll(s, ev, ds, ds)
  }

  /** After a failure, later dates of the list are not processed. */
  lemma {:induction false} AddAllStops(s: ScheduleState, ev: ScheduleEvent, todo: seq<Date>, all: seq<Date>, n: nat)
    requires n <= |todo| && AddAll(s, ev, todo[..n], all).outcome.Fail?
    ensures AddAll(s, ev, todo, all) == AddAll(s, ev, todo[..n], all)
    decreases |todo| - n
  {
    if n < |todo| {
      assert todo[..n + 1][..n] == todo[..n];
      AddAllStops(s, ev, todo, all, n + 1);
    } else {
      assert todo[..n] == todo;
    }
  }

  lemma AddAllFirst(s: ScheduleState, ev: ScheduleEvent, ds: seq<Date>)
    requires |ds| >= 1
    ensures AddAll(s, ev, ds[..1], ds) == AddStep(s, ev, ds[0], ds)
  {
    assert ds[..1][..0] == [];
  }

  /** When the first date's quota does not validate, `add_event` fails and
      the schedule is left as it was: nothing appended, nothing consumed. */
  lemma AddEventRejected(s: ScheduleState, ev: ScheduleEvent, ds: seq<Date>)
    requires |ds| >= 1 && ds[0] in s.days
    requires s.useValidation && ValidateQuota(s.quotas, ev.id, [ds[0]]).Fail?
    ensures AddEventSpec(s, DateList(ds), ev) == Step(s, Fail(ExcessiveQuota))
  {
    AddAllFirst(s, ev, ds);
    AddAllStops(s, ev, ds, ds, 1);
  }

  /** Adding to one date that validates puts the event at the end of that
      day's list and consumes one use from exactly the event's windows holding
      the date; other days and other events' windows do not change. */
  lemma AddEventAccepted(s: ScheduleState, ev: ScheduleEvent, d: Date)
    requires d in s.days && (!s.useValidation || ValidateQuota(s.quotas, ev.id, [d]).Pass?)
    requires |s.days[d]| + 1 <= s.dailyLimit
    ensures var r := AddEventSpec(s, DateList([d]), ev);
      r.outcome == Pass
      && r.state.days == s.days[d := s.days[d] + [ev]]
      && r.state.quotas.Keys == s.quotas.Keys
      && (forall id :: id in s.quotas && id != ev.id ==> r.state.quotas[id] == s.quotas[id])
      && (ev.id in s.quotas ==> r.state.quotas[ev.id] == ConsumeWindows(s.quotas[ev.id], [d], 1))
  {
    AddAllFirst(s, ev, [d]);
    assert [d][..1] == [d];
  }

  /** Exceeding the daily limit fails after the event was appended, with no
      quota consumed. */
  lemma AddEventOverLimit(s: ScheduleState, ev: ScheduleEvent, ds: seq<Date>)
    requires |ds| >= 1 && ds[0] in s.days
    requires !s.useValidation || ValidateQuota(s.quotas, ev.id, [ds[0]]).Pass?
    requires |s.days[ds[0]]| + 1 > s.dailyLimit
    ensures var r := AddEventSpec(s, DateList(ds), ev);
      r.outcome == Fail(DailyLimitExceeded) && r.state.days == s.days[ds[0] := s.days[ds[0]] + [ev]]
      && r.state.quotas == s.quotas
  {
    AddAllFirst(s, ev, ds);
    AddAllStops(s, ev, ds, ds, 1);
  }

  /** A quota-tracked event added to several dates fails when consuming
      after its first date. */
  lemma AddEventMultiDateQuota(s: ScheduleState, ev: ScheduleEvent, ds: seq<Date>)
    requires |ds| > 1 && ev.id in s.quotas
    requires AddStep(s, ev, ds[0], ds).outcome != Fail(MissingDate)
    requires AddStep(s, ev, ds[0], ds).outcome != Fail(ExcessiveQuota)
    requires AddStep(s, ev, ds[0], ds).outcome != Fail(DailyLimitExceeded)
    ensures AddEventSpec(s, DateList(ds), ev).outcome == Fail(MultiDateQuota)
  {
    AddAllFirst(s, ev, ds);
    AddAllStops(s, ev, ds, ds, 1);
  }

  /** `add_event` never removes or reorders events: every day keeps its old
      events as a prefix and can only gain copies of the added event. */
  predicate OnlyAppends(before: ScheduleState, after: ScheduleState, ev: ScheduleEvent) {
    after.days.Keys == before.days.Keys
    && forall d :: d in before.days ==>
      |before.days[d]| <= |after.days[d]|
      && after.days[d][..|before.days[d]|] == before.days[d]
      && forall e :: e in after.days[d][|before.days[d]|..] ==> e == ev
  }

  lemma OnlyAppendsTrans(a: ScheduleState, b: ScheduleState, c: ScheduleState, ev: ScheduleEvent)
    requires OnlyAppends(a, b, ev) && OnlyAppends(b, c, ev)
    ensures OnlyAppends(a, c, ev)
  {
    forall d | d in a.days
      ensures |a.days[d]| <= |c.days[d]|
      ensures c.days[d][..|a.days[d]|] == a.days[d]
      ensures forall e :: e in c.days[d][|a.days[d]|..] ==> e == ev
    {
      var x, y, z := a.days[d], b.days[d], c.days[d];
      assert z[..|x|] == z[..|y|][..|x|];
      forall e | e in z[|x|..] ensures e == ev {
        var i :| |x| <= i < |z| && z[i] == e;
        if i < |y| {
          assert y[i] == z[..|y|][i];
          assert e in y[|x|..];
        } else {
          assert e in z[|y|..];
        }
      }
    }
  }

  lemma AddStepOnlyAppends(t: ScheduleState, ev: ScheduleEvent, d: Date, all: seq<Date>)
    ensures OnlyAppends(t, AddStep(t, ev, d, all).state, ev)
  {
    var r := AddStep(t, ev, d, all);
    forall x | x in t.days
      ensures |t.days[x]| <= |r.state.days[x]|
      ensures r.state.days[x][..|t.days[x]|] == t.days[x]
      ensures forall e :: e in r.state.days[x][|t.days[x]|..] ==> e == ev
    {
      if r.state.days[x] != t.days[x] {
        assert r.state.days[x] == t.days[x] + [ev];
        assert r.state.days[x][|t.days[x]|..] == [ev];
      } else {
        assert r.state.days[x][|t.days[x]|..] == [];
      }
    }
  }

  lemma {:induction false} AddAllOnlyAppends(s: ScheduleState, ev: ScheduleEvent, todo: seq<Date>, all: seq<Date>)
    ensures OnlyAppends(s, AddAll(s, ev, todo, all).state, ev)
  {
    if todo == [] {
      forall d | d in s.days ensures s.days[d][|s.days[d]|..] == [] {
      }
    } else {
      var prev := AddAll(s, ev, todo[..|todo| - 1], all);
      AddAllOnlyAppends(s, ev, todo[..|todo| - 1], all);
      if prev.outcome.Pass? {
        AddStepOnlyAppends(prev.state, ev, todo[|todo| - 1], all);
        OnlyAppendsTrans(s, prev.state, AddStep(prev.state, ev, todo[|todo| - 1], all).state, ev);
      }
    }
  }

  /** `add_event` keeps the set of dates and only appends the event. */
  lemma AddEventOnlyAppends(s: ScheduleState, arg: DatesArg, ev: ScheduleEvent)
    ensures OnlyAppends(s, AddEventSpec(s, arg, ev).state, ev)
  {
    if arg.NotAList? {
      AddAllOnlyAppends(s, ev, [], []);
    } else {
      AddAllOnlyAppends(s, ev, arg.dates, arg.dates);
    }
  }

  lemma {:induction false} AddAllPlaces(s: ScheduleState, ev: ScheduleEvent, todo: seq<Date>, all: seq<Date>)
    requires AddAll(s, ev, todo, all).outcome == Pass
    ensures forall d :: d in todo ==> d in s.days && ev in AddAll(s, ev, todo, all).state.days[d]
  {
    if todo != [] {
      var init, last := todo[..|todo| - 1], todo[|todo| - 1];
      var prev := AddAll(s, ev, init, all);
      AddAllPlaces(s, ev, init, all);
      var r := AddStep(prev.state, ev, last, all);
      AddStepOnlyAppends(prev.state, ev, last, all);
      forall d | d in todo ensures d in s.days && ev in r.state.days[d] {
        if d != last {
          assert d in init;
          var old_events := prev.state.days[d];
          assert r.state.days[d][..|old_events|] == old_events;
          assert ev in r.state.days[d][..|old_events|];
        } else {
          assert r.state.days[d] == prev.state.days[d] + [ev];
        }
      }
    }
  }

  /** A successful `add_event` leaves the event on every listed date. */
  lemma AddEventPlaces(s: ScheduleState, ds: seq<Date>, ev: ScheduleEvent)
    requires AddEventSpec(s, DateList(ds), ev).outcome == Pass
    ensures forall d :: d in ds ==> d in s.days && ev in AddEventSpec(s, DateList(ds), ev).state.days[d]
  {
    AddAllPlaces(s, ev, ds, ds);
  }

  /** One step with validation on never takes a window past its allowance. */
  lemma AddStepWithinAllowance(s: ScheduleState, ev: ScheduleEvent, d: Date, all: seq<Date>)
    requires s.useValidation && WithinAllowance(s.quotas) && d in all
    ensures WithinAllowance(AddStep(s, ev, d, all).state.quotas)
  {
    var r := AddStep(s, ev, d, all);
    if d in s.days && ValidateQuota(s.quotas, ev.id, [d]).Pass? && ev.id in s.quotas
       && |s.days[d]| + 1 <= s.dailyLimit && |all| <= 1
    {
      assert all == [d];
      var ws := ConsumeWindows(s.quotas[ev.id], [d], 1);
      assert !exists k :: 0 <= k < |ws| && Excessive(ws[k]);
      assert r.state.quotas == s.quotas[ev.id := ws];
    }
  }

  lemma {:induction false} AddAllWithinAllowance(s: ScheduleState, ev: ScheduleEvent, todo: seq<Date>, all: seq<Date>)
    requires s.useValidation && WithinAllowance(s.quotas)
    requires forall d :: d in todo ==> d in all
    ensures WithinAllowance(AddAll(s, ev, todo, all).state.quotas)
    ensures AddAll(s, ev, todo, all).state.useValidation
  {
    if todo != [] {
      var prev := AddAll(s, ev, todo[..|todo| - 1], all);
      assert forall d :: d in todo[..|todo| - 1] ==> d in todo;
      AddAllWithinAllowance(s, ev, todo[..|todo| - 1], all);
      if prev.outcome.Pass? {
        AddStepWithinAllowance(prev.state, ev, todo[|todo| - 1], all);
      }
    }
  }

  /** With validation on, adding events never takes a quota window past its
      allowance: validate-then-consume keeps every window within bounds. */
  lemma AddEventWithinAllowance(s: ScheduleState, arg: DatesArg, ev: ScheduleEvent)
    requires s.useValidation && WithinAllowance(s.quotas)
    ensures WithinAllowance(AddEventSpec(s, arg, ev).state.quotas)
  {
    if arg.DateList? {
      AddAllWithinAllowance(s, ev, arg.dates, arg.dates);
    }
  }

  /** Events whose id differs from `id`. */
  function OtherId(id: int): ScheduleEvent -> bool {
    (e: ScheduleEvent) => e.id != id
  }

  /** Events whose id is `id`. */
  function HasId(id: int): ScheduleEvent -> bool {
    (e: ScheduleEvent) => e.id == id
  }

  /** `remove_event`: every day keeps only the events with another id. */
  function RemoveEventSpec(days: map<Date, seq<ScheduleEvent>>, id: int): (r: map<Date, seq<ScheduleEvent>>)
    ensures r.Keys == days.Keys
  {
    map d | d in days :: Filter(days[d], OtherId(id))
  }

  /** After `remove_event` no day holds an event with that id; every other
      event stays, in its original order, and the dates are unchanged. */
  lemma RemoveEventEffect(days: map<Date, seq<ScheduleEvent>>, id: int)
    ensures var r := RemoveEventSpec(days, id);
      r.Keys == days.Keys
      && forall d :: d in r ==>
        IsSubseq(r[d], days[d])
        && forall e :: e in r[d] <==> e in days[d] && e.id != id
  {
    forall d | d in days ensures IsSubseq(RemoveEventSpec(days, id)[d], days[d]) {
      FilterIsSubseq(days[d], OtherId(id));
    }
  }

  /** Removing the same id twice is the same as removing it once. */
  lemma RemoveEventIdempotent(days: map<Date, seq<ScheduleEvent>>, id: int)
    ensures RemoveEventSpec(RemoveEventSpec(days, id), id) == RemoveEventSpec(days, id)
  {
    var once := RemoveEventSpec(days, id);
    forall d | d in once ensures Filter(once[d], OtherId(id)) == once[d] {
      FilterAll(once[d], OtherId(id));
    }
  }

  /** `remove_event`'s loop after visiting the dates `keys`. */
  function RemoveOn(days: map<Date, seq<ScheduleEvent>>, id: int, keys: seq<Date>): (r: map<Date, seq<ScheduleEvent>>)
    requires forall d :: d in keys ==> d in days
    ensures r.Keys == days.Keys
  {
    if keys == [] then days
    else
      var last := keys[|keys| - 1];
      RemoveOn(days, id, keys[..|keys| - 1])[last := Filter(days[last], OtherId(id))]
  }

  lemma {:induction false} RemoveOnAt(days: map<Date, seq<ScheduleEvent>>, id: int, keys: seq<Date>, d: Date)
    requires forall x :: x in keys ==> x in days
    requires d in days
    ensures RemoveOn(days, id, keys)[d] == if d in keys then Filter(days[d], OtherId(id)) else days[d]
  {
    if keys != [] {
      var init := keys[..|keys| - 1];
      assert forall x :: x in keys <==> x in init || x == keys[|keys| - 1];
      RemoveOnAt(days, id, init, d);
    }
  }

  /** Visiting every date of the day map removes the id everywhere. */
  lemma RemoveOnAll(days: map<Date, seq<ScheduleEvent>>, id: int, keys: seq<Date>)
    requires forall d :: d in keys <==> d in days
    ensures RemoveOn(days, id, keys) == RemoveEventSpec(days, id)
  {
    forall d | d in days ensures RemoveOn(days, id, keys)[d] == RemoveEventSpec(days, id)[d] {
      RemoveOnAt(days, id, keys, d);
    }
  }

  /** The selection of `get_events`/`get_grouped_events`: a falsy id (`None`
      or 0) selects every event, any other id only the events with that id. */
  function Select(es: seq<ScheduleEvent>, id: Option<int>): (r: seq<ScheduleEvent>)
    ensures forall e :: e in r <==> e in es && (id.None? || id.value == 0 || e.id == id.value)
  {
    if id.Some? && id.value != 0 then Filter(es, HasId(id.value)) else es
  }

  /** `get_events`: the selected events of each date, in the order of the day
      map's keys. */
  function EventsOf(dates: seq<Date>, days: map<Date, seq<ScheduleEvent>>, id: Option<int>): (r: seq<ScheduleEvent>)
    requires forall d :: d in dates ==> d in days
  {
    if dates == [] then []
    else EventsOf(dates[..|dates| - 1], days, id) + Select(days[dates[|dates| - 1]], id)
  }

  /** An event is returned by `get_events` exactly when some date holds it
      and it is selected by the id. */
  lemma {:induction false} EventsOfMembers(dates: seq<Date>, days: map<Date, seq<ScheduleEvent>>, id: Option<int>, e: ScheduleEvent)
    requires forall d :: d in dates ==> d in days
    ensures e in EventsOf(dates, days, id) <==>
      (id.None? || id.value == 0 || e.id == id.value) && exists d :: d in dates && e in days[d]
  {
    if dates != [] {
      var init, last := dates[..|dates| - 1], dates[|dates| - 1];
      assert forall d :: d in dates <==> d in init || d == last;
      EventsOfMembers(init, days, id, e);
    }
  }

  /** `get_grouped_events`: each date mapped to its selected events. */
  function GroupedEvents(days: map<Date, seq<ScheduleEvent>>, id: Option<int>): (r: map<Date, seq<ScheduleEvent>>)
    ensures r.Keys == days.Keys
  {
    map d | d in days :: Select(days[d], id)
  }

  /** The schedule of `Schedule.__init__`: one day per date from `start` to
      `end`, holding the prepared events of that date or none. */
  function InitialDays(start: Date, end: Date, prep: map<Date, seq<ScheduleEvent>>): (r: map<Date, seq<ScheduleEvent>>)
    ensures forall d :: d in r <==> start <= d <= end
    ensures forall d :: d in r ==> r[d] == if d in prep then prep[d] else []
  {
    DateRangeMembers(start, end);
    map d | d in DateRange(start, end) :: if d in prep then prep[d] else []
  }

  lemma DateRangeDistinct(a: Date, b: Date)
    ensures Distinct(DateRange(a, b))
  {
    var r := DateRange(a, b);
    forall i, j | 0 <= i < j < |r| ensures r[i] != r[j] {
      DateRangeAt(a, b, i);
      DateRangeAt(a, b, j);
    }
  }

  /** A schedule with its quota bookkeeping. The day map is the pair of its
      key order `dates` and its contents `days`. */
  class Schedule {
    const start: Date
    const end: Date
    const useValidation: bool
    const dailyLimit: int
    const quota: ScheduleQuota
    var name: Option<string>
    var dates: seq<Date>
    var days: map<Date, seq<ScheduleEvent>>

    ghost predicate Valid()
      reads this
    {
      Distinct(dates) && forall d :: d in days <==> d in dates
    }

    function State(): (s: ScheduleState)
      reads this, quota
    {
      ScheduleState(start, end, dates, days, quota.eventQuotas, useValidation, dailyLimit)
    }

    /** `Schedule(sch_options, prep_events)`: one day per date of the planning
        interval, in ascending order, holding the prepared events of that date
        or none; validation defaults to on in the options. */
    constructor(start: Date, end: Date, useValidation: bool, dailyLimit: int, name: Option<string>,
                prep: map<Date, seq<ScheduleEvent>>)
      ensures Valid() && fresh(quota)
      ensures State() == ScheduleState(start, end, DateRange(start, end), InitialDays(start, end, prep),
                                       map[], useValidation, dailyLimit)
      ensures this.name == name
    {
      this.start := start;
      this.end := end;
      this.useValidation := useValidation;
      this.dailyLimit := dailyLimit;
      this.name := name;
      quota := new ScheduleQuota();
      DateRangeMembers(start, end);
      DateRangeDistinct(start, end);
      dates := DateRange(start, end);
      var m := PrepareDays(DateRange(start, end), prep);
      days := m;
      assert forall d :: d in m ==> m[d] == InitialDays(start, end, prep)[d];
    }

    /** The loop of `Schedule.__init__` over the planning interval. */
    static method PrepareDays(range: seq<Date>, prep: map<Date, seq<ScheduleEvent>>)
      returns (m: map<Date, seq<ScheduleEvent>>)
      ensures forall d :: d in m <==> d in range
      ensures forall d :: d in m ==> m[d] == if d in prep then prep[d] else []
    {
      m := map[];
      var i := 0;
      while i < |range|
        invariant 0 <= i <= |range|
        invariant forall d :: d in m <==> d in range[..i]
        invariant forall d :: d in m ==> m[d] == if d in prep then prep[d] else []
      {
        var d := range[i];
        m := m[d := if d in prep then prep[d] else []];
        assert range[..i + 1] == range[..i] + [d];
        i := i + 1;
      }
      assert range[..i] == range;
    }

    /** `add_date`: a new, empty day after the existing ones; a date already
        present is rejected and nothing changes. */
    method AddDate(d: Date) returns (o: Outcome)
      requires Valid()
      modifies this
      ensures Valid()
      ensures old(d in days) ==> o == Fail(ExistingDate) && dates == old(dates) && days == old(days)
      ensures old(d !in days) ==> o == Pass && dates == old(dates) + [d] && days == old(days)[d := []]
    {
      if d in days {
        return Fail(ExistingDate);
      }
      dates := dates + [d];
      days := days[d := []];
      o := Pass;
    }

    /** `add_event(dates, sch_event)`: see `AddEventSpec`. */
    method AddEvent(arg: DatesArg, ev: ScheduleEvent) returns (o: Outcome)
      requires Valid()
      modifies this, quota
      ensures Valid()
      ensures Step(State(), o) == AddEventSpec(old(State()), arg, ev)
    {
      if arg.NotAList? {
        return Fail(DatesNotAList);
      }
      var ds := arg.dates;
      ghost var s0 := State();
      var i := 0;
      while i < |ds|
        invariant 0 <= i <= |ds|
        invariant Valid()
        invariant AddAll(s0, ev, ds[..i], ds) == Step(State(), Pass)
      {
        assert ds[..i + 1][..i] == ds[..i];
        o := AddToDate(ev, ds[i], ds);
        if o.Fail? {
          AddAllStops(s0, ev, ds, ds, i + 1);
          return;
        }
        i := i + 1;
      }
      assert ds[..i] == ds;
      o := Pass;
    }

    /** One pass of `add_event`'s loop. */
    method AddToDate(ev: ScheduleEvent, d: Date, all: seq<Date>) returns (o: Outcome)
      requires Valid()
      modifies this, quota
      ensures Valid()
      ensures Step(State(), o) == AddStep(old(State()), ev, d, all)
    {
      if d !in days {
        return Fail(MissingDate);
      }
      if useValidation {
        var v := quota.Validate(ev, [d]);
        if v.Fail? {
          return v;
        }
      }
      days := days[d := days[d] + [ev]];
      if |days[d]| > dailyLimit {
        return Fail(DailyLimitExceeded);
      }
      var c := quota.ConsumeQuotaUsage(ev, all, 1);
      if c.Err? {
        return Fail(c.error);
      }
      o := Pass;
    }

    /** `remove_event`: rebuilds every day's list without the events carrying
        the event's id. */
    method RemoveEvent(ev: ScheduleEvent)
      requires Valid()
      modifies this
      ensures Valid()
      ensures dates == old(dates) && days == RemoveEventSpec(old(days), ev.id)
    {
      RemoveOnAll(days, ev.id, dates);
      days := RemoveFromDays(days, dates, ev.id);
    }

    /** The outer loop of `remove_event`, over the dates of the day map. */
    static method RemoveFromDays(before: map<Date, seq<ScheduleEvent>>, ds: seq<Date>, id: int)
      returns (m: map<Date, seq<ScheduleEvent>>)
      requires forall d :: d in ds ==> d in before
      ensures m == RemoveOn(before, id, ds)
    {
      m := before;
      var i := 0;
      while i < |ds|
        invariant 0 <= i <= |ds|
        invariant m == RemoveOn(before, id, ds[..i])
      {
        assert ds[..i + 1][..i] == ds[..i];
        var kept := KeepOtherIds(before[ds[i]], id);
        m := m[ds[i] := kept];
        i := i + 1;
      }
      assert ds[..i] == ds;
    }

    /** The inner loop of `remove_event`. */
    static method KeepOtherIds(es: seq<ScheduleEvent>, id: int) returns (kept: seq<ScheduleEvent>)
      ensures kept == Filter(es, OtherId(id))
    {
      kept := [];
      var j := 0;
      while j < |es|
        invariant 0 <= j <= |es|
        invariant kept == Filter(es[..j], OtherId(id))
      {
        FilterAppend(es[..j], [es[j]], OtherId(id));
        assert es[..j + 1] == es[..j] + [es[j]];
        if es[j].id != id {
          kept := kept + [es[j]];
        }
        j := j + 1;
      }
      assert es[..j] == es;
    }

    /** `get_events(sch_event_id)`. */
    method GetEvents(id: Option<int>) returns (events: seq<ScheduleEvent>)
      requires Valid()
      ensures events == EventsOf(dates, days, id)
    {
      events := [];
      var i := 0;
      while i < |dates|
        invariant 0 <= i <= |dates|
        invariant events == EventsOf(dates[..i], days, id)
      {
        assert dates[..i + 1][..i] == dates[..i];
        if id.Some? && id.value != 0 {
          var matching := KeepId(days[dates[i]], id.value);
          events := events + matching;
        } else {
          events := events + days[dates[i]];
        }
        i := i + 1;
      }
      assert dates[..i] == dates;
    }

    static method KeepId(es: seq<ScheduleEvent>, id: int) returns (kept: seq<ScheduleEvent>)
      ensures kept == Filter(es, HasId(id))
    {
      kept := [];
      var j := 0;
      while j < |es|
        invariant 0 <= j <= |es|
        invariant kept == Filter(es[..j], HasId(id))
      {
        FilterAppend(es[..j], [es[j]], HasId(id));
        assert es[..j + 1] == es[..j] + [es[j]];
        if es[j].id == id {
          kept := kept + [es[j]];
        }
        j := j + 1;
      }
      assert es[..j] == es;
    }

    /** `get_grouped_events(sch_event_id)`. */
    method GetGroupedEvents(id: Option<int>) returns (grouped: map<Date, seq<ScheduleEvent>>)
      requires Valid()
      ensures grouped == GroupedEvents(days, id)
    {
      grouped := map[];
      var i := 0;
      while i < |dates|
        invariant 0 <= i <= |dates|
        invariant forall d :: d in grouped <==> d in dates[..i]
        invariant forall d :: d in grouped ==> grouped[d] == Select(days[d], id)
      {
        var d := dates[i];
        var events: seq<ScheduleEvent>;
        if id.Some? && id.value != 0 {
          events := KeepId(days[d], id.value);
        } else {
          events := days[d];
        }
        assert events == Select(days[d], id);
        grouped := grouped[d := events];
        assert dates[..i + 1] == dates[..i] + [d];
        i := i + 1;
      }
      assert dates[..i] == dates;
    }

    /** `get_events_by_date(date)`: a missing date raises `KeyError`. */
    function EventsByDate(d: Date): (r: Result<seq<ScheduleEvent>>)
      reads this
      ensures r.Err? <==> d !in days
      ensures r.Ok? ==> r.value == days[d]
    {
      if d in days then Ok(days[d]) else Err(MissingDate)
    }

    /** `day_has_event(date)`. */
    function DayHasEvent(d: Date): (r: Result<bool>)
      reads this
      ensures r.Err? <==> d !in days
      ensures r.Ok? ==> (r.value <==> days[d] != [])
    {
      if d in days then Ok(|days[d]| > 0) else Err(MissingDate)
    }

    /** `copy.deepcopy(schedule)`: a fresh schedule with fresh quota
        bookkeeping and the same contents. */
    method Clone() returns (c: Schedule)
      requires Valid()
      ensures fresh(c) && fresh(c.quota) && c.Valid()
      ensures c.State() == State() && c.name == name
    {
      c := new Schedule.Copy(start, end, useValidation, dailyLimit, name, dates, days, quota.eventQuotas);
    }

    constructor Copy(start: Date, end: Date, useValidation: bool, dailyLimit: int, name: Option<string>,
                     dates: seq<Date>, days: map<Date, seq<ScheduleEvent>>, quotas: map<int, seq<QuotaWindow>>)
      ensures fresh(quota)
      ensures State() == ScheduleState(start, end, dates, days, quotas, useValidation, dailyLimit)
      ensures this.name == name
    {
      this.start := start;
      this.end := end;
      this.useValidation := useValidation;
      this.dailyLimit := dailyLimit;
      this.name := name;
      this.dates := dates;
      this.days := days;
      var q := new ScheduleQuota();
      q.eventQuotas := quotas;
      this.quota := q;
    }
  }

  // ---------------------------------------------------------------------
  // Iteration order

  /** The key order of `ScheduleIterator(sch_dct, iter_method)`: `sorted` and
      `standard` sort the keys, `random` takes `shuffled`, the outcome of
      `random.shuffle` on the keys, and any other method is rejected. */
  function IterationOrder(keys: seq<Date>, iterMethod: string, shuffled: seq<Date>): (r: Result<seq<Date>>)
    requires iterMethod == "random" ==> multiset(shuffled) == multiset(keys)
    ensures r.Err? <==> iterMethod !in {"sorted", "standard", "random"}
    ensures r.Err? ==> r.error == UnknownIterMethod
    ensures r.Ok? ==> multiset(r.value) == multiset(keys)
  {
    if iterMethod == "sorted" || iterMethod == "standard" then Ok(SortedDates(keys))
    else if iterMethod == "random" then Ok(shuffled)
    else Err(UnknownIterMethod)
  }

  /** Python's `sorted` on dates. */
  function SortedDates(keys: seq<Date>): (r: seq<Date>)
    ensures r == Sorted(keys)
    ensures forall d :: d in r <==> d in keys
  {
    var s := Sorted(keys);
    SortedMembers(keys);
    assert forall i :: 0 <= i < |s| ==> s[i] >= 1;
    s
  }

  /** For the keys of a dictionary (each present once), `sorted` yields each
      key exactly once, in ascending order. */
  lemma IterationOrderSorted(keys: seq<Date>, shuffled: seq<Date>)
    requires Distinct(keys)
    ensures var r := IterationOrder(keys, "sorted", shuffled);
      r.Ok? && Ascending(r.value) && |r.value| == |keys|
      && forall d :: d in r.value <==> d in keys
  {
    SortedDistinctAscending(keys);
  }

  /** Steps through a fixed list of keys. */
  class ScheduleIterator {
    const items: seq<Date>
    var index: nat

    ghost predicate Valid()
      reads this
    {
      index <= |items|
    }

    constructor(items: seq<Date>)
      ensures Valid() && this.items == items && index == 0
    {
      this.items := items;
      index := 0;
    }

    /** `__next__`: the next key, or `None` (`StopIteration`) after the last. */
    method Next() returns (r: Option<Date>)
      requires Valid()
      modifies this
      ensures Valid()
      ensures old(index) < |items| ==> r == Some(items[old(index)]) && index == old(index) + 1
      ensures old(index) == |items| ==> r == None && index == old(index)
    {
      if index + 1 > |items| {
        return None;
      }
      r := Some(items[index]);
      index := index + 1;
    }
  }

  /** `ScheduleIterator(sch_dct, iter_method)` over the keys of a dictionary. */
  method NewScheduleIterator(keys: seq<Date>, iterMethod: string, shuffled: seq<Date>)
    returns (r: Result<ScheduleIterator>)
    requires iterMethod == "random" ==> multiset(shuffled) == multiset(keys)
    ensures r.Err? <==> IterationOrder(keys, iterMethod, shuffled).Err?
    ensures r.Err? ==> r.error == UnknownIterMethod
    ensures r.Ok? ==>
      fresh(r.value) && r.value.Valid() && r.value.index == 0
      && r.value.items == IterationOrder(keys, iterMethod, shuffled).value
  {
    var order := IterationOrder(keys, iterMethod, shuffled);
    if order.Err? {
      return Err(order.error);
    }
    var it := new ScheduleIterator(order.value);
    r := Ok(it);
  }
}
