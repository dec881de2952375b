/** The schedule manager (core/schedule/schedule_manager.py): schedules under
    string keys, at most one of them the master; an event added to one
    schedule can be removed from all the others. */
module Managers {
  import opened Outcomes
  import opened Seqs
  import opened Calendar
  import opened ScheduleEvents
  import opened Schedules

  /** The reserved key of the master schedule. */
  const MasterKey: string := "master"

  /** A schedule after `remove_event` of id `id`. */
  function WithoutId(s: ScheduleState, id: int): (r: ScheduleState)
    ensures r == s.(days := RemoveEventSpec(s.days, id))
  {
    s.(days := RemoveEventSpec(s.days, id))
  }

  /** Python truthiness of the `master` field: set and non-empty. */
  predicate Truthy(key: Option<string>) {
    key.Some? && key.value != ""
  }

  /** What `__add_schedule` does to the registry: the error, if any, and
      whether the schedule ends up stored (a second master is stored before
      the error is raised). */
  function AddScheduleOutcome(keys: set<string>, master: Option<string>, key: Option<string>, isMaster: bool)
    : (r: Outcome)
    ensures r.Pass? ==> key.Some? && key.value !in keys && key.value != "" && !(isMaster && Truthy(master))
  {
    if key.None? then Fail(NullKey)
    else if key.value in keys then Fail(KeyInUse)
    else if |key.value| == 0 then Fail(EmptyKey)
    else if isMaster && Truthy(master) then Fail(MasterAlreadySet)
    else Pass
  }

  class ScheduleManager {
    var order: seq<string>
    var schedules: map<string, Schedule>
    var master: Option<string>

    ghost function Registered(): set<Schedule>
      reads this
    {
      set k | k in schedules :: schedules[k]
    }

    ghost function Quotas(): set<ScheduleQuota>
      reads this
    {
      set k | k in schedules :: schedules[k].quota
    }

    /** `order` lists the keys in insertion order; every key has its own
        schedule object with its own quota bookkeeping. */
    ghost predicate Valid()
      reads this, Registered()
    {
      Distinct(order)
      && (forall k :: k in schedules <==> k in order)
      && (forall k :: k in schedules ==> schedules[k].Valid())
      && (forall k1, k2 :: k1 in schedules && k2 in schedules && k1 != k2 ==>
            schedules[k1] != schedules[k2] && schedules[k1].quota != schedules[k2].quota)
    }

    constructor()
      ensures Valid() && schedules == map[] && order == [] && master == None
    {
      order := [];
      schedules := map[];
      master := None;
    }

    /** `__add_schedule(schedule, sch_key, is_master)`. The schedule object
        must not be registered already. */
    method AddSchedule(s: Schedule, key: Option<string>, isMaster: bool) returns (o: Outcome)
      requires Valid() && s.Valid() && s !in Registered() && s.quota !in Quotas()
      modifies this
      ensures Valid()
      ensures o == AddScheduleOutcome(old(schedules.Keys), old(master), key, isMaster)
      ensures o.Pass? || o == Fail(MasterAlreadySet) ==>
        schedules == old(schedules)[key.value := s] && order == old(order) + [key.value]
      ensures o.Fail? && o != Fail(MasterAlreadySet) ==> schedules == old(schedules) && order == old(order)
      ensures master == if o.Pass? && isMaster then key else old(master)
    {
      if key.None? {
        return Fail(NullKey);
      }
      if key.value in schedules {
        return Fail(KeyInUse);
      }
      if |key.value| == 0 {
        return Fail(EmptyKey);
      }
      assert key.value !in order;
      schedules := schedules[key.value := s];
      order := order + [key.value];
      if isMaster {
        if master.Some? && master.value != "" {
          return Fail(MasterAlreadySet);
        }
        master := key;
      }
      o := Pass;
    }

    /** `add_master_schedule`: registers under `master` and marks it master. */
    method AddMasterSchedule(s: Schedule) returns (o: Outcome)
      requires Valid() && s.Valid() && s !in Registered() && s.quota !in Quotas()
      modifies this
      ensures Valid()
      ensures o == AddScheduleOutcome(old(schedules.Keys), old(master), Some(MasterKey), true)
      ensures o.Pass? ==> master == Some(MasterKey) && schedules == old(schedules)[MasterKey := s]
      ensures o.Fail? ==> master == old(master)
    {
      o := AddSchedule(s, Some(MasterKey), true);
    }

    /** `add_minion_schedule`. */
    method AddMinionSchedule(s: Schedule, key: Option<string>) returns (o: Outcome)
      requires Valid() && s.Valid() && s !in Registered() && s.quota !in Quotas()
      modifies this
      ensures Valid() && master == old(master)
      ensures o == AddScheduleOutcome(old(schedules.Keys), old(master), key, false)
      ensures o.Pass? ==> schedules == old(schedules)[key.value := s]
      ensures o.Fail? ==> schedules == old(schedules)
    {
      o := AddSchedule(s, key, false);
    }

    /** `has_master_schedule`: a master key is set, whether or not a
        schedule is registered under it. */
    function HasMasterSchedule(): (r: bool)
      reads this
      ensures r <==> master.Some?
    {
      master.Some?
    }

    /** `set_master`: any key is accepted, registered or not. */
    method SetMaster(key: Option<string>)
      modifies this
      ensures master == key && schedules == old(schedules) && order == old(order)
    {
      master := key;
    }

    /** `get_master_schedule`: the schedule under the literal key `master`. */
    function GetMasterSchedule(): (r: Result<Schedule>)
      reads this
      ensures r.Ok? <==> MasterKey in schedules
      ensures r.Ok? ==> r.value == schedules[MasterKey]
      ensures r.Err? ==> r.error == UnknownKey
    {
      if MasterKey in schedules then Ok(schedules[MasterKey]) else Err(UnknownKey)
    }

    function GetMinionSchedule(key: string): (r: Result<Schedule>)
      reads this
      ensures r.Ok? <==> key in schedules
      ensures r.Ok? ==> r.value == schedules[key]
    {
      if key in schedules then Ok(schedules[key]) else Err(UnknownKey)
    }

    /** `spawn_minion_schedule`: registers a deep copy of the master as a
        minion. The copy is a new object with its own quota bookkeeping, so
        later changes to the master do not reach it. */
    method SpawnMinionSchedule(key: Option<string>) returns (o: Outcome)
      requires Valid()
      modifies this
      ensures Valid() && master == old(master)
      ensures MasterKey !in old(schedules) ==> o == Fail(UnknownKey) && schedules == old(schedules)
      ensures MasterKey in old(schedules) ==>
        o == AddScheduleOutcome(old(schedules.Keys), old(master), key, false)
      ensures o.Pass? ==>
        schedules.Keys == old(schedules.Keys) + {key.value}
        && fresh(schedules[key.value]) && fresh(schedules[key.value].quota)
        && schedules[key.value].State() == old(schedules[MasterKey].State())
        && forall k :: k in old(schedules) ==> schedules[k] == old(schedules[k])
      ensures o.Fail? ==> schedules == old(schedules)
    {
      var m := GetMasterSchedule();
      if m.Err? {
        return Fail(m.error);
      }
      var minion := m.value.Clone();
      o := AddMinionSchedule(minion, key);
    }

    /** `__add_event`: adds to the schedule under `key`; then, when a master is
        set and `removeFromMinions` holds, removes the event's id from every
        other schedule. A failure of the target's `add_event` leaves every
        other schedule as it was. */
    method AddEvent(key: string, arg: DatesArg, ev: ScheduleEvent, removeFromMinions: bool) returns (o: Outcome)
      requires Valid()
      modifies Registered(), Quotas()
      ensures Valid()
      ensures schedules == map[] ==> o == Fail(NoSchedules)
      ensures schedules != map[] && key !in schedules ==> o == Fail(UnknownKey)
      ensures key !in schedules ==> forall k :: k in schedules ==> schedules[k].State() == old(schedules[k].State())
      ensures key in schedules ==>
        var target := AddEventSpec(old(schedules[key].State()), arg, ev);
        o == target.outcome && schedules[key].State() == target.state
        && forall k :: k in schedules && k != key ==>
             schedules[k].State() == if o.Pass? && Truthy(master) && removeFromMinions
                                     then WithoutId(old(schedules[k].State()), ev.id)
                                     else old(schedules[k].State())
    {
      if schedules == map[] {
        return Fail(NoSchedules);
      }
      if key !in schedules {
        return Fail(UnknownKey);
      }
      o := AddTo(key, arg, ev);
      if o.Fail? {
        return;
      }
      if master.Some? && master.value != "" && removeFromMinions {
        RemoveFromOthers(key, ev);
      }
    }

    /** The call of the target's `add_event`: no other schedule changes. */
    method AddTo(key: string, arg: DatesArg, ev: ScheduleEvent) returns (o: Outcome)
      requires Valid() && key in schedules
      modifies schedules[key], schedules[key].quota
      ensures Valid()
      ensures Step(schedules[key].State(), o) == AddEventSpec(old(schedules[key].State()), arg, ev)
      ensures forall k :: k in schedules && k != key ==> schedules[k].State() == old(schedules[k].State())
    {
      o := schedules[key].AddEvent(arg, ev);
    }

    /** One pass of the removal loop: only the schedule under `key` changes. */
    method RemoveAt(key: string, ev: ScheduleEvent)
      requires Valid() && key in schedules
      modifies schedules[key]
      ensures Valid()
      ensures schedules[key].State() == WithoutId(old(schedules[key].State()), ev.id)
      ensures forall k :: k in schedules && k != key ==> schedules[k].State() == old(schedules[k].State())
    {
      schedules[key].RemoveEvent(ev);
    }

    /** The loop of `__add_event` over the other schedules. */
    method RemoveFromOthers(key: string, ev: ScheduleEvent)
      requires Valid()
      modifies Registered()
      ensures Valid()
      ensures forall k :: k in schedules ==>
        schedules[k].State() == if k == key then old(schedules[k].State()) else WithoutId(old(schedules[k].State()), ev.id)
    {
      ghost var before := map k | k in schedules :: schedules[k].State();
      var i := 0;
      while i < |order|
        invariant RemovedUpTo(key, ev.id, before, i)
      {
        RemoveIfOther(key, ev, i, before);
        i := i + 1;
      }
      assert order[..i] == order;
    }

    /** Every schedule listed in `order[..n]`, except that of `key`, has
        lost the event `id`; every other one is as in `before`. */
    ghost predicate RemovedUpTo(key: string, id: int, before: map<string, ScheduleState>, n: int)
      reads this, Registered(), Quotas()
    {
      && Valid() && 0 <= n <= |order| && before.Keys == schedules.Keys
      && forall k :: k in schedules ==>
           schedules[k].State() == if k != key && k in order[..n] then WithoutId(before[k], id) else before[k]
    }

    /** One turn of that loop: the schedule at position `i` of `order`
        loses the event unless it is the schedule of `key`. */
    method RemoveIfOther(key: string, ev: ScheduleEvent, i: int, ghost before: map<string, ScheduleState>)
      requires i < |order| && RemovedUpTo(key, ev.id, before, i)
      modifies Registered()
      ensures RemovedUpTo(key, ev.id, before, i + 1)
    {
      var k := order[i];
      assert order[..i + 1] == order[..i] + [k];
      DistinctNotInPrefix(order, i);
      if k != key {
        RemoveAt(k, ev);
      }
    }

    /** `add_master_event`: requires a master to be set. */
    method AddMasterEvent(arg: DatesArg, ev: ScheduleEvent, removeFromMinions: bool) returns (o: Outcome)
      requires Valid()
      modifies Registered(), Quotas()
      ensures Valid()
      ensures master.None? ==> o == Fail(NoMaster)
      ensures master.None? || master.value !in schedules ==>
        forall k :: k in schedules ==> schedules[k].State() == old(schedules[k].State())
      ensures master.Some? && master.value !in schedules ==> o.Fail?
      ensures master.Some? && master.value in schedules ==>
        var target := AddEventSpec(old(schedules[master.value].State()), arg, ev);
        o == target.outcome && schedules[master.value].State() == target.state
        && forall k :: k in schedules && k != master.value ==>
             schedules[k].State() == if o.Pass? && Truthy(master) && removeFromMinions
                                     then WithoutId(old(schedules[k].State()), ev.id)
                                     else old(schedules[k].State())
    {
      if master.None? {
        return Fail(NoMaster);
      }
      o := AddEvent(master.value, arg, ev, removeFromMinions);
    }

    /** `add_minion_event`: never removes the event from other schedules. */
    method AddMinionEvent(key: string, arg: DatesArg, ev: ScheduleEvent) returns (o: Outcome)
      requires Valid()
      modifies Registered(), Quotas()
      ensures Valid()
      ensures key !in schedules ==> o.Fail?
      ensures forall k :: k in schedules && k != key ==> schedules[k].State() == old(schedules[k].State())
      ensures key in schedules ==>
        var target := AddEventSpec(old(schedules[key].State()), arg, ev);
        o == target.outcome && schedules[key].State() == target.state
    {
      o := AddEvent(key, arg, ev, false);
    }
  }

  /** With removal from minions, a successful addition leaves the event on
      every given date of the target, and no other schedule holds any event
      with that id. */
  lemma TrackedAddition(before: map<string, ScheduleState>, after: map<string, ScheduleState>,
                        key: string, ds: seq<Date>, ev: ScheduleEvent)
    requires key in before && after.Keys == before.Keys
    requires AddEventSpec(before[key], DateList(ds), ev).outcome == Pass
    requires after[key] == AddEventSpec(before[key], DateList(ds), ev).state
    requires forall k :: k in before && k != key ==> after[k] == WithoutId(before[k], ev.id)
    ensures forall d :: d in ds ==> d in after[key].days && ev in after[key].days[d]
    ensures forall k, d, e :: k in after && k != key && d in after[k].days && e in after[k].days[d] ==> e.id != ev.id
  {
    AddEventPlaces(before[key], ds, ev);
    forall k | k in before && k != key {
      RemoveEventEffect(before[k].days, ev.id);
    }
  }
}
