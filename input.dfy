/** `ScheduleInput` (core/schedule/schedule_input.py): the event data and the
    rule-set documents handed to the engine, with a cache of the schedule
    events made from the event rows. */
module ScheduleInputs {
  import opened Outcomes
  import opened Seqs
  import opened Calendar
  import opened ScheduleEvents
  import opened Schedules
  import opened RuleSets

  /** One row of the event data's `data` list. */
  datatype EventRow = EventRow(
    id: int,
    name: string,
    rules: seq<string>,
    prio: Option<int>,
    active: Option<int>,
    startdate: Option<Date>,
    enddate: Option<Date>)

  /** The `rule_set` argument: a single document or a list of documents. */
  datatype RuleSetArg = OneDoc(doc: RuleDoc) | DocList(docs: seq<RuleDoc>)

  /** `ScheduleEvent(row)`: the event reads the row's fields; it has no
      candidates, boundaries or metadata yet. */
  function ToEvent(row: EventRow): (e: ScheduleEvent)
    ensures e.id == row.id && e.name == row.name && e.rules == row.rules && e.prio == row.prio
    ensures e.mindate == row.startdate && e.maxdate == row.enddate && e.active == row.active
    ensures e.candidates.None? && e.boundaries == [] && e.meta == map[]
  {
    ScheduleEvent(row.id, row.name, row.rules, row.prio, None, row.startdate, row.enddate, row.active, [], map[])
  }

  /** A row without a `prio` gets the default one written into it. */
  function WithPrio(row: EventRow, defaultPrio: Option<int>): (r: EventRow)
    ensures r.prio == if row.prio.None? then defaultPrio else row.prio
    ensures r == row.(prio := r.prio)
  {
    if row.prio.None? then row.(prio := defaultPrio) else row
  }

  /** The rows after a conversion pass, and the events it made or the error
      that stopped it. */
  datatype Conversion = Conversion(rows: seq<EventRow>, events: Result<seq<ScheduleEvent>>)

  /** The loop of `get_event_data` over the rows: when inactive rows are
      skipped, a row whose `active` is 0 is passed over untouched and a row
      without `active` fails; every other row gets its default `prio` and
      becomes an event. Rows after a failure are not visited. */
  function Convert(rows: seq<EventRow>, requireActive: bool, defaultPrio: Option<int>): (c: Conversion)
    ensures |c.rows| == |rows|
    ensures c.events.Err? ==> c.events.error == MissingActive
  {
    if rows == [] then Conversion([], Ok([]))
    else
      var prev := Convert(rows[..|rows| - 1], requireActive, defaultPrio);
      var row := rows[|rows| - 1];
      if prev.events.Err? then Conversion(prev.rows + [row], prev.events)
      else if requireActive && row.active.None? then Conversion(prev.rows + [row], Err(MissingActive))
      else if requireActive && row.active.value == 0 then Conversion(prev.rows + [row], prev.events)
      else
        var filled := WithPrio(row, defaultPrio);
        Conversion(prev.rows + [filled], Ok(prev.events.value + [ToEvent(filled)]))
  }

  /** The events of the rows, in order, each with its default `prio`. */
  function Events(rows: seq<EventRow>, defaultPrio: Option<int>): (r: seq<ScheduleEvent>)
    ensures |r| == |rows|
  {
    if rows == [] then [] else Events(rows[..|rows| - 1], defaultPrio) + [ToEvent(WithPrio(rows[|rows| - 1], defaultPrio))]
  }

  /** The k-th event is made from the k-th row, with its default `prio`. */
  lemma {:induction false} EventsAt(rows: seq<EventRow>, defaultPrio: Option<int>, k: int)
    requires 0 <= k < |rows|
    ensures Events(rows, defaultPrio)[k] == ToEvent(WithPrio(rows[k], defaultPrio))
  {
    if k < |rows| - 1 {
      var init := rows[..|rows| - 1];
      EventsAt(init, defaultPrio, k);
    }
  }

  /** Whether a row counts as active: its `active` is not 0. */
  function IsActive(): EventRow -> bool {
    (row: EventRow) => row.active != Some(0)
  }

  /** Without skipping, every row becomes an event, in input order, and every
      row gets its default `prio` written into it. */
  lemma {:induction false} ConvertKeepsAll(rows: seq<EventRow>, defaultPrio: Option<int>)
    ensures Convert(rows, false, defaultPrio) ==
      Conversion(seq(|rows|, i requires 0 <= i < |rows| => WithPrio(rows[i], defaultPrio)), Ok(Events(rows, defaultPrio)))
  {
    if rows != [] {
      var init := rows[..|rows| - 1];
      ConvertKeepsAll(init, defaultPrio);
      var c := Convert(rows, false, defaultPrio);
      assert c.rows == seq(|rows|, i requires 0 <= i < |rows| => WithPrio(rows[i], defaultPrio));
    }
  }

  /** Without a default `prio`, filling leaves every row as it was. */
  lemma WithoutPrioUnchanged(rows: seq<EventRow>)
    ensures seq(|rows|, i requires 0 <= i < |rows| => WithPrio(rows[i], None)) == rows
  {
  }

  /** Appending a row appends its event. */
  lemma EventsSnoc(rows: seq<EventRow>, row: EventRow, defaultPrio: Option<int>)
    ensures Events(rows + [row], defaultPrio) == Events(rows, defaultPrio) + [ToEvent(WithPrio(row, defaultPrio))]
  {
    assert (rows + [row])[..|rows|] == rows;
  }

  /** Filtering a non-empty list: the filtered front, then the last row if
      it is active. */
  lemma FilterLast(rows: seq<EventRow>)
    requires rows != []
    ensures Filter(rows, IsActive()) ==
      Filter(rows[..|rows| - 1], IsActive()) + if IsActive()(rows[|rows| - 1]) then [rows[|rows| - 1]] else []
  {
    var init, last := rows[..|rows| - 1], rows[|rows| - 1];
    assert rows == init + [last];
    FilterAppend(init, [last], IsActive());
    assert Filter([last], IsActive()) == if IsActive()(last) then [last] else [];
  }

  /** The events of the active rows, in order. */
  function ActiveEvents(rows: seq<EventRow>, defaultPrio: Option<int>): (r: seq<ScheduleEvent>)
    ensures |r| <= |rows|
  {
    if rows == [] then []
    else
      var prev := ActiveEvents(rows[..|rows| - 1], defaultPrio);
      var last := rows[|rows| - 1];
      if IsActive()(last) then prev + [ToEvent(WithPrio(last, defaultPrio))] else prev
  }

  /** The events of the active rows are the events of the filtered rows. */
  lemma {:induction false} ActiveEventsFiltered(rows: seq<EventRow>, defaultPrio: Option<int>)
    ensures ActiveEvents(rows, defaultPrio) == Events(Filter(rows, IsActive()), defaultPrio)
  {
    if rows != [] {
      var init, last := rows[..|rows| - 1], rows[|rows| - 1];
      ActiveEventsFiltered(init, defaultPrio);
      var kept := Filter(init, IsActive());
      FilterLast(rows);
      if IsActive()(last) {
        EventsSnoc(kept, last, defaultPrio);
      } else {
        assert kept + [] == kept;
      }
    }
  }

  /** With skipping, when every row has `active`, the events are those of
      the active rows, in input order. */
  lemma {:induction false} ConvertKeepsActive(rows: seq<EventRow>, defaultPrio: Option<int>)
    requires forall i :: 0 <= i < |rows| ==> rows[i].active.Some?
    ensures Convert(rows, true, defaultPrio).events == Ok(Events(Filter(rows, IsActive()), defaultPrio))
  {
    ConvertActive(rows, defaultPrio);
    ActiveEventsFiltered(rows, defaultPrio);
  }

  lemma {:induction false} ConvertActive(rows: seq<EventRow>, defaultPrio: Option<int>)
    requires forall i :: 0 <= i < |rows| ==> rows[i].active.Some?
    ensures Convert(rows, true, defaultPrio).events == Ok(ActiveEvents(rows, defaultPrio))
  {
    if rows != [] {
      var init := rows[..|rows| - 1];
      assert forall i :: 0 <= i < |init| ==> init[i] == rows[i];
      ConvertActive(init, defaultPrio);
    }
  }

  /** With skipping, when every row has `active`, only the active rows get a
      default `prio` written into them. */
  lemma {:induction false} ConvertFillsActive(rows: seq<EventRow>, defaultPrio: Option<int>)
    requires forall i :: 0 <= i < |rows| ==> rows[i].active.Some?
    ensures forall i :: 0 <= i < |rows| ==>
      Convert(rows, true, defaultPrio).rows[i] == if rows[i].active != Some(0) then WithPrio(rows[i], defaultPrio) else rows[i]
  {
    if rows != [] {
      var init := rows[..|rows| - 1];
      assert forall i :: 0 <= i < |init| ==> init[i] == rows[i];
      ConvertFillsActive(init, defaultPrio);
      ConvertActive(init, defaultPrio);
    }
  }

  /** With skipping, a row without `active` fails the conversion. */
  lemma {:induction false} ConvertMissingActive(rows: seq<EventRow>, defaultPrio: Option<int>, k: int)
    requires 0 <= k < |rows| && rows[k].active.None?
    ensures Convert(rows, true, defaultPrio).events == Err(MissingActive)
  {
    var init := rows[..|rows| - 1];
    if k < |rows| - 1 {
      assert init[k] == rows[k];
      ConvertMissingActive(init, defaultPrio, k);
    }
  }

  class ScheduleInput {
    /** The rows of the event data; conversion writes default priorities
        into them. */
    var rows: seq<EventRow>
    /** The rule-set documents, always as a list. */
    const ruleSets: seq<RuleDoc>
    /** The cached events, the cache flag and the setting they were made with. */
    var eventData: Option<seq<ScheduleEvent>>
    var converted: bool
    var requireActive: bool
    var initSchedule: Option<ScheduleState>

    ghost predicate Valid()
      reads this
    {
      converted ==> eventData.Some?
    }

    /** `ScheduleInput(event_data, rule_set, init_schedule)`: a single
        document is wrapped into a one-element list; nothing is converted. */
    constructor(rows: seq<EventRow>, ruleSet: RuleSetArg, initSchedule: Option<ScheduleState>)
      ensures Valid()
      ensures this.rows == rows && this.initSchedule == initSchedule
      ensures ruleSet.OneDoc? ==> ruleSets == [ruleSet.doc]
      ensures ruleSet.DocList? ==> ruleSets == ruleSet.docs
      ensures eventData.None? && !converted && !requireActive
    {
      this.rows := rows;
      ruleSets := match ruleSet
        case OneDoc(doc) => [doc]
        case DocList(docs) => docs;
      eventData := None;
      converted := false;
      requireActive := false;
      this.initSchedule := initSchedule;
    }

    /** `get_event_data(require_active, event_defaults)`: the cached events
        when they were made with the same setting; otherwise the rows are
        converted again and the cache refilled. A failed conversion leaves
        the cache empty-flagged and the setting unchanged. */
    method GetEventData(requireActive: bool, defaultPrio: Option<int>) returns (r: Result<seq<ScheduleEvent>>)
      requires Valid()
      modifies this
      ensures Valid() && initSchedule == old(initSchedule)
      ensures old(converted) && requireActive == old(this.requireActive) ==>
        r == Ok(old(eventData).value) && rows == old(rows) && eventData == old(eventData)
        && converted && this.requireActive == requireActive
      ensures !(old(converted) && requireActive == old(this.requireActive)) ==>
        var c := Convert(old(rows), requireActive, defaultPrio);
        rows == c.rows && r == c.events
        && (r.Ok? ==> eventData == Some(r.value) && converted && this.requireActive == requireActive)
        && (r.Err? ==> eventData == old(eventData) && !converted && this.requireActive == old(this.requireActive))
    {
      if requireActive != this.requireActive {
        converted := false;
      }
      if !converted {
        var c := ConvertRows(rows, requireActive, defaultPrio);
        rows := c.rows;
        if c.events.Err? {
          return c.events;
        }
        eventData := Some(c.events.value);
        converted := true;
      }
      this.requireActive := requireActive;
      r := Ok(eventData.value);
    }

    /** The conversion loop itself, over a copy of the rows. */
    static method ConvertRows(rows: seq<EventRow>, requireActive: bool, defaultPrio: Option<int>) returns (c: Conversion)
      ensures c == Convert(rows, requireActive, defaultPrio)
    {
      var done: seq<EventRow> := [];
      var events: seq<ScheduleEvent> := [];
      var i := 0;
      while i < |rows|
        invariant 0 <= i <= |rows|
        invariant Convert(rows[..i], requireActive, defaultPrio) == Conversion(done, Ok(events))
      {
        assert rows[..i + 1][..i] == rows[..i];
        var row := rows[i];
        if requireActive && row.active.None? {
          ConvertStops(rows, requireActive, defaultPrio, i + 1);
          assert rows[..i + 1] + rows[i + 1..] == rows;
          return Conversion(done + [row] + rows[i + 1..], Err(MissingActive));
        }
        if requireActive && row.active.value == 0 {
          done := done + [row];
        } else {
          var filled := WithPrio(row, defaultPrio);
          done := done + [filled];
          events := events + [ToEvent(filled)];
        }
        i := i + 1;
      }
      assert rows[..i] == rows;
      c := Conversion(done, Ok(events));
    }

    /** `set_init_schedule`: later reads of the initial schedule see `s`. */
    method SetInitSchedule(s: Option<ScheduleState>)
      modifies this
      ensures initSchedule == s
      ensures rows == old(rows) && eventData == old(eventData)
      ensures converted == old(converted) && requireActive == old(requireActive)
    {
      initSchedule := s;
    }
  }

  /** Once a conversion fails, the remaining rows are carried over untouched
      and the error stays. */
  lemma {:induction false} ConvertStops(rows: seq<EventRow>, requireActive: bool, defaultPrio: Option<int>, n: int)
    requires 0 <= n <= |rows| && Convert(rows[..n], requireActive, defaultPrio).events.Err?
    ensures Convert(rows, requireActive, defaultPrio) ==
      Conversion(Convert(rows[..n], requireActive, defaultPrio).rows + rows[n..], Convert(rows[..n], requireActive, defaultPrio).events)
  {
    if n < |rows| {
      var init := rows[..|rows| - 1];
      assert init[..n] == rows[..n];
      ConvertStops(init, requireActive, defaultPrio, n);
      assert init[n..] + [rows[|rows| - 1]] == rows[n..];
    } else {
      assert rows[..n] == rows;
    }
  }
}
