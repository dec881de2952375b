/** Schedule events (`ScheduleEvent` in core/schedule/schedule.py) and the
    boundary configurations attached to them. An event is a value here: the
    engine's event dictionary becomes named fields, and the event's boundary
    objects become the closed `Boundary` datatype. */
module ScheduleEvents {
  import opened Outcomes
  import opened Calendar

  /** The Python type of a configured distance `value`: only a genuine
      `int` (not a `bool`) is accepted by the distance boundary. */
  datatype DistanceValue = IntValue(n: int) | BoolValue(b: bool) | OtherValue

  /** One row of a distance boundary: `{'value': ..., 'time_unit': ...}`. */
  datatype DistanceRule = DistanceRule(value: DistanceValue, timeUnit: string)

  /** One `values` row of a date boundary: a month number and a day of month. */
  datatype MonthDay = MonthDay(month: int, day: int)

  /** One outer row of a date boundary, holding its `values` rows. */
  datatype DateRule = DateRule(values: seq<MonthDay>)

  /** The boundary kinds of the engine, each with its configuration (the
      dictionary the boundary reads under its own kind's key). */
  datatype Boundary =
    | DateBoundary(date: seq<DateRule>)
    | PeriodBoundary(period: seq<string>)
    | DistanceBoundary(distance: seq<DistanceRule>)

  /** `get_boundary_class()`. */
  function BoundaryClass(b: Boundary): (c: string)
    ensures c == "distance" <==> b.DistanceBoundary?
    ensures c == "determinate" <==> !b.DistanceBoundary?
  {
    match b
    case DistanceBoundary(_) => "distance"
    case _ => "determinate"
  }

  /** A schedule event: the fields of its event dictionary, the boundaries
      added to it and its metadata (key to set of values). */
  datatype ScheduleEvent = ScheduleEvent(
    id: int,
    name: string,
    rules: seq<string>,
    prio: Option<int>,
    candidates: Option<seq<Date>>,
    mindate: Option<Date>,
    maxdate: Option<Date>,
    active: Option<int>,
    boundaries: seq<Boundary>,
    meta: map<string, set<string>>)

  /** `add_metadata(key, value)`: adds `value` to the set stored under `key`. */
  function AddMetadata(e: ScheduleEvent, key: string, value: string): (r: ScheduleEvent)
    ensures r.meta.Keys == e.meta.Keys + {key}
    ensures value in r.meta[key]
    ensures forall k :: k in r.meta && k != key ==> r.meta[k] == e.meta[k]
    ensures r.meta[key] - {value} == (if key in e.meta then e.meta[key] else {}) - {value}
    ensures r == e.(meta := r.meta)
  {
    var old_values := if key in e.meta then e.meta[key] else {};
    e.(meta := e.meta[key := old_values + {value}])
  }

  /** What `get_metadata` returns: the whole metadata map when no key is
      given, the set of values of a known key, or a one-element list holding
      the default otherwise. */
  datatype MetaLookup =
    | AllMetadata(all: map<string, set<string>>)
    | Values(values: set<string>)
    | DefaultList(default: seq<Option<string>>)

  function GetMetadata(e: ScheduleEvent, key: Option<string>, default: Option<string>): (r: MetaLookup)
    ensures key.None? <==> r.AllMetadata?
    ensures r.AllMetadata? ==> r.all == e.meta
    ensures r.Values? <==> key.Some? && key.value in e.meta
    ensures r.Values? ==> r.values == e.meta[key.value]
    ensures r.DefaultList? ==> r.default == [default]
  {
    if key.None? then AllMetadata(e.meta)
    else if key.value in e.meta then Values(e.meta[key.value])
    else DefaultList([default])
  }

  /** Metadata values added under a key can be read back. */
  lemma MetadataRoundTrip(e: ScheduleEvent, key: string, value: string)
    ensures var r := GetMetadata(AddMetadata(e, key, value), Some(key), None);
      r.Values? && value in r.values
  {
  }

  /** A candidate as shown by `as_dict`: a date, or the `"[...]"` marker. */
  datatype Shown = ShownDate(date: Date) | Elided

  function ShowAll(cs: seq<Date>): (r: seq<Shown>)
    ensures |r| == |cs| && forall i :: 0 <= i < |cs| ==> r[i] == ShownDate(cs[i])
  {
    if cs == [] then [] else [ShownDate(cs[0])] + ShowAll(cs[1..])
  }

  /** The candidates as `as_dict` shows them: a missing or empty list, or one
      of at most six dates, as it is; a longer one as its first three dates,
      the marker and its last three dates. */
  function ShownCandidates(cs: Option<seq<Date>>): (r: Option<seq<Shown>>)
  {
    match cs
    case None => None
    case Some(ds) =>
      if |ds| <= 6 then Some(ShowAll(ds))
      else Some(ShowAll(ds[..3]) + [Elided] + ShowAll(ds[|ds| - 3..]))
  }

  /** The event dictionary returned by `as_dict` (a copy: the event is not
      changed): the fields of the event's row, with `startdate` and
      `enddate` being the event's date limits, and its candidates as shown.
      Boundaries and metadata are not part of the dictionary. */
  datatype EventDict = EventDict(
    id: int,
    name: string,
    rules: seq<string>,
    prio: Option<int>,
    active: Option<int>,
    startdate: Option<Date>,
    enddate: Option<Date>,
    candidates: Option<seq<Shown>>)

  function AsDict(e: ScheduleEvent): (d: EventDict)
    ensures d.id == e.id && d.name == e.name && d.rules == e.rules && d.prio == e.prio
    ensures d.active == e.active && d.startdate == e.mindate && d.enddate == e.maxdate
    ensures d.candidates.Some? <==> e.candidates.Some?
  {
    EventDict(e.id, e.name, e.rules, e.prio, e.active, e.mindate, e.maxdate, ShownCandidates(e.candidates))
  }

  /** At most six candidates are shown unchanged, in order. */
  lemma AsDictShortCandidates(e: ScheduleEvent)
    requires e.candidates.Some? && |e.candidates.value| <= 6
    ensures var shown := AsDict(e).candidates.value;
      |shown| == |e.candidates.value|
      && forall i :: 0 <= i < |shown| ==> shown[i] == ShownDate(e.candidates.value[i])
  {
  }

  /** More than six candidates are shown as the first three, the marker and
      the last three. */
  lemma AsDictLongCandidates(e: ScheduleEvent)
    requires e.candidates.Some? && |e.candidates.value| > 6
    ensures var cs, shown := e.candidates.value, AsDict(e).candidates.value;
      |shown| == 7 && shown[3] == Elided
      && (forall i :: 0 <= i < 3 ==> shown[i] == ShownDate(cs[i]))
      && (forall i :: 4 <= i < 7 ==> shown[i] == ShownDate(cs[|cs| - 7 + i]))
  {
    var cs := e.candidates.value;
    var shown := AsDict(e).candidates.value;
    var head, tail := ShowAll(cs[..3]), ShowAll(cs[|cs| - 3..]);
    assert shown == head + [Elided] + tail;
    forall i | 4 <= i < 7 ensures shown[i] == ShownDate(cs[|cs| - 7 + i]) {
      assert shown[i] == tail[i - 4];
    }
  }
}
