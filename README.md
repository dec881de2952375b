# py-matplanering scheduling core in Dafny

This project models the in-memory scheduling engine of py-matplanering, a
planner that places recurring events (dishes on a food menu, for instance)
onto the calendar days of a planning period. It covers the following parts.

- **Events.** An event carries metadata. Its dictionary form elides long
  candidate lists.
- **Event quotas.** A quota template is expanded into year, half-year, month
  or week windows. A schedule consumes these windows as events are added.
- **The schedule.** A fixed table of days. Events are added with a
  validate-then-consume quota protocol and a daily limit, and removed by id.
  The schedule also has queries and an iterator.
- **The schedule manager.** Keyed schedules with one master and deep-copied
  minions. Adding to the master can remove the event's id from every other
  schedule.
- **Filters and boundaries.** The eligibility filters and the boundaries are
  pure functions over dates and events. Boundaries come as distance, period
  and date.
- **The schedule builder.** Candidate bucketing and the build-status
  machine, whose fields can be set only once.
- **The handler chain.** The setup stage, which registers the filters in
  order and rejects a duplicate name.
- **The controller.** Cached event input; the controller's global-rule
  injection and its iteration loop; the rule-set helpers; and the naming
  conventions between `under_score` and `CamelCase` names.

Dates are the days of the proleptic Gregorian calendar, numbered as Python's
`date.toordinal()` numbers them (`Calendar.Date`, day 1 is 0001-01-01). The
source compares ISO 8601 `YYYY-MM-DD` strings. For dates of four-digit years
that order is the order of the day numbers. The calendar helpers the source
imports (date range, week range, monthly dates, quarter, weekday names) are
defined concretely in `calendar.dfy`:
- The week range is Monday-based weeks clipped to the interval.
- The monthly dates are the first day of every calendar month the interval
  touches.
- Python's `round` rounds halves to even.
- The day-of-year helper `get_nth_day_of_year(year, n)` is not shown and is
  assumed to count from 0: it gives the day n days after January 1
  (`Calendar.NthDayOfYear`). `EventQuotas.HalfYearSplit` and
  `EventQuotas.HalfYearCenterIsJulyFirst` rest on that assumption.

The objects the source mutates in place are Dafny classes:
`ScheduleQuota`, `Schedule`, `ScheduleIterator`, `ScheduleManager`,
`ScheduleBuilder`, `ScheduleInput`, `Handler` and `AutomatorController`.
Each method is proved against a function on values. For example,
`Schedules.AddEventSpec` specifies `add_event` on a `ScheduleState`.
Filters, boundaries, rule-set helpers and name conversion are functions,
with lemmas about them. Most errors the source raises are `Err`/`Fail`
values carrying an `Outcomes.Error`. Some source paths raise on every call:
they call a method or read an attribute that does not exist, import a name
that is not defined, or index a list with a string. For those the model
gives the documented intent instead. The ones this model covers are listed
under "## Left out", member by member.

Files: `outcomes.dfy` (Option, Result, errors), `seqs.dfy` (sequence
helpers), `calendar.dfy`, `events.dfy`, `quota.dfy`, `schedule.dfy`,
`manager.dfy`, `filters.dfy`, `boundaries.dfy`, `rulesets.dfy`,
`naming.dfy`, `input.dfy`, `builder.dfy`, `registration.dfy`,
`handlers.dfy`, `controller.dfy`.

## Model

| member | source | states |
|---|---|---|
| ScheduleEvents.AddMetadata | py_matplanering/core/schedule/schedule.py:67-70 | the value joins the key's set; other keys and the event's other fields are unchanged |
| ScheduleEvents.GetMetadata | py_matplanering/core/schedule/schedule.py:72-77 | no key gives all metadata, a known key its values, an unknown key the one-element default list |
| ScheduleEvents.MetadataRoundTrip | py_matplanering/core/schedule/schedule.py:67-77 | a value added under a key is among the values read back for that key |
| ScheduleEvents.AsDictShortCandidates | py_matplanering/core/schedule/schedule.py:79-89 | a candidate list of length at most 6 is shown whole, date for date |
| ScheduleEvents.AsDictLongCandidates | py_matplanering/core/schedule/schedule.py:79-89 | a longer list shows the first 3, an elision marker, and the last 3 candidates; the event itself is a value and stays unchanged |
| ScheduleEvents.AsDict | py_matplanering/core/schedule/schedule.py:79-89 | id, name, rules, prio and active are copied, `startdate` and `enddate` are the event's date limits; candidates are shown iff the event has them |
| ScheduleEvents.BoundaryClass | py_matplanering/core/boundary/boundary_distance.py:60-61 | a distance boundary has class `distance`, period and date boundaries have class `determinate` |
| EventQuotas.BaseQuota | py_matplanering/utilities/misc.py:36-47 | a template missing min, max or time_unit fails; otherwise the base window has used defaulting to 0, quota to max-min+1, overused false |
| EventQuotas.EventQuota | py_matplanering/utilities/misc.py:24-132 | fails exactly for a bad template or an unknown time unit; every window is a copy of the base window differing only in its dates |
| EventQuotas.MakeEventQuota | py_matplanering/utilities/misc.py:24-132 | the looping implementation returns exactly `EventQuota` |
| EventQuotas.ExpandYears | py_matplanering/utilities/misc.py:49-72 | the year loop builds exactly `YearWindows`, one window per year |
| EventQuotas.ExpandHalfYears | py_matplanering/utilities/misc.py:73-111 | the half-year loop builds exactly `HalfYearsWindows` |
| EventQuotas.ExpandMonths | py_matplanering/utilities/misc.py:113-121 | the month loop builds exactly `MonthWindows`, one window per monthly date |
| EventQuotas.ExpandWeeks | py_matplanering/utilities/misc.py:123-128 | the week loop builds exactly one window per week list, carrying that week's dates |
| EventQuotas.YearWindows | py_matplanering/utilities/misc.py:49-72 | one window per year, each a copy of the template apart from its dates |
| EventQuotas.HalfYearsWindows | py_matplanering/utilities/misc.py:73-111 | every half-year window is a copy of the template apart from its dates |
| EventQuotas.MonthWindows | py_matplanering/utilities/misc.py:113-121 | one window per monthly start date, each a copy of the template apart from its dates |
| EventQuotas.WeekWindows | py_matplanering/utilities/misc.py:123-128 | one window per week, the template carrying exactly that week's dates |
| EventQuotas.YearWindowsCover | py_matplanering/utilities/misc.py:49-72 | `year` windows: one per year from start's year to end's year, consecutive, together covering exactly [start, end] |
| EventQuotas.HalfYearSplit | py_matplanering/utilities/misc.py:73-111 | a year's first half ends on July 1st (day index round(days/2)-1), the second starts the day after and is omitted when that day is after end |
| EventQuotas.HalfYearCenterIsJulyFirst | py_matplanering/utilities/misc.py:84-92 | day index round(days_in_year/2)-1 is July 1st in common and leap years |
| EventQuotas.MonthWindowsCoverMonths | py_matplanering/utilities/misc.py:113-121 | the k-th `month` window starts on the first of a month not after end and runs to that month's last day |
| EventQuotas.MonthWindowIsCalendarMonth | py_matplanering/utilities/misc.py:117-120 | the window from the first of a month to the day before one month later is that calendar month |
| EventQuotas.WeekWindowsCover | py_matplanering/utilities/misc.py:123-128 | `week` windows are exactly the weeks of the range, together covering [start, end], each after the first starting on a Monday |
| Schedules.ConsumeWindow | py_matplanering/core/schedule/schedule.py:113-121 | a window containing a date gets used + consume and quota max(0, quota-consume); other windows are unchanged |
| Schedules.ConsumeUsage | py_matplanering/core/schedule/schedule.py:106-122 | an event without windows gives []; a quota-tracked event with more than one date fails with NotImplementedError |
| Schedules.ConsumeOneDate | py_matplanering/core/schedule/schedule.py:113-122 | consuming on one date changes exactly the windows containing it, by used + consume and quota max(0, quota-consume) |
| Schedules.ValidateQuota | py_matplanering/core/schedule/schedule.py:137-144 | a failure is an excessive quota or the multi-date error |
| Schedules.ValidateQuotaIff | py_matplanering/core/schedule/schedule.py:106-144 | validation on a date passes iff every window, with 1 added where it holds the date, has used <= max-min+1; no windows always pass |
| Schedules.ScheduleQuota.constructor | py_matplanering/core/schedule/schedule.py:96-97 | a new quota table is empty |
| Schedules.ScheduleQuota.Get | py_matplanering/core/schedule/schedule.py:130-135 | an unknown id has no windows, a known id its list |
| Schedules.ScheduleQuota.AddQuota | py_matplanering/core/schedule/schedule.py:99-104 | the event's windows are extended by the expanded template; a failed expansion changes nothing |
| Schedules.ScheduleQuota.ConsumeEach | py_matplanering/core/schedule/schedule.py:113-121 | the loop over the windows computes `ConsumeWindows` |
| Schedules.ScheduleQuota.ConsumeQuotaUsage | py_matplanering/core/schedule/schedule.py:106-125 | the table changes as `ConsumeUsage` says, only for that event id |
| Schedules.ScheduleQuota.Validate | py_matplanering/core/schedule/schedule.py:137-144 | a dry run: nothing is modified, and the result is `ValidateQuota` of the current table |
| Schedules.ValidateAddEvent | py_matplanering/core/schedule/schedule.py:259-268 | passes iff validation is off, the event has no windows, or every window stays within its allowance |
| Schedules.AddEventSpec | py_matplanering/core/schedule/schedule.py:270-296 | a dates argument that is not a list fails and changes nothing; the date set never changes |
| Schedules.AddEventRejected | py_matplanering/core/schedule/schedule.py:282-296 | a failed quota validation raises without appending or consuming |
| Schedules.AddEventAccepted | py_matplanering/core/schedule/schedule.py:283-292 | on success the event is at the end of that day's list and 1 is consumed from the windows holding the date; other ids keep their windows |
| Schedules.AddEventOverLimit | py_matplanering/core/schedule/schedule.py:284-291 | exceeding the daily limit raises after the event was already appended, and before any consumption |
| Schedules.AddEventMultiDateQuota | py_matplanering/core/schedule/schedule.py:110-111 | a quota-tracked event added on more than one date reaches NotImplementedError |
| Schedules.AddEventOnlyAppends | py_matplanering/core/schedule/schedule.py:270-296 | add_event only appends this event to existing days: every earlier list is a prefix of the new one |
| Schedules.AddEventPlaces | py_matplanering/core/schedule/schedule.py:278-292 | after a successful addition the event is on every given date |
| Schedules.AddEventWithinAllowance | py_matplanering/core/schedule/schedule.py:282-292 | with validation on, no window ever exceeds its allowance |
| Schedules.AddAllStops | py_matplanering/core/schedule/schedule.py:278-296 | once a date fails, the later dates are not processed |
| Schedules.RemoveEventEffect | py_matplanering/core/schedule/schedule.py:302-309 | every event with that id leaves every day, the others keep their order, the date set is unchanged |
| Schedules.RemoveEventSpec | py_matplanering/core/schedule/schedule.py:302-309 | removal keeps every date of the schedule |
| Schedules.RemoveEventIdempotent | py_matplanering/core/schedule/schedule.py:302-309 | removing an id twice is removing it once |
| Schedules.RemoveOnAll | py_matplanering/core/schedule/schedule.py:304-309 | the loop over all days computes `RemoveEventSpec` |
| Schedules.EventsOfMembers | py_matplanering/core/schedule/schedule.py:231-239 | get_events holds exactly the events of the schedule's days with the id (all events when the id is absent or 0) |
| Schedules.Select | py_matplanering/core/schedule/schedule.py:231-239 | an event is selected iff it is in the list and the id is absent, 0, or its own |
| Schedules.GroupedEvents | py_matplanering/core/schedule/schedule.py:241-250 | the grouping has the same dates as the schedule |
| Schedules.InitialDays | py_matplanering/core/schedule/schedule.py:153-173 | a new schedule has exactly one day per date in [start, end], empty unless prepared |
| Schedules.DateRangeDistinct | py_matplanering/core/schedule/schedule.py:165-168 | the initial dates are distinct |
| Schedules.Schedule.constructor | py_matplanering/core/schedule/schedule.py:153-173 | the new schedule's state: the date range, its days, no quotas, the given settings |
| Schedules.Schedule.PrepareDays | py_matplanering/core/schedule/schedule.py:165-171 | the loop builds one day per date in the range, taking prepared events |
| Schedules.Schedule.AddDate | py_matplanering/core/schedule/schedule.py:181-184 | an existing date is rejected and nothing changes; a new date is appended with an empty day |
| Schedules.Schedule.AddEvent | py_matplanering/core/schedule/schedule.py:270-296 | the new state and the outcome are exactly `AddEventSpec` of the old state |
| Schedules.Schedule.AddToDate | py_matplanering/core/schedule/schedule.py:278-296 | one date of the loop: the new state is `AddStep` of the old |
| Schedules.Schedule.RemoveEvent | py_matplanering/core/schedule/schedule.py:302-309 | dates unchanged, days become `RemoveEventSpec` of the old days |
| Schedules.Schedule.RemoveFromDays | py_matplanering/core/schedule/schedule.py:304-309 | the loop over days computes `RemoveOn` |
| Schedules.Schedule.KeepOtherIds | py_matplanering/core/schedule/schedule.py:305-308 | keeps exactly the events of another id, in order |
| Schedules.Schedule.GetEvents | py_matplanering/core/schedule/schedule.py:231-239 | returns `EventsOf` the schedule's days in date order |
| Schedules.Schedule.KeepId | py_matplanering/core/schedule/schedule.py:245-249 | keeps exactly the events of that id, in order |
| Schedules.Schedule.GetGroupedEvents | py_matplanering/core/schedule/schedule.py:241-250 | returns `GroupedEvents` of the days |
| Schedules.Schedule.EventsByDate | py_matplanering/core/schedule/schedule.py:216-218 | an unknown date raises, a known one gives its events |
| Schedules.Schedule.DayHasEvent | py_matplanering/core/schedule/schedule.py:255-257 | an unknown date raises; a known one has an event iff its list is non-empty |
| Schedules.Schedule.Clone | py_matplanering/core/schedule/schedule_manager.py:62-65 | a deep copy: fresh objects with the same state |
| Schedules.IterationOrder | py_matplanering/core/schedule/schedule.py:337-357 | `sorted`/`standard`/`random` give a permutation of the keys, any other method raises |
| Schedules.IterationOrderSorted | py_matplanering/core/schedule/schedule.py:348-349 | `sorted` yields each key once, in ascending order |
| Schedules.SortedDates | py_matplanering/core/schedule/schedule.py:348-349 | sorting keeps exactly the keys |
| Schedules.ScheduleIterator.constructor | py_matplanering/core/schedule/schedule.py:337-357 | the iterator starts before its first item |
| Schedules.ScheduleIterator.Next | py_matplanering/core/schedule/schedule.py:362-367 | yields the next item and advances; after the last item it stops |
| Schedules.NewScheduleIterator | py_matplanering/core/schedule/schedule.py:337-357 | an unknown method raises; otherwise a fresh iterator over `IterationOrder` |
| Managers.WithoutId | py_matplanering/core/schedule/schedule_manager.py:86-91 | a schedule with the id removed keeps everything but its days |
| Managers.AddScheduleOutcome | py_matplanering/core/schedule/schedule_manager.py:38-51 | acceptance needs a non-empty, unused key, and no master already set when adding a master |
| Managers.ScheduleManager.constructor | py_matplanering/core/schedule/schedule_manager.py:34-36 | a new manager has no schedules and no master |
| Managers.ScheduleManager.AddSchedule | py_matplanering/core/schedule/schedule_manager.py:38-51 | None, empty or used keys are rejected unchanged; a second master is stored but raises; the master key is set only once |
| Managers.ScheduleManager.AddMasterSchedule | py_matplanering/core/schedule/schedule_manager.py:56-57 | the master is stored under the reserved key `master`, only once |
| Managers.ScheduleManager.AddMinionSchedule | py_matplanering/core/schedule/schedule_manager.py:59-60 | a minion is stored under its key; the master is unchanged |
| Managers.ScheduleManager.SetMaster | py_matplanering/core/schedule/schedule_manager.py:67-68 | sets the master key, nothing else |
| Managers.ScheduleManager.HasMasterSchedule | py_matplanering/core/schedule/schedule_manager.py:53-54 | true iff a master key is set, whether or not a schedule is registered under it |
| Managers.ScheduleManager.GetMasterSchedule | py_matplanering/core/schedule/schedule_manager.py:70-76 | the schedule under `master`, or an unknown-key error |
| Managers.ScheduleManager.GetMinionSchedule | py_matplanering/core/schedule/schedule_manager.py:70-79 | the schedule under the key, or an unknown-key error |
| Managers.ScheduleManager.SpawnMinionSchedule | py_matplanering/core/schedule/schedule_manager.py:62-65 | the minion is a fresh deep copy of the master's state; nothing else changes |
| Managers.ScheduleManager.AddEvent | py_matplanering/core/schedule/schedule_manager.py:81-91 | empty manager or unknown key raises and changes nothing; the target follows `AddEventSpec`; on success with removal the others lose the id, otherwise only the target changes |
| Managers.ScheduleManager.AddMasterEvent | py_matplanering/core/schedule/schedule_manager.py:93-96 | without a master it raises and nothing changes; otherwise as `AddEvent` on the master |
| Managers.ScheduleManager.AddMinionEvent | py_matplanering/core/schedule/schedule_manager.py:98-99 | only the target schedule changes, following `AddEventSpec` |
| Managers.ScheduleManager.RemoveFromOthers | py_matplanering/core/schedule/schedule_manager.py:88-91 | every schedule but the target loses the id |
| Managers.TrackedAddition | py_matplanering/core/schedule/schedule_manager.py:86-91 | after a tracked addition the target holds the event on its dates and no other schedule holds that id |
| EventFilters.FilterName | py_matplanering/core/schedule/schedule_event_filter.py:14-136 | a custom filter is named `custom__<name>`; the default filters have their own prefix |
| EventFilters.Apply | py_matplanering/core/schedule/schedule_event_filter.py:127-136 | a custom filter's function is applied unchanged |
| EventFilters.DefaultFilterSubseq | py_matplanering/core/schedule/schedule_event_filter.py:26-124 | every default filter returns a subsequence of the events: order kept, nothing added |
| EventFilters.PlanningIntervalSpec | py_matplanering/core/schedule/schedule_event_filter.py:26-34 | [] outside [planning start, planning end], otherwise the events unchanged |
| EventFilters.PlacingSpec | py_matplanering/core/schedule/schedule_event_filter.py:42-48 | [] when the date already holds an event, otherwise the events unchanged |
| EventFilters.DateIntervalSpec | py_matplanering/core/schedule/schedule_event_filter.py:56-70 | keeps an event iff (no maxdate or date <= maxdate) and (no mindate or date >= mindate) |
| EventFilters.QuotaSpec | py_matplanering/core/schedule/schedule_event_filter.py:78-84 | keeps exactly the events whose quota validation on the date succeeds |
| EventFilters.DistanceSpec | py_matplanering/core/schedule/schedule_event_filter.py:92-105 | keeps an event iff every distance boundary accepts it; events without one are kept |
| EventFilters.ExcludeIdsSpec | py_matplanering/core/schedule/schedule_event_filter.py:116-124 | identity for no ids, otherwise removes exactly the listed ids |
| EventFilters.KeepAcceptedSpec | py_matplanering/core/schedule/schedule_event_filter.py:94-105 | the distance filter's loop keeps, in order, exactly the accepted events |
| EventFilters.DistanceAcceptsIff | py_matplanering/core/schedule/schedule_event_filter.py:96-103 | an event is accepted iff none of its distance boundaries reports a conflict |
| EventFilters.NoDistanceBoundaryAccepted | py_matplanering/core/schedule/schedule_event_filter.py:96-103 | an event with no distance boundary is accepted |
| EventFilters.SingleEventEligible | py_matplanering/core/schedule/schedule_event_filter.py:98-101 | asking the boundary about one event on one date gives it back iff there is no conflict |
| EventFilters.FilterNamesDistinct | py_matplanering/core/schedule/schedule_event_filter.py:22-113 | different default filters have different names |
| EventFilters.CustomNameNotDefault | py_matplanering/core/schedule/schedule_event_filter.py:22-133 | a custom name never equals a default filter's name |
| Boundaries.PeriodMatchSpec | py_matplanering/core/boundary/boundary_period.py:8-29 | an unknown token raises iff some date is examined; otherwise a duplicate-free subset: a date is kept iff its weekday name or `q<quarter>` is in the period |
| Boundaries.PeriodMatchEmpty | py_matplanering/core/boundary/boundary_period.py:8-29 | no dates give [] without error |
| Boundaries.PeriodMatch | py_matplanering/core/boundary/boundary_period.py:8-29 | the only error is the unknown token, and only when some date is examined |
| Boundaries.QuarterToken | py_matplanering/core/boundary/boundary_period.py:22-25 | the token of a date is one of q1..q4 |
| Boundaries.RowDates | py_matplanering/core/boundary/boundary_date.py:9-15 | one date per row, or the invalid-date error |
| Boundaries.DateMatchRows | py_matplanering/core/boundary/boundary_date.py:7-16 | the result is the rows of all rules, in order, as dates; the event and the dates argument are not read |
| Boundaries.DateMatch | py_matplanering/core/boundary/boundary_date.py:7-16 | the only error is an invalid month/day |
| Boundaries.RowDatesAt | py_matplanering/core/boundary/boundary_date.py:11-14 | the k-th output is the row's month and day in the given year |
| Boundaries.RowDatesInvalid | py_matplanering/core/boundary/boundary_date.py:11-14 | an invalid month/day raises |
| Boundaries.RowDatesValid | py_matplanering/core/boundary/boundary_date.py:9-15 | rows that are all valid month/day pairs of the year give dates without error |
| Boundaries.SpanDays | py_matplanering/core/boundary/boundary_distance.py:38-48 | value, 7·value or 30·value days for day/week/month; a non-int value or unknown unit raises |
| Boundaries.DistanceEligibleEvents | py_matplanering/core/boundary/boundary_distance.py:24-32 | more than one date raises NotImplementedError |
| Boundaries.DistanceEligibleDates | py_matplanering/core/boundary/boundary_distance.py:21-22 | returns the dates unchanged |
| Boundaries.KeepEligibleSpec | py_matplanering/core/boundary/boundary_distance.py:27-32 | keeps, in order, exactly the events without conflict |
| Boundaries.HasDistanceConflict | py_matplanering/core/boundary/boundary_distance.py:34-57 | without distance rules there is no conflict |
| Boundaries.KeepEligible | py_matplanering/core/boundary/boundary_distance.py:27-32 | at most the given events are kept, and without distance rules all of them, in order |
| Boundaries.NoEventsAllEligible | py_matplanering/core/boundary/boundary_distance.py:35-36 | a schedule holding no events gives no conflict, so every event is eligible |
| Boundaries.ConflictWitness | py_matplanering/core/boundary/boundary_distance.py:37-57 | a conflict iff another date within span-1 of the probe holds an event with the same id |
| Boundaries.SpanOneNoConflict | py_matplanering/core/boundary/boundary_distance.py:49-53 | a span of one day never conflicts |
| Boundaries.GroupedNonEmpty | py_matplanering/core/boundary/boundary_distance.py:50-56 | a grouped day is non-empty iff it holds an event of that id |
| RuleSets.ModuleNameInjective | py_matplanering/utilities/schedule_helper.py:19-25 | two boundaries share a module name iff they share a kind |
| RuleSets.ModuleNamesSpec | py_matplanering/utilities/schedule_helper.py:19-25 | each module name is collected once, exactly for the boundary rules' kinds |
| RuleSets.ModuleNames | py_matplanering/utilities/schedule_helper.py:19-25 | at most one module name per rule |
| RuleSets.LoadBoundaries | py_matplanering/utilities/schedule_helper.py:16-29 | the nested loop collects exactly `ModuleNames` of all the rules |
| RuleSets.CollectModules | py_matplanering/utilities/schedule_helper.py:20-25 | the inner loop continues the names collected so far |
| RuleSets.LoadBoundariesSpec | py_matplanering/utilities/schedule_helper.py:19-25 | `boundary_<kind>` once per distinct kind among the boundary rules; other rule types ignored |
| RuleSets.ConvertRule | py_matplanering/utilities/schedule_helper.py:33-41 | a boundary rule whose module is not loaded fails; otherwise it keeps its configuration and gets its module |
| RuleSets.ConvertedClassName | py_matplanering/utilities/schedule_helper.py:33-41 | the class name is `Boundary` followed by the capitalised kind |
| RuleSets.ConvertRules | py_matplanering/utilities/schedule_helper.py:34-41 | all rules convert in order, or the conversion fails |
| RuleSets.ConvertSpecFails | py_matplanering/utilities/schedule_helper.py:33-41 | conversion fails iff some rule set holds an unloadable boundary rule |
| RuleSets.ConvertSpecLastWins | py_matplanering/utilities/schedule_helper.py:33-41 | each rule-set name maps to its last set's id and converted rules |
| RuleSets.ConvertSpecKeys | py_matplanering/utilities/schedule_helper.py:33-41 | the keys are exactly the rule-set names |
| RuleSets.ConvertSpec | py_matplanering/utilities/schedule_helper.py:31-41 | the only error is an unloaded boundary module, and every key is the name of some rule set |
| RuleSets.ConvertRuleSet | py_matplanering/utilities/schedule_helper.py:31-42 | the loop computes `ConvertSpec` |
| RuleSets.FilterBoundaries | py_matplanering/utilities/schedule_helper.py:53-61 | no filter gives {}; otherwise a sub-map of the boundaries |
| RuleSets.FilterBoundariesPartition | py_matplanering/utilities/schedule_helper.py:53-61 | `distance` and `determinate` split the boundaries by class; any other class keeps nothing |
| RuleSets.FilterEventsByQuota | py_matplanering/utilities/schedule_helper.py:63-69 | the order-preserving subsequence of the events passing quota validation |
| RuleSets.FilterEventsByQuotaIsQuotaFilter | py_matplanering/utilities/schedule_helper.py:63-69 | the helper keeps the same events as the quota filter |
| ScheduleInputs.ToEvent | py_matplanering/core/schedule/schedule.py:30-56 | the event reads the row's fields; no candidates, boundaries or metadata |
| ScheduleInputs.WithPrio | py_matplanering/core/schedule/schedule_input.py:31-32 | a row without prio gets the default written into it; nothing else changes |
| ScheduleInputs.Convert | py_matplanering/core/schedule/schedule_input.py:27-35 | the rows keep their number; the only error is a missing `active` |
| ScheduleInputs.ConvertKeepsAll | py_matplanering/core/schedule/schedule_input.py:27-35 | without require_active every row becomes an event in order, with its default prio |
| ScheduleInputs.Events | py_matplanering/core/schedule/schedule_input.py:27-35 | one event per row |
| ScheduleInputs.ConvertKeepsActive | py_matplanering/core/schedule/schedule_input.py:27-35 | with require_active the events are those of the active rows, in order |
| ScheduleInputs.ConvertActive | py_matplanering/core/schedule/schedule_input.py:27-35 | the same, stated with `ActiveEvents` |
| ScheduleInputs.ConvertFillsActive | py_matplanering/core/schedule/schedule_input.py:28-32 | with require_active only the active rows get a default prio |
| ScheduleInputs.ConvertMissingActive | py_matplanering/core/schedule/schedule_input.py:28-30 | with require_active a row without `active` raises |
| ScheduleInputs.ConvertStops | py_matplanering/core/schedule/schedule_input.py:27-35 | after a failure the remaining rows are carried over untouched |
| ScheduleInputs.ScheduleInput.constructor | py_matplanering/core/schedule/schedule_input.py:9-19 | a single rule-set document is wrapped in a list, a list is kept; nothing is converted |
| ScheduleInputs.ScheduleInput.GetEventData | py_matplanering/core/schedule/schedule_input.py:21-38 | the same require_active returns the cache unchanged; otherwise reconverts, writing prios into the rows and caching |
| ScheduleInputs.ScheduleInput.ConvertRows | py_matplanering/core/schedule/schedule_input.py:27-35 | the loop computes `Convert` |
| ScheduleInputs.ScheduleInput.SetInitSchedule | py_matplanering/core/schedule/schedule_input.py:49-53 | later reads see the new initial schedule; nothing else changes |
| Builders.Restrict | py_matplanering/core/schedule/schedule_builder.py:71 | a date is kept iff it is a schedule date and a match |
| Builders.RuleMatches | py_matplanering/core/schedule/schedule_builder.py:66-70 | a non-boundary rule or a distance boundary (which lacks `match_event`) raises |
| Builders.SetMatching | py_matplanering/core/schedule/schedule_builder.py:63-71 | the matching dates stay within the schedule dates |
| Builders.EventMatching | py_matplanering/core/schedule/schedule_builder.py:62-71 | the matching dates stay within the schedule dates |
| Builders.LastRuleWins | py_matplanering/core/schedule/schedule_builder.py:62-71 | the matching dates are those of the last rule alone, whatever came before |
| Builders.EmptyRuleSetsCarryOver | py_matplanering/core/schedule/schedule_builder.py:59-71 | rule sets without rules keep the previous event's matching dates |
| Builders.BucketWithoutBoundaries | py_matplanering/core/schedule/schedule_builder.py:72-75 | without apply_boundaries each event's candidates are all schedule dates, sorted |
| Builders.BucketCandidates | py_matplanering/core/schedule/schedule_builder.py:56-77 | each event keeps its fields; its candidates are ascending and a subset of the schedule dates |
| Builders.BucketsHoldCandidates | py_matplanering/core/schedule/schedule_builder.py:76-77 | each day's bucket is its old events plus, in order, the events naming it as candidate |
| Builders.BucketStops | py_matplanering/core/schedule/schedule_builder.py:60-77 | after a failure the later events are not visited |
| Builders.Bucket | py_matplanering/core/schedule/schedule_builder.py:60-77 | the buckets keep the dates, the matching dates are schedule dates, and at most the given events are processed |
| Builders.AddToBucketsAt | py_matplanering/core/schedule/schedule_builder.py:76-77 | the event is appended to exactly the buckets of its candidate dates |
| Builders.PlanOutcomePass | py_matplanering/core/schedule/schedule_builder.py:79-96 | planning passes iff the planner selects nothing on any date |
| Builders.PlanOutcomeFirstPick | py_matplanering/core/schedule/schedule_builder.py:92-95 | the first selection raises: a non-event as such, an event at add_event's list check |
| Builders.PlanOutcome | py_matplanering/core/schedule/schedule_builder.py:79-96 | no dates pass; with dates and no planner the missing planner raises; the only errors are the missing planner, a non-event pick and add_event's list check |
| Builders.ScheduleBuilder.constructor | py_matplanering/core/schedule/schedule_builder.py:13-21 | no status, both options on, nothing set |
| Builders.ScheduleBuilder.SetPlanner | py_matplanering/core/schedule/schedule_builder.py:23-30 | rejects None and any second call; only the planner changes |
| Builders.ScheduleBuilder.SetSchedule | py_matplanering/core/schedule/schedule_builder.py:32-38 | rejects None and any second call; candidates copy the schedule's days with the same dates |
| Builders.ScheduleBuilder.RegisterFilter | py_matplanering/core/handler/impl/setup_handler.py:52 | appends the filter to the registered ones, nothing else changes |
| Builders.ScheduleBuilder.SetScheduleInput | py_matplanering/core/schedule/schedule_builder.py:110-111 | sets the input, nothing else |
| Builders.ScheduleBuilder.BuildCandidates | py_matplanering/core/schedule/schedule_builder.py:52-77 | raises when candidates are not allowed, when no input is set, and (after the input's cache is filled) when no schedule is set; otherwise the events are the cached ones or every row converted, the candidate buckets are `Bucket` of them over the sorted dates, and the input's cache holds the events with their candidates followed by any not reached; the input's rows and initial schedule are unchanged |
| Builders.ScheduleBuilder.PlanSchedule | py_matplanering/core/schedule/schedule_builder.py:79-96 | raises when no schedule (so no candidate buckets) is set; otherwise visits dates ascending, the outcome is `PlanOutcome`, the schedule is unchanged and the status becomes `plan_ok` on success |
| Builders.ScheduleBuilder.Build | py_matplanering/core/schedule/schedule_builder.py:102-105 | succeeds iff the status is `plan_ok`, moving to `build_ok` |
| Builders.ScheduleBuilder.Reset | py_matplanering/core/schedule/schedule_builder.py:98-100 | clears the status and updates the options given |
| Builders.ScheduleBuilder.ExtractSchedule | py_matplanering/core/schedule/schedule_builder.py:113-116 | succeeds iff the status is `build_ok`, giving the schedule |
| Builders.PlanDates | py_matplanering/core/schedule/schedule_builder.py:80-95 | the planning loop yields `PlanOutcome` and leaves the schedule unchanged |
| Builders.ComputeCandidates | py_matplanering/core/schedule/schedule_builder.py:60-77 | the event loop computes `Bucket` |
| Builders.MatchEvent | py_matplanering/core/schedule/schedule_builder.py:62-71 | the loop over an event's rule sets computes `EventMatching` |
| Builders.MatchRuleSet | py_matplanering/core/schedule/schedule_builder.py:63-71 | the loop over a rule set's rules computes `SetMatching` |
| FilterRegistration.FilterNames | py_matplanering/core/handler/impl/setup_handler.py:48-53 | the i-th name is the i-th filter's name |
| FilterRegistration.FirstDuplicateSpec | py_matplanering/core/handler/impl/setup_handler.py:47-53 | with a repeated name, the loop stops at the first filter whose name was already registered |
| FilterRegistration.FirstRepeatNone | py_matplanering/core/handler/impl/setup_handler.py:47-53 | distinct names run to the end |
| FilterRegistration.DefaultNamesDistinct | py_matplanering/core/handler/impl/setup_handler.py:37-43 | the five default filters have distinct names |
| FilterRegistration.DefaultFilters | py_matplanering/core/handler/impl/setup_handler.py:37-43 | five filters, none of them custom |
| FilterRegistration.FirstDuplicate | py_matplanering/core/handler/impl/setup_handler.py:46-53 | the stopping position lies within the filter list or at its end |
| FilterRegistration.SetupFiltersStop | py_matplanering/core/handler/impl/setup_handler.py:37-53 | custom filters never clash with the defaults: registration stops only at a repeated custom name |
| Handlers.SetupSpec | py_matplanering/core/handler/impl/setup_handler.py:28-54 | on success the registered filters are the defaults, then the customs, in order; the build status is unchanged |
| Handlers.BuildSpec | py_matplanering/core/schedule/schedule_builder.py:102-105 | the final build succeeds iff planned |
| Handlers.Handler.constructor | py_matplanering/core/handler/handler.py:19 | a fresh handler has no next handler |
| Handlers.Handler.SetNext | py_matplanering/core/handler/handler.py:21-23 | stores the handler and returns its argument |
| Handlers.Handler.Handle | py_matplanering/core/handler/handler.py:25-29 | the builder and result are those of `ChainSpec` along the linked chain: forward and return the next result, or return when there is no next |
| Handlers.RunSetup | py_matplanering/core/handler/impl/setup_handler.py:28-53 | the setup stage changes the builder as `SetupSpec` says |
| Handlers.RegisterFilters | py_matplanering/core/handler/impl/setup_handler.py:47-53 | filters up to the first repeated name are registered in order, then HandlerError; otherwise all are |
| Handlers.LinkHandlerChain | py_matplanering/core/handler/handler_helper.py:8-13 | handler i's next is handler i+1; the last is untouched; returns the same list |
| Handlers.LinkedChain | py_matplanering/core/handler/handler_helper.py:8-13 | distinct handlers linked this way form a chain |
| Handlers.ChainSpec | py_matplanering/core/handler/handler.py:25-29 | a chain without a termination stage leaves the build status unchanged |
| Handlers.RunHandlerChain | py_matplanering/core/handler/handler_helper.py:15-16 | an empty list fails; otherwise the first handler handles the request |
| Handlers.ForwardingChain | py_matplanering/core/handler/handler.py:25-29 | a chain of forwarding stages changes nothing |
| Handlers.SetupFreshBuilder | py_matplanering/core/handler/impl/setup_handler.py:30-54 | planner, input and schedule are set before defaults then customs are registered, then control forwards |
| Handlers.SetupRejectsDuplicate | py_matplanering/core/handler/impl/setup_handler.py:47-53 | a repeated custom name raises; filters before it are already registered |
| Controllers.NamesOf | py_matplanering/automator_controller.py:88-90 | the names of a document's rule sets |
| Controllers.GlobalNamesSpec | py_matplanering/automator_controller.py:87-90 | a name is global iff some document with scope `global` has a rule set of that name |
| Controllers.CollectGlobalNames | py_matplanering/automator_controller.py:87-90 | the loop collects exactly `GlobalNames` |
| Controllers.AddNames | py_matplanering/automator_controller.py:89-90 | adds a document's rule-set names |
| Controllers.ListOfSet | py_matplanering/automator_controller.py:92-94 | `list(set)`: a duplicate-free list of exactly the set's elements |
| Controllers.InjectGlobalRules | py_matplanering/automator_controller.py:87-94 | each row's rules become the duplicate-free union of its old rules and all global names; nothing else changes |
| Controllers.SameElementsPermutation | py_matplanering/automator_controller.py:92-94 | two duplicate-free lists with the same elements are permutations of each other |
| Controllers.InjectionDeterminate | py_matplanering/automator_controller.py:87-94 | injection is determined up to the order of the rules |
| Controllers.InjectionIdempotent | py_matplanering/automator_controller.py:87-94 | injecting twice gives the same rules as injecting once, up to order |
| Controllers.Iterate | py_matplanering/automator_controller.py:122-140 | at most k runs; a run stops early only when the schedule is complete or fails post-validation; the schedule is the scheduler's result on the fed input |
| Controllers.IterateStops | py_matplanering/automator_controller.py:122-140 | once stopped, more iterations change nothing |
| Controllers.FeedBack | py_matplanering/automator_controller.py:125-128 | from the second run on, the previous run's schedule is fed back as the initial schedule |
| Controllers.EndsAtLastRun | py_matplanering/automator_controller.py:122-140 | the loop stops before k runs only for a complete or rejected schedule |
| Controllers.AutomatorController.New | py_matplanering/automator_controller.py:36-54 | zero iterations is rejected; otherwise a fresh controller with nothing built |
| Controllers.AutomatorController.Init | py_matplanering/automator_controller.py:36-52 | the fields the constructor sets |
| Controllers.AutomatorController.GetBuildError | py_matplanering/automator_controller.py:56-61 | raises before build; then the whole error, or the chosen column |
| Controllers.AutomatorController.SetPlanner | py_matplanering/automator_controller.py:63-65 | sets the planner only |
| Controllers.AutomatorController.InitSchedule | py_matplanering/automator_controller.py:67-69 | sets the initial schedule only |
| Controllers.AutomatorController.SetIterations | py_matplanering/automator_controller.py:71-72 | the `iterations` build option, without the constructor's zero check |
| Controllers.AutomatorController.SetPlanning | py_matplanering/automator_controller.py:71-72 | the `planning` build option |
| Controllers.AutomatorController.AddScheduleEventFilter | py_matplanering/automator_controller.py:74-79 | appends a filter named `custom__<name>` after earlier ones |
| Controllers.AutomatorController.Setup | py_matplanering/automator_controller.py:113-117 | the scheduler gets the planner, the initial schedule, the excluded ids (default none) and the filters |
| Controllers.AutomatorController.Build | py_matplanering/automator_controller.py:81-140 | built_run is set; rules are injected; a failed pre-validation records its error and returns False (or raises without a message); missing planning or planner raises; otherwise the iteration result, with a failed post-validation recorded |
| Controllers.RunIterations | py_matplanering/automator_controller.py:122-140 | the loop computes `Iterate`, feeding each schedule back into the input |
| Naming.Capitalize | py_matplanering/utilities/common.py:79-81 | `str.capitalize`: the first character upper case, the rest lower case |
| Naming.Split | py_matplanering/utilities/common.py:79-81 | `str.split`: at least one piece, none holding the separator |
| Naming.JoinSplit | py_matplanering/utilities/common.py:79-81 | splitting what was joined gives back the pieces |
| Naming.SplitJoin | py_matplanering/utilities/common.py:79-81 | joining what was split gives back the string |
| Naming.UnderscoreToCamelPieces | py_matplanering/utilities/common.py:79-81 | `a_b_c` becomes the capitalised pieces run together |
| Naming.UnderscoreToCamel | py_matplanering/utilities/common.py:79-81 | the result is never empty, and a name without `_` becomes its capitalised self (or `_` when empty) |
| Naming.BoundaryClassName | py_matplanering/utilities/common.py:79-81 | `boundary_<kind>` becomes `Boundary` + capitalised kind, e.g. `BoundaryPeriod` |
| Naming.CamelToUnderscore | py_matplanering/utilities/common.py:74-77 | the output holds no upper-case letter |
| Naming.CamelToUnderscoreLetters | py_matplanering/utilities/common.py:74-77 | only underscores are inserted: without them the output is the name in lower case |
| Naming.SplitLowerUpperSeparates | py_matplanering/utilities/common.py:77 | after the second substitution no lower-case letter or digit is followed by a capital |
| Naming.CapitalRunsWords | py_matplanering/utilities/common.py:76 | the first substitution puts `_` before every second capitalised word |
| Naming.LowerUpperWords | py_matplanering/utilities/common.py:77 | the second substitution puts `_` before the remaining words |
| Naming.CamelRoundTrip | py_matplanering/utilities/common.py:74-81 | a name of capitalised words becomes its lower-case words joined by `_`, and converting back gives the name again |

## Left out

- Command-line parsing, configuration files and JSON file I/O (`planera.py`, `matplanera.py`, `utilities/config.py`): I/O.
- Dynamic module loading and reflection (`utilities/loader.py`, `getattr` in the rule-set helpers): boundaries and planners are a closed datatype, and the loaded module names are a parameter.
- The logger, `print` calls, clocks and `time_helper` wrappers: side effects only. The calendar helpers the source imports but does not show are defined concretely in `calendar.dfy`.
- Randomness: `random` iteration takes the shuffled order as a parameter (any permutation). The planner's picks are functions in `Builders.Planner`.
- `core/scheduler.py` and the validator: the scheduler is the abstract `create` service, and pre-/post-validation and completeness are abstract `Services` functions.
- The thin stage handlers other than setup: the chain models forwarding stages and a terminating build stage. The builder methods the source handlers would call do not exist in the shown builder.
- `strategy`, `sch_options`, `pre_process` and `Planner.plan_init`: the planned initial schedule is a parameter of the setup stage.
- `planner.set_schedule_builder`: the back reference is not modelled.
- `register_filter_event_function`: the shown builder lacks it, so `Builders.ScheduleBuilder.RegisterFilter` models it as appending to a filter list.
- `BoundaryCap`: a stub that always returns [].
- `Schedule.as_dict`, `get_events_by_week_num`, `get_day`, `mark_as_built`, `ScheduleQuota.exists`: serialisation, calendar-week grouping and trivial accessors. With them goes the path of `ScheduleIterator` that is handed a `Schedule` object (py_matplanering/core/schedule/schedule.py:346-347) and walks the keys of its `as_dict()` (`built_dt`, `startdate`, `days`, ...): `Schedules.IterationOrder` and `Schedules.NewScheduleIterator` iterate over dates only.
- `set_build_option` for keys other than `iterations` and `planning`: only those two are read by `build`.
- Aliasing: events are values, so the in-place `set_candidates`, the in-place rule injection and the in-place prio filling are modelled as returned values. `Controllers.AutomatorController.Build` returns the injected rows instead of mutating the caller's rows.
- Controllers.InjectGlobalRules: the order of `list(set(...))` is unspecified in Python, so the contract states the elements and their distinctness, not the order.
- Schedules.Schedule.AddEvent: requires an integer daily limit; with the default `None` the source's comparison raises TypeError, which is not modelled.
- Handlers.Handler.Handle: cyclic handler chains are excluded; only acyclic linked chains are given a meaning.
- Handlers.Handler.Handle: the termination stage calls `build` directly; the other stages' builder calls are not modelled.
- Dates: years beyond 9999 and the string formatting of dates are not modelled; dates are day numbers.
- EventFilters.Apply: for the planning-interval filter the source calls `get_planning_enddate` and `get_planning_startdate` on the schedule (py_matplanering/core/schedule/schedule_event_filter.py:29,31), which no class defines, so it always raises AttributeError; the model instead compares the date with the schedule's `start` and `end`, the documented intent.
- EventFilters.PlanningIntervalSpec: states the intended planning-window behaviour above, not the AttributeError the source raises.
- EventFilters.Apply: for the date-interval filter the source calls `get_mindate` and `get_maxdate` on each event (schedule_event_filter.py:61), which `ScheduleEvent` does not define, so any non-empty event list raises AttributeError; the model reads the event's `mindate` and `maxdate` fields, the documented intent.
- EventFilters.DateIntervalSpec: states the intended min/max window above, not the AttributeError the source raises.
- RuleSets.LoadBoundaries: `get_rule_set()` returns a list (schedule_input.py:12-15,46-47), so `rule_set['rule_set']` (schedule_helper.py:20) raises TypeError on every call; the model instead reads one rule-set document passed as a parameter, which is not tied to `ScheduleInputs.ScheduleInput`'s rule sets.
- RuleSets.ConvertRuleSet: `inp.get_rule_set()['rule_set']` (schedule_helper.py:33) raises TypeError on every call for the same reason; the model converts one rule-set document passed as a parameter.
- Builders.ScheduleBuilder.BuildCandidates: reaches that TypeError through `convert_rule_set` (schedule_builder.py:58) on every call; the model takes the one rule-set document as a parameter instead of reading it from the builder's schedule input.
- Boundaries.PeriodMatch, Boundaries.PeriodMatchSpec, Boundaries.PeriodMatchEmpty: `BoundaryPeriod.match_event` reads `self._boundary` (py_matplanering/core/boundary/boundary_period.py:10,15), while `set_boundary` stores `self.boundary` (boundary_base.py:6-7), so the call from schedule_builder.py:69-70 always raises AttributeError, even for no dates; the model takes the period tokens as a parameter and gives the documented matching.
- Boundaries.DateMatch, Boundaries.DateMatchRows, Boundaries.RowDates: `BoundaryDate.match_event` reads `self._boundary` (boundary_date.py:9) and so always raises AttributeError; the model takes the date rows as a parameter and gives the documented dates.
- Boundaries.KeepEligible, Boundaries.KeepEligibleSpec, Boundaries.HasDistanceConflict, Boundaries.DistanceEligibleEvents, Boundaries.ConflictWitness, Boundaries.NoEventsAllEligible: boundary_distance.py:3 imports `BoundaryError`, which boundary_base.py does not define, so the module cannot be loaded (ImportError), and :38 reads the unset `self._boundary`; the model takes the distance rules as a parameter and gives the documented eligibility.
- Controllers.AutomatorController.Build: after the rule injection the source always raises. `Validator` has no `pre_validate` (automator_controller.py:100), `Scheduler` is given four arguments where its constructor takes three (:114, scheduler.py:40), and neither `set_schedule_event_filters` (:116) nor `schedule_helper.is_schedule_complete` (:138) exists. The model takes validation, scheduling and the completeness test as the `Services` parameter and gives the documented validate-and-iterate behaviour.
- EventFilters.Apply, Handlers.SetupSpec, Handlers.RunSetup, Controllers.AutomatorController.New, Controllers.AutomatorController.AddScheduleEventFilter, Controllers.AutomatorController.Build: the filter module imports `ScheduleEventFilterContext` from core/context.py (py_matplanering/core/schedule/schedule_event_filter.py:6), which defines only `Context` and `BoundaryContext`, so importing it raises ImportError. The setup handler (setup_handler.py:9), the scheduler through it (scheduler.py:11) and the controller (automator_controller.py:6) import that module, so no filter function, no `SetupHandler.handle` and no `AutomatorController` can run in the source. The same holds for the other members about filters, the setup stage and the controller (`EventFilters.*Spec`, `Handlers.RegisterFilters`, `Handlers.SetupFreshBuilder`, `Handlers.SetupRejectsDuplicate`, the rest of `Controllers.AutomatorController`). The model gives all of them their documented behaviour.
- Managers.ScheduleManager.AddSchedule, Managers.ScheduleManager.AddMasterSchedule, Managers.ScheduleManager.AddMinionSchedule: require that the schedule object and its quota are not already registered under another key, while `__add_schedule` accepts the same object under two keys. That shared case is not modelled: there, a tracked addition and the removal from the other schedules would act twice on one schedule.
- Naming.Capitalize, Naming.CamelToUnderscore, Naming.CamelToUnderscoreLetters: upper- and lower-casing map ASCII letters only, while Python's `str.capitalize` and `str.lower` (common.py:77,81) map every Unicode letter (`'éa'.capitalize()` is `'Éa'` in Python and stays `'éa'` here).
- ScheduleEvents.AsDict: keys of an event row other than id, name, rules, prio, active, startdate, enddate and candidates are not modelled, because `ScheduleInputs.EventRow` holds only those.
- Integer fields are unbounded, as Python's integers are.
- Errors raised for attributes of the wrong Python type (other than the distance value's type and the `dates` list check) are not modelled.
