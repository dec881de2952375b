/** Failure-aware values shared by every module of the model: an optional value,
    a result that is either a value or one of the errors the scheduling engine
    raises, and an outcome for operations that only succeed or fail. */
module Outcomes {

  datatype Option<+T> = None | Some(value: T) {
    function GetOr(default: T): T {
      match this
      case Some(v) => v
      case None => default
    }
  }

  /** The exceptions the engine raises, one constructor per distinct failure. */
  datatype Error =
    // schedule.py
    | DatesNotAList            // add_event was handed something other than a list of dates
    | MissingDate              // get_day on a date that the schedule does not hold (KeyError)
    | DailyLimitExceeded       // a day holds more events than daily_event_limit
    | ExcessiveQuota           // quota validation failed for the date
    | MultiDateQuota           // quota consumption over more than one date (NotImplementedError)
    | ExistingDate             // add_date on a date already present
    | UnknownIterMethod        // ScheduleIterator with an unsupported iteration method
    // misc.py
    | QuotaArithmetic          // quota default computed from a missing min or max (TypeError)
    | MissingQuotaProps        // min, max or time_unit missing from a quota template
    | UnknownTimeUnit          // quota time unit other than year, half_year, month, week
    // schedule_manager.py
    | NullKey
    | KeyInUse
    | EmptyKey
    | MasterAlreadySet
    | NoMaster
    | NoSchedules
    | UnknownKey
    // boundaries
    | MultiDateDistance        // distance boundary asked about more than one date (NotImplementedError)
    | MissingProbeDate         // distance boundary asked about no date at all (IndexError)
    | DistanceValueNotInt      // distance value that is not an int, or is a bool
    | UnknownDistanceUnit
    | EmptyExamineWindow       // examine_dates.remove(date) on a window without the date (ValueError)
    | DateOutOfRange           // a date before 0001-01-01 (OverflowError)
    | UnknownPeriodToken
    | InvalidDate              // a month/day pair that parse_date rejects
    // schedule_helper.py, schedule_input.py
    | BoundaryNotLoaded        // a boundary rule whose module is not among the loaded ones (KeyError)
    | MissingActive            // a row without `active` read while inactive rows are skipped (KeyError)
    // schedule_builder.py
    | NullPlanner
    | PlannerAlreadySet
    | NullSchedule
    | ScheduleAlreadySet
    | CandidatesNotAllowed
    | NotAnEvent
    | UnknownRuleSet           // an event names a rule set that convert_rule_set did not produce
    | NotABoundaryRule         // a rule without a `boundary` key applied as a boundary (KeyError)
    | AbstractBoundary         // a boundary class that leaves match_event abstract (TypeError)
    | NotPlanned
    | NotBuilt
    | NoPlanner                // plan_schedule with no planner set (AttributeError)
    | NoScheduleInput          // build_candidates with no schedule input set (AttributeError on None)
    | NoCandidates             // the candidate buckets read before set_schedule created them (AttributeError)
    // handlers
    | DuplicateFilter(name: string)
    | EmptyHandlerList
    // automator_controller.py
    | ZeroIterations
    | NotBuiltYet
    | AssertionFailed          // a failed validation that recorded no message
    | MissingPlanningOption    // build options without a `planning` entry (KeyError)
    | NoBuildError             // a column of a build error that was never recorded (TypeError)

  datatype Result<+T> = Ok(value: T) | Err(error: Error)

  /** For operations that return nothing useful but may raise. */
  datatype Outcome = Pass | Fail(error: Error)
}
