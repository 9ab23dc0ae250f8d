/**
 * `process_working_hours`: the four stages put together over one weekly schedule, one exception
 * calendar and one reading of the clock.
 */
module WorkingHours {
  import opened HoursTypes
  import opened TimeOfDay
  import opened StatusScan
  import opened NextOpeningSearch
  import opened Compaction
  import opened ExceptionCalendar

  /** `$result['today']` when the source sets it. */
  datatype TodayStatus =
    TodayStatus(range: Option<Range>, status: Status, labelText: string, nextOpening: Option<NextOpening>)

  /**
   * The result: `today` is None where the source leaves `$result['today']` empty (no exception and
   * no schedule entry for today).
   */
  datatype HoursReport =
    HoursReport(today: Option<TodayStatus>, workingHours: seq<GroupSummary>, exceptions: seq<ExceptionEntry>)

  /** Status of today over the active ranges, and the next opening when closed. */
  function StatusFor(active: seq<Range>, schedule: seq<DaySchedule>, clock: Clock): TodayStatus
  {
    var out := Scan(active, clock.time);
    var next := if out.status == Closed then NextOpeningFor(active, schedule, clock) else None;
    TodayStatus(out.range, out.status, out.labelText, next)
  }

  function Evaluate(schedule: seq<DaySchedule>, exceptions: seq<ExceptionEntry>, clock: Clock,
                    calendar: string -> Option<int>): HoursReport
  {
    var res := Resolve(exceptions, clock, calendar);
    var today :=
      if res.today.Some? then Some(StatusFor(res.today.value.ranges, schedule, clock))
      else match EntryFor(schedule, clock.weekday)
        case Some(e) => Some(StatusFor(e.ranges, schedule, clock))
        case None => None;
    HoursReport(today, Compact(schedule), res.upcoming)
  }

  /** `process_working_hours($working_hours, $exceptions)` with the clock passed in. */
  method ProcessWorkingHours(schedule: seq<DaySchedule>, exceptions: seq<ExceptionEntry>, clock: Clock,
                             calendar: string -> Option<int>) returns (report: HoursReport)
    ensures report == Evaluate(schedule, exceptions, clock, calendar)
  {
    var workingHours := CompactSchedule(schedule);
    var todayException, upcoming := ResolveExceptions(exceptions, clock, calendar);
    var active: Option<seq<Range>> := None;
    if todayException.Some? {
      active := Some(todayException.value.ranges);
    } else {
      var todayHours := FindEntry(schedule, clock.weekday);
      if todayHours.Some? {
        active := Some(todayHours.value.ranges);
      }
    }
    var today: Option<TodayStatus> := None;
    if active.Some? {
      var out := ScanRanges(active.value, clock.time);
      var next: Option<NextOpening> := None;
      if out.status == Closed {
        next := FindNextOpening(active.value, schedule, clock);
      }
      today := Some(TodayStatus(out.range, out.status, out.labelText, next));
    }
    report := HoursReport(today, workingHours, upcoming);
  }

  /**
   * An exception for today decides today's status on its own ranges, even when it has none: the
   * weekly entry for today plays no part.
   */
  lemma ExceptionOverridesSchedule(schedule: seq<DaySchedule>, exceptions: seq<ExceptionEntry>, clock: Clock,
                                   calendar: string -> Option<int>, v: ExceptionValue)
    requires LastFor(exceptions, clock.date, clock.year) == Some(v)
    ensures Evaluate(schedule, exceptions, clock, calendar).today == Some(StatusFor(v.ranges, schedule, clock))
  {
    TodayIsLastMatch(exceptions, clock, calendar);
  }

  /** Without an exception for today, today's weekly entry decides, and without one there is no status. */
  lemma RegularDay(schedule: seq<DaySchedule>, exceptions: seq<ExceptionEntry>, clock: Clock,
                   calendar: string -> Option<int>)
    requires forall i :: 0 <= i < |exceptions| ==> ResolveKey(exceptions[i].key, clock.year) != clock.date
    ensures Evaluate(schedule, exceptions, clock, calendar).today ==
      match EntryFor(schedule, clock.weekday)
      case Some(e) => Some(StatusFor(e.ranges, schedule, clock))
      case None => None
  {
    TodayIsLastMatch(exceptions, clock, calendar);
  }

  /**
   * An open business has no next opening and is inside the range it reports; a business closed
   * "from X" opens next today at X.
   */
  lemma TodayStatusConsistent(schedule: seq<DaySchedule>, exceptions: seq<ExceptionEntry>, clock: Clock,
                              calendar: string -> Option<int>)
    requires Evaluate(schedule, exceptions, clock, calendar).today.Some?
    ensures var t := Evaluate(schedule, exceptions, clock, calendar).today.value;
      (t.status == Open ==> t.nextOpening.None? && t.range.Some? && InRange(t.range.value, clock.time)) &&
      (t.status == Closed && t.range.Some? && clock.time < t.range.value.opening ==>
        t.nextOpening == Some(NextOpening(clock.weekday, t.range.value.opening)))
  {
    var res := Resolve(exceptions, clock, calendar);
    var active := if res.today.Some? then res.today.value.ranges else EntryFor(schedule, clock.weekday).value.ranges;
    if Scan(active, clock.time).status == Open {
      OpenMeansInside(active, clock.time);
    } else if Scan(active, clock.time).range.Some? && clock.time < Scan(active, clock.time).range.value.opening {
      NextOpeningAgreesWithStatus(active, schedule, clock);
    }
  }
}
