/**
 * Next-opening search, run when the business is closed: first the rest of today, then the
 * weekdays after today, at most one week ahead, taking the first range of the first weekday that
 * has a schedule entry.
 */
module NextOpeningSearch {
  import opened HoursTypes
  import opened TimeOfDay
  import opened StatusScan

  /** `$result['today']['next_opening']`: the weekday and the time of the next opening. */
  datatype NextOpening = NextOpening(day: Weekday, time: Minute)

  /** The first schedule entry for weekday `d`, if there is one. */
  function EntryFor(schedule: seq<DaySchedule>, d: Weekday): (r: Option<DaySchedule>)
    ensures r.None? <==> forall i :: 0 <= i < |schedule| ==> schedule[i].day != d
    ensures r.Some? ==> r.value.day == d && r.value in schedule
  {
    if schedule == [] then None
    else if schedule[0].day == d then Some(schedule[0])
    else EntryFor(schedule[1..], d)
  }

  lemma {:induction false} EntryForAt(schedule: seq<DaySchedule>, d: Weekday, i: int)
    requires 0 <= i < |schedule| && schedule[i].day == d
    requires forall j :: 0 <= j < i ==> schedule[j].day != d
    ensures EntryFor(schedule, d) == Some(schedule[i])
  {
    if i > 0 {
      EntryForAt(schedule[1..], d, i - 1);
    }
  }

  /** The `foreach` with `break` that looks up a weekday's entry (lines 137-142). */
  method FindEntry(schedule: seq<DaySchedule>, d: Weekday) returns (r: Option<DaySchedule>)
    ensures r == EntryFor(schedule, d)
  {
    r := None;
    for i := 0 to |schedule|
      invariant forall j :: 0 <= j < i ==> schedule[j].day != d
    {
      if schedule[i].day == d {
        r := Some(schedule[i]);
        EntryForAt(schedule, d, i);
        return;
      }
    }
  }

  /** Phase 1: the opening of the first range that opens strictly after `now`. */
  function OpeningLaterToday(rs: seq<Range>, now: Minute): (r: Option<Minute>)
    ensures r.None? <==> forall k :: 0 <= k < |rs| ==> rs[k].opening <= now
    ensures r.Some? ==> now < r.value
    ensures r.Some? ==>
      exists k :: 0 <= k < |rs| && rs[k].opening == r.value && forall j :: 0 <= j < k ==> rs[j].opening <= now
  {
    if rs == [] then None
    else if now < rs[0].opening then Some(rs[0].opening)
    else
      var r := OpeningLaterToday(rs[1..], now);
      assert forall k :: 0 < k < |rs| ==> rs[k] == rs[1..][k - 1];
      if r.Some? then
        var k :| 0 <= k < |rs[1..]| && rs[1..][k].opening == r.value && forall j :: 0 <= j < k ==> rs[1..][j].opening <= now;
        assert rs[k + 1].opening == r.value && forall j :: 0 <= j < k + 1 ==> rs[j].opening <= now;
        r
      else
        r
  }

  /** Lines 178-184. */
  method FindOpeningLaterToday(rs: seq<Range>, now: Minute) returns (r: Option<Minute>)
    ensures r == OpeningLaterToday(rs, now)
  {
    r := None;
    var i := 0;
    while i < |rs|
      invariant 0 <= i <= |rs|
      invariant OpeningLaterToday(rs, now) == OpeningLaterToday(rs[i..], now)
    {
      assert rs[i..][1..] == rs[i + 1..];
      if now < rs[i].opening {
        r := Some(rs[i].opening);
        break;
      }
      i := i + 1;
    }
  }

  /** `($current_day + $i) % 7`: the weekday `i` days after `weekday`. */
  function DayAfter(weekday: Weekday, i: int): Weekday
  {
    (weekday + i) % 7
  }

  /** None of the weekdays `from` .. `i - 1` days after `weekday` has an entry. */
  predicate NoEntryBetween(schedule: seq<DaySchedule>, weekday: Weekday, from: int, i: int)
  {
    forall j :: from <= j < i ==> EntryFor(schedule, DayAfter(weekday, j)).None?
  }

  /** Phase 2 from the `i`-th day after today on: the first weekday with an entry decides. */
  function ScanWeekFrom(schedule: seq<DaySchedule>, weekday: Weekday, i: int): Option<NextOpening>
    requires 1 <= i <= 8
    decreases 8 - i
  {
    if i == 8 then None
    else
      var d := DayAfter(weekday, i);
      match EntryFor(schedule, d)
      case Some(e) => if e.ranges == [] then None else Some(NextOpening(d, e.ranges[0].opening))
      case None => ScanWeekFrom(schedule, weekday, i + 1)
  }

  /** Lines 188-197: weekdays today + 1 .. today + 7, modulo 7. */
  function ScanWeek(schedule: seq<DaySchedule>, weekday: Weekday): Option<NextOpening>
  {
    ScanWeekFrom(schedule, weekday, 1)
  }

  /** The nested loops with `break 2` of lines 188-197. */
  method SearchWeek(schedule: seq<DaySchedule>, weekday: Weekday) returns (next: Option<NextOpening>)
    ensures next == ScanWeek(schedule, weekday)
  {
    next := None;
    var i := 1;
    label days:
    while i <= 7
      invariant 1 <= i <= 8
      invariant ScanWeek(schedule, weekday) == ScanWeekFrom(schedule, weekday, i)
      invariant next == None
    {
      var checkDay := DayAfter(weekday, i);
      var j := 0;
      while j < |schedule|
        invariant 0 <= j <= |schedule|
        invariant forall k :: 0 <= k < j ==> schedule[k].day != checkDay
      {
        if schedule[j].day == checkDay {
          var ranges := schedule[j].ranges;
          next := if ranges == [] then None else Some(NextOpening(checkDay, ranges[0].opening));
          EntryForAt(schedule, checkDay, j);
          break days;
        }
        j := j + 1;
      }
      i := i + 1;
    }
  }

  /** Every weekday is reached by exactly one of the steps 1 .. 7 after any weekday. */
  lemma WeekReachesEveryDay(weekday: Weekday, d: Weekday)
    ensures 1 <= (d - weekday + 6) % 7 + 1 <= 7
    ensures DayAfter(weekday, (d - weekday + 6) % 7 + 1) == d
    ensures forall i :: 1 <= i <= 7 && DayAfter(weekday, i) == d ==> i == (d - weekday + 6) % 7 + 1
  {
  }

  /** What phase 2 finds is the first weekday after today that has an entry, and that entry's first opening. */
  lemma {:induction false} ScanWeekFromFinds(schedule: seq<DaySchedule>, weekday: Weekday, from: int, n: NextOpening)
    requires 1 <= from <= 8 && ScanWeekFrom(schedule, weekday, from) == Some(n)
    ensures exists i :: from <= i <= 7 && n.day == DayAfter(weekday, i) && NoEntryBetween(schedule, weekday, from, i)
    ensures EntryFor(schedule, n.day).Some? && EntryFor(schedule, n.day).value.ranges != []
    ensures EntryFor(schedule, n.day).value.ranges[0].opening == n.time
    decreases 8 - from
  {
    if EntryFor(schedule, DayAfter(weekday, from)).None? {
      ScanWeekFromFinds(schedule, weekday, from + 1, n);
      var i :| from + 1 <= i <= 7 && n.day == DayAfter(weekday, i) && NoEntryBetween(schedule, weekday, from + 1, i);
      assert NoEntryBetween(schedule, weekday, from, i);
    } else {
      assert n.day == DayAfter(weekday, from);
      assert NoEntryBetween(schedule, weekday, from, from);
    }
  }

  /** Phase 2 finds nothing exactly when no weekday has an entry or the first one found has no ranges. */
  lemma {:induction false} ScanWeekFromNone(schedule: seq<DaySchedule>, weekday: Weekday, from: int)
    requires 1 <= from <= 8
    ensures ScanWeekFrom(schedule, weekday, from).None? <==>
      NoEntryBetween(schedule, weekday, from, 8) ||
      exists i :: from <= i <= 7 && NoEntryBetween(schedule, weekday, from, i) &&
        EntryFor(schedule, DayAfter(weekday, i)).Some? && EntryFor(schedule, DayAfter(weekday, i)).value.ranges == []
    decreases 8 - from
  {
    if from <= 7 {
      ScanWeekFromNone(schedule, weekday, from + 1);
      var e := EntryFor(schedule, DayAfter(weekday, from));
      if e.Some? {
        assert !NoEntryBetween(schedule, weekday, from, 8);
        forall i | from < i <= 7 ensures !NoEntryBetween(schedule, weekday, from, i) {
          assert from <= from < i;
        }
      } else {
        assert NoEntryBetween(schedule, weekday, from, 8) <==> NoEntryBetween(schedule, weekday, from + 1, 8);
        forall i | from < i <= 7
          ensures NoEntryBetween(schedule, weekday, from, i) <==> NoEntryBetween(schedule, weekday, from + 1, i)
        {
        }
        assert !(NoEntryBetween(schedule, weekday, from, from) && e.Some?);
      }
    }
  }

  /**
   * The one-week horizon is enough: when the schedule has any entry and no entry is empty, phase 2
   * always finds an opening; with no entry at all it never does.
   */
  lemma ScanWeekHorizon(schedule: seq<DaySchedule>, weekday: Weekday)
    ensures schedule == [] ==> ScanWeek(schedule, weekday).None?
    ensures schedule != [] && (forall k :: 0 <= k < |schedule| ==> schedule[k].ranges != []) ==>
      ScanWeek(schedule, weekday).Some?
  {
    ScanWeekFromNone(schedule, weekday, 1);
    if schedule != [] {
      var d := schedule[0].day;
      WeekReachesEveryDay(weekday, d);
      var i := (d - weekday + 6) % 7 + 1;
      assert EntryFor(schedule, DayAfter(weekday, i)).Some?;
      assert !NoEntryBetween(schedule, weekday, 1, 8);
    }
  }

  /** The full search as the source means it: the rest of today over today's active ranges, then the week. */
  function NextOpeningFor(active: seq<Range>, schedule: seq<DaySchedule>, clock: Clock): Option<NextOpening>
  {
    match OpeningLaterToday(active, clock.time)
    case Some(t) => Some(NextOpening(clock.weekday, t))
    case None => ScanWeek(schedule, clock.weekday)
  }

  /** Lines 174-206 with phase 1 over the active ranges. */
  method FindNextOpening(active: seq<Range>, schedule: seq<DaySchedule>, clock: Clock) returns (next: Option<NextOpening>)
    ensures next == NextOpeningFor(active, schedule, clock)
  {
    var later := FindOpeningLaterToday(active, clock.time);
    if later.Some? {
      next := Some(NextOpening(clock.weekday, later.value));
    } else {
      next := SearchWeek(schedule, clock.weekday);
    }
  }

  /**
   * The search as written: phase 1 reads `$today_hours`, which is only set when no exception
   * applies today; otherwise it is undefined and the `foreach` runs over nothing. It agrees with
   * the corrected search when `$today_hours` is set, and otherwise goes straight to the week.
   */
  function NextOpeningAsWritten(todayHours: Option<DaySchedule>, schedule: seq<DaySchedule>, clock: Clock): (r: Option<NextOpening>)
    ensures todayHours.Some? ==> r == NextOpeningFor(todayHours.value.ranges, schedule, clock)
    ensures todayHours.None? ==> r == ScanWeek(schedule, clock.weekday)
  {
    var rs := if todayHours.Some? then todayHours.value.ranges else [];
    match OpeningLaterToday(rs, clock.time)
    case Some(t) => Some(NextOpening(clock.weekday, t))
    case None => ScanWeek(schedule, clock.weekday)
  }

  /** When the scan stops before a range that has not opened, phase 1 finds exactly that range. */
  lemma {:induction false} ClosedFromIsLaterToday(rs: seq<Range>, now: Minute)
    requires Scan(rs, now).status == Closed && Scan(rs, now).range.Some?
    requires now < Scan(rs, now).range.value.opening
    ensures OpeningLaterToday(rs, now) == Some(Scan(rs, now).range.value.opening)
  {
    if !InRange(rs[0], now) && now >= rs[0].opening {
      ClosedFromIsLaterToday(rs[1..], now);
    }
  }

  /**
   * A status "closed, from X" is followed by a next opening today at X: the label and the next
   * opening never disagree.
   */
  lemma NextOpeningAgreesWithStatus(active: seq<Range>, schedule: seq<DaySchedule>, clock: Clock)
    requires Scan(active, clock.time).status == Closed && Scan(active, clock.time).range.Some?
    requires clock.time < Scan(active, clock.time).range.value.opening
    ensures NextOpeningFor(active, schedule, clock) ==
      Some(NextOpening(clock.weekday, Scan(active, clock.time).range.value.opening))
  {
    ClosedFromIsLaterToday(active, clock.time);
  }

  /**
   * As written, an exception for today that opens later (09:00-12:00 on a Monday at 08:00) gives
   * the status "from 09:00" but a next opening on Tuesday, because phase 1 never sees the
   * exception's ranges.
   */
  lemma AsWrittenSkipsTodaysException()
    ensures var schedule := [DaySchedule(1, [Range(600, 1200)]), DaySchedule(2, [Range(600, 1200)])];
      var clock := Clock(1, 480, "2024-11-11", "2024", 0);
      var exceptionRanges := [Range(540, 720)];
      Scan(exceptionRanges, clock.time) == ScanOutcome(Closed, "from 09:00", Some(Range(540, 720))) &&
      NextOpeningAsWritten(None, schedule, clock) == Some(NextOpening(2, 600)) &&
      NextOpeningFor(exceptionRanges, schedule, clock) == Some(NextOpening(1, 540))
  {
    var schedule := [DaySchedule(1, [Range(600, 1200)]), DaySchedule(2, [Range(600, 1200)])];
    assert Render(540) == "09:00";
    assert EntryFor(schedule, 2) == Some(schedule[1]);
  }
}
