/**
 * Schedule compaction: weekdays with exactly the same ordered list of ranges are grouped, each
 * group's days are sorted and cut into maximal runs of consecutive days, and each group gets a
 * label such as "Mon-Tue, Thu-Fri from 10:00-20:00".
 */
module Compaction {
  import opened HoursTypes
  import opened Labels

  datatype Group = Group(ranges: seq<Range>, days: seq<Weekday>)

  /** One entry of `$result['working_hours']`. */
  datatype GroupSummary = GroupSummary(daysLabel: string, ranges: seq<Range>, labelText: string)

  // ---------------------------------------------------------------------------------------------
  // Grouping

  /** The distinct range lists of the schedule, each where it first occurs. */
  function KeyOrder(s: seq<DaySchedule>): seq<seq<Range>>
  {
    if s == [] then []
    else
      var keys := KeyOrder(s[..|s| - 1]);
      if s[|s| - 1].ranges in keys then keys else keys + [s[|s| - 1].ranges]
  }

  /** The days, in schedule order, of the entries whose range list is `key`. */
  function DaysWith(s: seq<DaySchedule>, key: seq<Range>): seq<Weekday>
  {
    if s == [] then []
    else DaysWith(s[..|s| - 1], key) + (if s[|s| - 1].ranges == key then [s[|s| - 1].day] else [])
  }

  /** `$grouped_hours`: one group per distinct range list, in order of first occurrence. */
  function Grouped(s: seq<DaySchedule>): seq<Group>
  {
    var keys := KeyOrder(s);
    seq(|keys|, k requires 0 <= k < |keys| => Group(keys[k], DaysWith(s, keys[k])))
  }

  /** The loop that fills `$grouped_hours`, an ordered map from a range list to its days. */
  method GroupByRanges(schedule: seq<DaySchedule>) returns (groups: seq<Group>)
    ensures groups == Grouped(schedule)
  {
    var order: seq<seq<Range>> := [];
    var members: map<seq<Range>, seq<Weekday>> := map[];
    for i := 0 to |schedule|
      invariant order == KeyOrder(schedule[..i])
      invariant forall key :: key in members <==> key in order
      invariant forall key :: key in members ==> members[key] == DaysWith(schedule[..i], key)
    {
      var e := schedule[i];
      assert schedule[..i + 1][..i] == schedule[..i];
      if e.ranges !in members {
        order := order + [e.ranges];
        members := members[e.ranges := []];
        DaysWithAbsent(schedule[..i], e.ranges);
      }
      members := members[e.ranges := members[e.ranges] + [e.day]];
    }
    assert schedule[..|schedule|] == schedule;
    groups := seq(|order|, k requires 0 <= k < |order| => Group(order[k], members[order[k]]));
  }

  function Days(s: seq<DaySchedule>): seq<Weekday>
  {
    if s == [] then [] else Days(s[..|s| - 1]) + [s[|s| - 1].day]
  }

  function AllDays(groups: seq<Group>): seq<Weekday>
  {
    if groups == [] then [] else groups[0].days + AllDays(groups[1..])
  }

  /** The index of the first entry whose range list is `key`. */
  function FirstIndex(s: seq<DaySchedule>, key: seq<Range>): (i: nat)
    requires exists e :: e in s && e.ranges == key
    ensures i < |s| && s[i].ranges == key
    ensures forall j :: 0 <= j < i ==> s[j].ranges != key
  {
    if s[0].ranges == key then 0 else FirstIndex(s[1..], key) + 1
  }

  lemma {:induction false} DaysWithAbsent(s: seq<DaySchedule>, key: seq<Range>)
    requires key !in KeyOrder(s)
    ensures DaysWith(s, key) == []
  {
    if s != [] {
      DaysWithAbsent(s[..|s| - 1], key);
    }
  }

  /** A range list is a group key exactly when some entry of the schedule has it. */
  lemma {:induction false} KeyOrderCovers(s: seq<DaySchedule>, key: seq<Range>)
    ensures key in KeyOrder(s) <==> exists e :: e in s && e.ranges == key
  {
    if s != [] {
      var init := s[..|s| - 1];
      KeyOrderCovers(init, key);
      assert s == init + [s[|s| - 1]];
      assert forall e :: e in s <==> e in init || e == s[|s| - 1];
    }
  }

  /** Group keys are pairwise different. */
  lemma {:induction false} KeyOrderDistinct(s: seq<DaySchedule>)
    ensures Distinct(KeyOrder(s))
  {
    if s != [] {
      KeyOrderDistinct(s[..|s| - 1]);
    }
  }

  /** Groups come out in the order in which their range lists first occur in the schedule. */
  lemma {:induction false} KeyOrderFirstOccurrence(s: seq<DaySchedule>)
    ensures forall k :: 0 <= k < |KeyOrder(s)| ==> exists e :: e in s && e.ranges == KeyOrder(s)[k]
    ensures forall i, j :: 0 <= i < j < |KeyOrder(s)| ==>
      FirstIndex(s, KeyOrder(s)[i]) < FirstIndex(s, KeyOrder(s)[j])
  {
    var all := KeyOrder(s);
    forall k | 0 <= k < |all| ensures exists e :: e in s && e.ranges == all[k] {
      KeyOrderCovers(s, all[k]);
    }
    if s != [] {
      var init, last := s[..|s| - 1], s[|s| - 1];
      var keys := KeyOrder(init);
      KeyOrderFirstOccurrence(init);
      assert s == init + [last];
      forall k | 0 <= k < |keys|
        ensures FirstIndex(s, keys[k]) == FirstIndex(init, keys[k]) < |init|
      {
        FirstIndexPrefix(init, last, keys[k]);
      }
      if last.ranges in keys {
        assert all == keys;
      } else {
        assert all == keys + [last.ranges];
        KeyOrderCovers(init, last.ranges);
        FirstIndexLast(init, last);
        forall i, j | 0 <= i < j < |all| ensures FirstIndex(s, all[i]) < FirstIndex(s, all[j]) {
          if j == |keys| {
            assert all[i] == keys[i];
          } else {
            assert all[i] == keys[i] && all[j] == keys[j];
          }
        }
      }
    }
  }

  lemma FirstIndexLast(init: seq<DaySchedule>, last: DaySchedule)
    requires forall j :: 0 <= j < |init| ==> init[j].ranges != last.ranges
    ensures exists e :: e in init + [last] && e.ranges == last.ranges
    ensures FirstIndex(init + [last], last.ranges) == |init|
  {
    var s := init + [last];
    assert s[|init|] == last;
    assert forall j :: 0 <= j < |init| ==> s[j] == init[j];
  }

  lemma FirstIndexPrefix(init: seq<DaySchedule>, last: DaySchedule, key: seq<Range>)
    requires exists e :: e in init && e.ranges == key
    ensures exists e :: e in init + [last] && e.ranges == key
    ensures FirstIndex(init + [last], key) == FirstIndex(init, key)
  {
    var s := init + [last];
    var i, j := FirstIndex(init, key), FirstIndex(s, key);
    assert s[i] == init[i];
    assert s[j].ranges == key;
  }

  /** Every entry's day sits in the one group keyed by that entry's range list. */
  lemma GroupedPlacesEveryEntry(s: seq<DaySchedule>, i: int)
    requires 0 <= i < |s|
    ensures exists k :: 0 <= k < |Grouped(s)| && Grouped(s)[k].ranges == s[i].ranges
    ensures forall k :: 0 <= k < |Grouped(s)| ==>
      Grouped(s)[k].ranges == s[i].ranges ==> s[i].day in Grouped(s)[k].days
  {
    var keys := KeyOrder(s);
    KeyOrderCovers(s, s[i].ranges);
    assert s[i] in s;
    var k :| 0 <= k < |keys| && keys[k] == s[i].ranges;
    assert Grouped(s)[k].ranges == s[i].ranges;
    DaysWithContains(s, i);
  }

  lemma {:induction false} DaysWithContains(s: seq<DaySchedule>, i: int)
    requires 0 <= i < |s|
    ensures s[i].day in DaysWith(s, s[i].ranges)
  {
    if i < |s| - 1 {
      DaysWithContains(s[..|s| - 1], i);
    }
  }

  // No day dropped or duplicated: the groups' days, taken together, are the schedule's days.

  function DaysOver(keys: seq<seq<Range>>, s: seq<DaySchedule>): multiset<Weekday>
  {
    if keys == [] then multiset{} else multiset(DaysWith(s, keys[0])) + DaysOver(keys[1..], s)
  }

  lemma {:induction false} DaysOverSnocKey(keys: seq<seq<Range>>, key: seq<Range>, s: seq<DaySchedule>)
    ensures DaysOver(keys + [key], s) == DaysOver(keys, s) + multiset(DaysWith(s, key))
  {
    if keys != [] {
      assert (keys + [key])[1..] == keys[1..] + [key];
      DaysOverSnocKey(keys[1..], key, s);
    }
  }

  lemma {:induction false} DaysOverSnocEntry(keys: seq<seq<Range>>, s: seq<DaySchedule>, e: DaySchedule)
    requires Distinct(keys)
    ensures DaysOver(keys, s + [e]) ==
      DaysOver(keys, s) + (if e.ranges in keys then multiset{e.day} else multiset{})
  {
    assert (s + [e])[..|s + [e]| - 1] == s;
    if keys != [] {
      DaysOverSnocEntry(keys[1..], s, e);
      assert e.ranges in keys <==> e.ranges == keys[0] || e.ranges in keys[1..];
    }
  }

  lemma {:induction false} GroupedIsPartition(s: seq<DaySchedule>)
    ensures DaysOver(KeyOrder(s), s) == multiset(Days(s))
  {
    if s != [] {
      var init, last := s[..|s| - 1], s[|s| - 1];
      var keys := KeyOrder(init);
      GroupedIsPartition(init);
      KeyOrderDistinct(init);
      assert s == init + [last];
      DaysOverSnocEntry(keys, init, last);
      if last.ranges !in keys {
        DaysOverSnocKey(keys, last.ranges, s);
        DaysWithAbsent(init, last.ranges);
      }
    }
  }

  lemma {:induction false} AllDaysOfGrouped(keys: seq<seq<Range>>, s: seq<DaySchedule>)
    ensures multiset(AllDays(seq(|keys|, k requires 0 <= k < |keys| => Group(keys[k], DaysWith(s, keys[k])))))
      == DaysOver(keys, s)
  {
    var gs := seq(|keys|, k requires 0 <= k < |keys| => Group(keys[k], DaysWith(s, keys[k])));
    if keys != [] {
      AllDaysOfGrouped(keys[1..], s);
      assert gs[1..] == seq(|keys[1..]|, k requires 0 <= k < |keys[1..]| => Group(keys[1..][k], DaysWith(s, keys[1..][k])));
    }
  }

  /** The groups together hold every day of the schedule exactly as often as the schedule does. */
  lemma GroupedKeepsEveryDay(s: seq<DaySchedule>)
    ensures multiset(AllDays(Grouped(s))) == multiset(Days(s))
  {
    AllDaysOfGrouped(KeyOrder(s), s);
    GroupedIsPartition(s);
  }

  // ---------------------------------------------------------------------------------------------
  // Sorting the days of a group (`sort($days)`)

  predicate Ascending(s: seq<Weekday>)
  {
    forall i, j :: 0 <= i < j < |s| ==> s[i] <= s[j]
  }

  function Insert(x: Weekday, s: seq<Weekday>): (r: seq<Weekday>)
    ensures multiset(r) == multiset(s) + multiset{x}
    ensures |r| == |s| + 1 && (r[0] == x || (s != [] && r[0] == s[0]))
  {
    if s == [] || x <= s[0] then
      [x] + s
    else
      assert s == [s[0]] + s[1..];
      [s[0]] + Insert(x, s[1..])
  }

  lemma {:induction false} InsertAscending(x: Weekday, s: seq<Weekday>)
    requires Ascending(s)
    ensures Ascending(Insert(x, s))
  {
    if s != [] && x > s[0] {
      InsertAscending(x, s[1..]);
      var rest := Insert(x, s[1..]);
      assert s[0] <= rest[0];
      assert Insert(x, s) == [s[0]] + rest;
    }
  }

  /** The days in ascending order, as PHP's `sort` leaves them. */
  function Sort(s: seq<Weekday>): (r: seq<Weekday>)
    ensures Ascending(r) && multiset(r) == multiset(s)
  {
    if s == [] then []
    else
      assert s == [s[0]] + s[1..];
      var sorted := Sort(s[1..]);
      InsertAscending(s[0], sorted);
      Insert(s[0], sorted)
  }

  // ---------------------------------------------------------------------------------------------
  // Runs of consecutive days

  /** `$days_ranges` for `days`: a day one past the current run's last extends it, any other day starts a new run. */
  function Runs(days: seq<Weekday>): (r: seq<Run>)
    ensures |r| <= |days| && (days != [] ==> r != [])
  {
    if days == [] then []
    else
      var init, x := Runs(days[..|days| - 1]), days[|days| - 1];
      if init != [] && init[|init| - 1].last + 1 == x then
        init[..|init| - 1] + [Run(init[|init| - 1].first, x)]
      else
        init + [Run(x, x)]
  }

  /** The days a run stands for: first, first + 1, ..., last. */
  function Expand(r: Run): seq<Weekday>
  {
    if r.first <= r.last then seq(r.last - r.first + 1, i requires 0 <= i <= r.last - r.first => r.first + i) else []
  }

  function ExpandAll(runs: seq<Run>): seq<Weekday>
  {
    if runs == [] then [] else ExpandAll(runs[..|runs| - 1]) + Expand(runs[|runs| - 1])
  }

  lemma ExpandExtend(r: Run, x: Weekday)
    requires r.first <= r.last && x == r.last + 1
    ensures Expand(Run(r.first, x)) == Expand(r) + [x]
  {
  }

  lemma ExpandSingle(x: Weekday)
    ensures Expand(Run(x, x)) == [x]
  {
    var e := Expand(Run(x, x));
    assert |e| == 1 && e[0] == x;
  }

  lemma ExpandAllSnoc(runs: seq<Run>, r: Run)
    ensures ExpandAll(runs + [r]) == ExpandAll(runs) + Expand(r)
  {
    assert (runs + [r])[..|runs|] == runs;
  }

  /** Every run goes forward: its first day is not after its last (so no run wraps from Saturday to Sunday). */
  lemma {:induction false} RunsOrdered(days: seq<Weekday>)
    ensures forall k :: 0 <= k < |Runs(days)| ==> Runs(days)[k].first <= Runs(days)[k].last
  {
    if days != [] {
      var init, x := Runs(days[..|days| - 1]), days[|days| - 1];
      RunsOrdered(days[..|days| - 1]);
      var r := Runs(days);
      if init != [] && init[|init| - 1].last + 1 == x {
        assert r == init[..|init| - 1] + [Run(init[|init| - 1].first, x)];
        assert forall k :: 0 <= k < |r| - 1 ==> r[k] == init[k];
      } else {
        assert r == init + [Run(x, x)];
        assert forall k :: 0 <= k < |r| - 1 ==> r[k] == init[k];
      }
    }
  }

  /** Appending a day to the input adds exactly that day to the runs' expansion. */
  lemma RunsExpandSnoc(days: seq<Weekday>)
    requires days != []
    ensures ExpandAll(Runs(days)) == ExpandAll(Runs(days[..|days| - 1])) + [days[|days| - 1]]
  {
    var init, x := Runs(days[..|days| - 1]), days[|days| - 1];
    if init != [] && init[|init| - 1].last + 1 == x {
      var front, l := init[..|init| - 1], init[|init| - 1];
      assert Runs(days) == front + [Run(l.first, x)];
      assert init == front + [l];
      RunsOrdered(days[..|days| - 1]);
      ExtendLastRun(front, l, x);
    } else {
      assert Runs(days) == init + [Run(x, x)];
      ExpandAllSnoc(init, Run(x, x));
      ExpandSingle(x);
    }
  }

  lemma ExtendLastRun(front: seq<Run>, l: Run, x: Weekday)
    requires l.first <= l.last && l.last + 1 == x
    ensures ExpandAll(front + [Run(l.first, x)]) == ExpandAll(front + [l]) + [x]
  {
    ExpandAllSnoc(front, l);
    ExpandAllSnoc(front, Run(l.first, x));
    ExpandExtend(l, x);
  }

  /** Spelling the runs out day by day gives back exactly the days they were made from. */
  lemma {:induction false} RunsExpand(days: seq<Weekday>)
    ensures ExpandAll(Runs(days)) == days
  {
    if days != [] {
      var prefix, x := days[..|days| - 1], days[|days| - 1];
      RunsExpand(prefix);
      RunsExpandSnoc(days);
      DropLastAppend(days);
    }
  }

  /** A non-empty sequence is its front followed by its last element. */
  lemma DropLastAppend<T>(s: seq<T>)
    requires s != []
    ensures s[..|s| - 1] + [s[|s| - 1]] == s
  {
  }

  /** No run ends the day before the next one starts. */
  predicate Separated(runs: seq<Run>)
  {
    forall k :: 0 <= k < |runs| - 1 ==> runs[k].last + 1 != runs[k + 1].first
  }

  lemma SeparatedExtend(init: seq<Run>, x: Weekday)
    requires init != [] && Separated(init)
    ensures Separated(init[..|init| - 1] + [Run(init[|init| - 1].first, x)])
  {
    var r := init[..|init| - 1] + [Run(init[|init| - 1].first, x)];
    assert forall k :: 0 <= k < |r| - 1 ==> r[k] == init[k];
    assert r[|r| - 1].first == init[|init| - 1].first;
  }

  lemma SeparatedAppend(init: seq<Run>, x: Weekday)
    requires Separated(init) && (init != [] ==> init[|init| - 1].last + 1 != x)
    ensures Separated(init + [Run(x, x)])
  {
    var r := init + [Run(x, x)];
    assert forall k :: 0 <= k < |r| - 1 ==> r[k] == init[k];
  }

  /** Runs are maximal: no run ends the day before the next one starts, and the last run ends on the last day. */
  lemma {:induction false} RunsMaximal(days: seq<Weekday>)
    ensures Separated(Runs(days))
    ensures Runs(days) != [] ==> Runs(days)[|Runs(days)| - 1].last == days[|days| - 1]
  {
    if days != [] {
      var init, x := Runs(days[..|days| - 1]), days[|days| - 1];
      RunsMaximal(days[..|days| - 1]);
      if init != [] && init[|init| - 1].last + 1 == x {
        SeparatedExtend(init, x);
      } else {
        SeparatedAppend(init, x);
      }
    }
  }

  /** The loop over `$days` with `$start` and `$prev` (the group's days are never empty). */
  method DetectRuns(days: seq<Weekday>) returns (runs: seq<Run>)
    requires |days| > 0
    ensures runs == Runs(days)
  {
    runs := [];
    var start, prev := days[0], days[0];
    assert days[..1] == [days[0]];
    for i := 1 to |days|
      invariant runs + [Run(start, prev)] == Runs(days[..i])
    {
      ghost var before := Runs(days[..i]);
      assert days[..i + 1][..i] == days[..i];
      assert before[|before| - 1] == Run(start, prev) && before[..|before| - 1] == runs;
      if days[i] == prev as int + 1 {
        assert Runs(days[..i + 1]) == runs + [Run(start, days[i])];
        prev := days[i];
      } else {
        assert Runs(days[..i + 1]) == runs + [Run(start, prev)] + [Run(days[i], days[i])];
        runs := runs + [Run(start, prev)];
        start, prev := days[i], days[i];
      }
    }
    assert days[..|days|] == days;
    runs := runs + [Run(start, prev)];
  }

  // ---------------------------------------------------------------------------------------------
  // Summaries

  function Summarize(g: Group): GroupSummary
  {
    var runs := Runs(Sort(g.days));
    GroupSummary(DaysLabel(runs), g.ranges, GroupLabel(runs, g.ranges))
  }

  /** The summaries of the groups, in the groups' order. */
  function SummarizeAll(groups: seq<Group>): (r: seq<GroupSummary>)
    ensures |r| == |groups|
  {
    if groups == [] then [] else SummarizeAll(groups[..|groups| - 1]) + [Summarize(groups[|groups| - 1])]
  }

  /** `$result['working_hours']`. */
  function Compact(s: seq<DaySchedule>): seq<GroupSummary>
  {
    SummarizeAll(Grouped(s))
  }

  lemma GroupDaysNonEmpty(s: seq<DaySchedule>, k: int)
    requires 0 <= k < |Grouped(s)|
    ensures Grouped(s)[k].days != []
  {
    var key := Grouped(s)[k].ranges;
    KeyOrderCovers(s, key);
    var e :| e in s && e.ranges == key;
    var i :| 0 <= i < |s| && s[i] == e;
    DaysWithContains(s, i);
  }

  /** Lines 31-83: group the schedule, then label each group. */
  method CompactSchedule(schedule: seq<DaySchedule>) returns (summary: seq<GroupSummary>)
    ensures summary == Compact(schedule)
  {
    var groups := GroupByRanges(schedule);
    summary := [];
    for k := 0 to |groups|
      invariant summary == SummarizeAll(groups[..k])
    {
      GroupDaysNonEmpty(schedule, k);
      var item := SummarizeGroup(groups[k]);
      assert groups[..k + 1][..k] == groups[..k];
      summary := summary + [item];
    }
    assert groups[..|groups|] == groups;
  }

  /** The body of the loop over `$grouped_hours` (lines 41-82). */
  method SummarizeGroup(g: Group) returns (item: GroupSummary)
    requires g.days != []
    ensures item == Summarize(g)
  {
    var days := Sort(g.days);
    var runs := DetectRuns(days);
    var daysLabel := DaysLabel(runs);
    var rangesLabel := RangesLabel(g.ranges);
    item := GroupSummary(daysLabel, g.ranges, daysLabel + " from " + rangesLabel);
  }

  lemma {:induction false} SummarizeAllAt(groups: seq<Group>, k: int)
    requires 0 <= k < |groups|
    ensures SummarizeAll(groups)[k] == Summarize(groups[k])
  {
    if k < |groups| - 1 {
      SummarizeAllAt(groups[..|groups| - 1], k);
    }
  }

  /**
   * What a summary says can be read back: its days label gives exactly the maximal runs of the
   * group's sorted days, which spell out those days, its ranges give back the ranges label, and
   * its whole label reads back as those runs and ranges.
   */
  lemma SummaryReadsBack(g: Group)
    ensures ParseDaysLabel(Summarize(g).daysLabel) == Some(Runs(Sort(g.days)))
    ensures ExpandAll(Runs(Sort(g.days))) == Sort(g.days)
    ensures ParseRangesLabel(RangesLabel(Summarize(g).ranges)) == Some(g.ranges)
    ensures ParseGroupLabel(Summarize(g).labelText) == Some((Runs(Sort(g.days)), g.ranges))
  {
    DaysLabelRoundTrip(Runs(Sort(g.days)));
    RunsExpand(Sort(g.days));
    RangesLabelRoundTrip(g.ranges);
  }
}
