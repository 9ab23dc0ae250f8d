/**
 * Exception resolution: recurring "MM-DD" keys are given the current year, a key equal to today
 * becomes today's override, and the other keys that fall within the next five days are collected
 * as upcoming exceptions.
 */
module ExceptionCalendar {
  import opened HoursTypes

  /**
   * A five-character key is a recurring "MM-DD" date and gets the current year and a dash in
   * front; any other key is taken as it is. With a four-digit year the result is never
   * five characters long, so it is never taken for a recurring date again.
   */
  function ResolveKey(key: string, year: string): (date: string)
    ensures |key| != 5 ==> date == key
    ensures |key| == 5 ==> |date| == |year| + 6 && date[..|year|] == year && date[|year|] == '-' && date[|year| + 1..] == key
    ensures |year| == 4 ==> |date| != 5
  {
    if |key| == 5 then year + "-" + key else key
  }

  /**
   * The `strtotime` test: the date lies within today .. today + 5 days, both inclusive. A date the
   * calendar cannot read is outside (in the source `strtotime` then yields false and the
   * comparisons fail).
   */
  predicate InWindow(date: string, clock: Clock, calendar: string -> Option<int>)
  {
    calendar(date).Some? && clock.dayNumber <= calendar(date).value <= clock.dayNumber + 5
  }

  /** `$today_exception` and `$upcoming_exceptions`. */
  datatype Resolution = Resolution(today: Option<ExceptionValue>, upcoming: seq<ExceptionEntry>)

  /** `$list[$key] = $value` on an ordered PHP array: overwrite the value in place, or append. */
  function Put(list: seq<ExceptionEntry>, key: string, value: ExceptionValue): seq<ExceptionEntry>
  {
    if list == [] then [ExceptionEntry(key, value)]
    else if list[0].key == key then [ExceptionEntry(key, value)] + list[1..]
    else [list[0]] + Put(list[1..], key, value)
  }

  /** `$list[$key]` if it is set. */
  function Lookup(list: seq<ExceptionEntry>, key: string): Option<ExceptionValue>
  {
    if list == [] then None
    else if list[0].key == key then Some(list[0].value)
    else Lookup(list[1..], key)
  }

  /** The keys of an ordered array, in order. */
  function KeyList(list: seq<ExceptionEntry>): seq<string>
  {
    seq(|list|, i requires 0 <= i < |list| => list[i].key)
  }

  predicate KeysDistinct(list: seq<ExceptionEntry>)
  {
    Distinct(KeyList(list))
  }

  /** After `Put`, the key reads the new value and every other key reads what it read before. */
  lemma {:induction false} LookupPut(list: seq<ExceptionEntry>, key: string, value: ExceptionValue, other: string)
    ensures Lookup(Put(list, key, value), other) == if other == key then Some(value) else Lookup(list, other)
  {
    if list != [] && list[0].key != key {
      LookupPut(list[1..], key, value, other);
    }
  }

  lemma KeyListCons(list: seq<ExceptionEntry>)
    requires list != []
    ensures KeyList(list) == [list[0].key] + KeyList(list[1..])
  {
  }

  /** `Put` keeps an array's keys distinct and adds exactly the key it writes. */
  lemma {:induction false} PutKeys(list: seq<ExceptionEntry>, key: string, value: ExceptionValue)
    requires KeysDistinct(list)
    ensures KeysDistinct(Put(list, key, value))
    ensures forall k :: k in KeyList(Put(list, key, value)) <==> k in KeyList(list) || k == key
  {
    if list != [] {
      KeyListCons(list);
      DistinctCons(list[0].key, KeyList(list[1..]));
      if list[0].key != key {
        PutKeys(list[1..], key, value);
        var rest := Put(list[1..], key, value);
        var put := [list[0]] + rest;
        assert Put(list, key, value) == put && put[1..] == rest;
        KeyListCons(put);
        DistinctCons(list[0].key, KeyList(rest));
      } else {
        assert KeyList(Put(list, key, value)) == KeyList(list);
      }
    } else {
      assert KeyList(Put(list, key, value)) == [key];
    }
  }

  /** One pass of the loop over `$exceptions`. */
  function Step(res: Resolution, e: ExceptionEntry, clock: Clock, calendar: string -> Option<int>): Resolution
  {
    var date := ResolveKey(e.key, clock.year);
    if date == clock.date then res.(today := Some(e.value))
    else if InWindow(date, clock, calendar) then res.(upcoming := Put(res.upcoming, date, e.value))
    else res
  }

  /** The state after the loop over all of `xs`. */
  function Resolve(xs: seq<ExceptionEntry>, clock: Clock, calendar: string -> Option<int>): Resolution
  {
    if xs == [] then Resolution(None, [])
    else Step(Resolve(xs[..|xs| - 1], clock, calendar), xs[|xs| - 1], clock, calendar)
  }

  /** Lines 86-99. */
  method ResolveExceptions(xs: seq<ExceptionEntry>, clock: Clock, calendar: string -> Option<int>)
    returns (today: Option<ExceptionValue>, upcoming: seq<ExceptionEntry>)
    ensures Resolution(today, upcoming) == Resolve(xs, clock, calendar)
  {
    today, upcoming := None, [];
    for i := 0 to |xs|
      invariant Resolution(today, upcoming) == Resolve(xs[..i], clock, calendar)
    {
      assert xs[..i + 1][..i] == xs[..i];
      var date := xs[i].key;
      if |date| == 5 {
        date := clock.year + "-" + date;
      }
      if date == clock.date {
        today := Some(xs[i].value);
      } else if calendar(date).Some? && calendar(date).value >= clock.dayNumber
             && calendar(date).value <= clock.dayNumber + 5 {
        upcoming := Put(upcoming, date, xs[i].value);
      }
    }
    assert xs[..|xs|] == xs;
  }

  /** The value of the last entry whose key resolves to `date`: later entries overwrite earlier ones. */
  function LastFor(xs: seq<ExceptionEntry>, date: string, year: string): (r: Option<ExceptionValue>)
    ensures r.None? <==> forall i :: 0 <= i < |xs| ==> ResolveKey(xs[i].key, year) != date
    ensures r.Some? ==>
      exists i :: 0 <= i < |xs| && ResolveKey(xs[i].key, year) == date && xs[i].value == r.value &&
        (forall j :: i < j < |xs| ==> ResolveKey(xs[j].key, year) != date)
  {
    if xs == [] then None
    else if ResolveKey(xs[|xs| - 1].key, year) == date then Some(xs[|xs| - 1].value)
    else
      var init := xs[..|xs| - 1];
      var r := LastFor(init, date, year);
      assert forall i :: 0 <= i < |init| ==> init[i] == xs[i];
      LastForSkip(xs, date, year, r);
      r
  }

  /** An entry that does not resolve to `date`, added at the end, leaves the last match as it was. */
  lemma LastForSkip(xs: seq<ExceptionEntry>, date: string, year: string, r: Option<ExceptionValue>)
    requires xs != [] && ResolveKey(xs[|xs| - 1].key, year) != date
    requires r.None? <==> forall i :: 0 <= i < |xs| - 1 ==> ResolveKey(xs[i].key, year) != date
    requires r.Some? ==>
      exists i :: 0 <= i < |xs| - 1 && ResolveKey(xs[i].key, year) == date && xs[i].value == r.value &&
        (forall j :: i < j < |xs| - 1 ==> ResolveKey(xs[j].key, year) != date)
    ensures r.None? <==> forall i :: 0 <= i < |xs| ==> ResolveKey(xs[i].key, year) != date
    ensures r.Some? ==>
      exists i :: 0 <= i < |xs| && ResolveKey(xs[i].key, year) == date && xs[i].value == r.value &&
        (forall j :: i < j < |xs| ==> ResolveKey(xs[j].key, year) != date)
  {
    if r.Some? {
      var i :| 0 <= i < |xs| - 1 && ResolveKey(xs[i].key, year) == date && xs[i].value == r.value &&
        (forall j :: i < j < |xs| - 1 ==> ResolveKey(xs[j].key, year) != date);
      assert forall j :: i < j < |xs| ==> ResolveKey(xs[j].key, year) != date;
    }
  }

  /** Today's exception is the last entry that resolves to today's date, and none if none does. */
  lemma {:induction false} TodayIsLastMatch(xs: seq<ExceptionEntry>, clock: Clock, calendar: string -> Option<int>)
    ensures Resolve(xs, clock, calendar).today == LastFor(xs, clock.date, clock.year)
  {
    if xs != [] {
      TodayIsLastMatch(xs[..|xs| - 1], clock, calendar);
    }
  }

  /**
   * The upcoming exceptions hold exactly the dates other than today that lie in the five-day
   * window, each with the value of the last entry resolving to it.
   */
  lemma {:induction false} UpcomingIsWindow(xs: seq<ExceptionEntry>, clock: Clock, calendar: string -> Option<int>, date: string)
    ensures Lookup(Resolve(xs, clock, calendar).upcoming, date) ==
      if date != clock.date && InWindow(date, clock, calendar) then LastFor(xs, date, clock.year) else None
  {
    if xs != [] {
      var init := xs[..|xs| - 1];
      UpcomingIsWindow(init, clock, calendar, date);
      var key := ResolveKey(xs[|xs| - 1].key, clock.year);
      if key != clock.date && InWindow(key, clock, calendar) {
        LookupPut(Resolve(init, clock, calendar).upcoming, key, xs[|xs| - 1].value, date);
      }
    }
  }

  /** Every date appears at most once among the upcoming exceptions, and today never does. */
  lemma {:induction false} UpcomingKeys(xs: seq<ExceptionEntry>, clock: Clock, calendar: string -> Option<int>)
    ensures KeysDistinct(Resolve(xs, clock, calendar).upcoming)
    ensures forall k :: k in KeyList(Resolve(xs, clock, calendar).upcoming) ==>
      k != clock.date && InWindow(k, clock, calendar)
  {
    if xs != [] {
      var init := xs[..|xs| - 1];
      UpcomingKeys(init, clock, calendar);
      var key := ResolveKey(xs[|xs| - 1].key, clock.year);
      if key != clock.date && InWindow(key, clock, calendar) {
        PutKeys(Resolve(init, clock, calendar).upcoming, key, xs[|xs| - 1].value);
      }
    }
  }

  /**
   * Of several keys that resolve to the same date, the last one in the calendar's order decides:
   * its value is today's exception when the date is today, and the upcoming value of the date
   * when the date lies in the window. An absolute key is not preferred over a recurring one.
   */
  lemma LaterKeyWins(xs: seq<ExceptionEntry>, clock: Clock, calendar: string -> Option<int>, j: int)
    requires 0 <= j < |xs|
    requires forall k :: j < k < |xs| ==> ResolveKey(xs[k].key, clock.year) != ResolveKey(xs[j].key, clock.year)
    ensures ResolveKey(xs[j].key, clock.year) == clock.date ==> Resolve(xs, clock, calendar).today == Some(xs[j].value)
    ensures ResolveKey(xs[j].key, clock.year) != clock.date && InWindow(ResolveKey(xs[j].key, clock.year), clock, calendar) ==>
      Lookup(Resolve(xs, clock, calendar).upcoming, ResolveKey(xs[j].key, clock.year)) == Some(xs[j].value)
  {
    var date := ResolveKey(xs[j].key, clock.year);
    var r := LastFor(xs, date, clock.year);
    assert r.Some?;
    var i :| 0 <= i < |xs| && ResolveKey(xs[i].key, clock.year) == date && xs[i].value == r.value &&
      (forall k :: i < k < |xs| ==> ResolveKey(xs[k].key, clock.year) != date);
    assert i == j;
    TodayIsLastMatch(xs, clock, calendar);
    UpcomingIsWindow(xs, clock, calendar, date);
  }

  /** On 2024-12-25, a recurring "12-25" listed after "2024-12-25" overrides it. */
  lemma RecurringAfterAbsoluteWins(absolute: ExceptionValue, recurring: ExceptionValue, calendar: string -> Option<int>)
    ensures Resolve([ExceptionEntry("2024-12-25", absolute), ExceptionEntry("12-25", recurring)],
                    Clock(3, 600, "2024-12-25", "2024", 0), calendar).today == Some(recurring)
  {
    var xs := [ExceptionEntry("2024-12-25", absolute), ExceptionEntry("12-25", recurring)];
    assert ResolveKey(xs[1].key, "2024") == "2024-12-25";
    LaterKeyWins(xs, Clock(3, 600, "2024-12-25", "2024", 0), calendar, 1);
  }
}
