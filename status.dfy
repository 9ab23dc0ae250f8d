/**
 * Status evaluation: the active ranges of today are scanned in order and the first range that
 * contains the current time (open, "until closing") or has not opened yet (closed, "from
 * opening") decides the status.
 */
module StatusScan {
  import opened HoursTypes
  import opened TimeOfDay

  /** `$status`, `$label` and the `$opening`/`$closing` pair left by the scan (None: no ranges at all). */
  datatype ScanOutcome = ScanOutcome(status: Status, labelText: string, range: Option<Range>)

  /** The scan stops at a range that contains `now` or that has not opened yet. */
  predicate Stops(r: Range, now: Minute)
  {
    InRange(r, now) || now < r.opening
  }

  function Scan(rs: seq<Range>, now: Minute): ScanOutcome
  {
    if rs == [] then ScanOutcome(Closed, "", None)
    else if InRange(rs[0], now) then ScanOutcome(Open, "until " + Render(rs[0].closing), Some(rs[0]))
    else if now < rs[0].opening then ScanOutcome(Closed, "from " + Render(rs[0].opening), Some(rs[0]))
    else if |rs| == 1 then ScanOutcome(Closed, "", Some(rs[0]))
    else Scan(rs[1..], now)
  }

  /** What the scan reports when it stops at range `r`. */
  function StopOutcome(r: Range, now: Minute): ScanOutcome
  {
    if InRange(r, now) then ScanOutcome(Open, "until " + Render(r.closing), Some(r))
    else ScanOutcome(Closed, "from " + Render(r.opening), Some(r))
  }

  /** First match wins: the first range at which the scan can stop decides the outcome. */
  lemma {:induction false} ScanStopsAtFirst(rs: seq<Range>, now: Minute, k: int)
    requires 0 <= k < |rs| && Stops(rs[k], now)
    requires forall j :: 0 <= j < k ==> !Stops(rs[j], now)
    ensures Scan(rs, now) == StopOutcome(rs[k], now)
  {
    if k > 0 {
      ScanStopsAtFirst(rs[1..], now, k - 1);
    }
  }

  /** When no range stops the scan: closed, no label, and the last range's times reported. */
  lemma {:induction false} ScanWithoutStop(rs: seq<Range>, now: Minute)
    requires forall j :: 0 <= j < |rs| ==> !Stops(rs[j], now)
    ensures Scan(rs, now) == ScanOutcome(Closed, "", if rs == [] then None else Some(rs[|rs| - 1]))
  {
    if |rs| > 1 {
      ScanWithoutStop(rs[1..], now);
    }
  }

  /** The `foreach` with `break` of lines 114-127 and 148-161. */
  method ScanRanges(rs: seq<Range>, now: Minute) returns (out: ScanOutcome)
    ensures out == Scan(rs, now)
  {
    var status, text, range := Closed, "", None;
    var i := 0;
    while i < |rs|
      invariant 0 <= i <= |rs|
      invariant forall j :: 0 <= j < i ==> !Stops(rs[j], now)
      invariant range == if i == 0 then None else Some(rs[i - 1])
      invariant status == Closed && text == ""
    {
      var r := rs[i];
      range := Some(r);
      if InRange(r, now) {
        status, text := Open, "until " + Render(r.closing);
        ScanStopsAtFirst(rs, now, i);
        break;
      } else if now < r.opening {
        status, text := Closed, "from " + Render(r.opening);
        ScanStopsAtFirst(rs, now, i);
        break;
      }
      i := i + 1;
    }
    if i == |rs| {
      ScanWithoutStop(rs, now);
    }
    out := ScanOutcome(status, text, range);
  }

  /** An open status always comes from a range of the day that contains the current time. */
  lemma {:induction false} OpenMeansInside(rs: seq<Range>, now: Minute)
    requires Scan(rs, now).status == Open
    ensures Scan(rs, now).range.Some? && Scan(rs, now).range.value in rs
    ensures InRange(Scan(rs, now).range.value, now)
    ensures Scan(rs, now).labelText == "until " + Render(Scan(rs, now).range.value.closing)
  {
    if !InRange(rs[0], now) && now >= rs[0].opening && |rs| > 1 {
      OpenMeansInside(rs[1..], now);
    }
  }

  /** Ranges in day order that do not wrap and do not overlap; one may close when the next opens. */
  predicate WellOrdered(rs: seq<Range>)
  {
    (forall i :: 0 <= i < |rs| ==> rs[i].opening < rs[i].closing) &&
    (forall i, j :: 0 <= i < j < |rs| ==> rs[i].closing <= rs[j].opening)
  }

  /** For a day whose ranges are in order, the status is open exactly when some range contains the time. */
  lemma OpenIffInSomeRange(rs: seq<Range>, now: Minute)
    requires WellOrdered(rs)
    ensures Scan(rs, now).status == Open <==> exists k :: 0 <= k < |rs| && InRange(rs[k], now)
  {
    if exists k :: 0 <= k < |rs| && InRange(rs[k], now) {
      var k :| 0 <= k < |rs| && InRange(rs[k], now);
      // Ranges may touch, so take the first range that contains the time.
      var m := 0;
      while !InRange(rs[m], now)
        invariant 0 <= m <= k
        invariant forall j :: 0 <= j < m ==> !InRange(rs[j], now)
        decreases k - m
      {
        m := m + 1;
      }
      forall j | 0 <= j < m ensures !Stops(rs[j], now) {
        assert rs[j].closing <= rs[m].opening;
      }
      ScanStopsAtFirst(rs, now, m);
    } else if Scan(rs, now).status == Open {
      OpenMeansInside(rs, now);
    }
  }

  /** A day split by a lunch break reports, in the break, the start of the next range. */
  lemma LunchBreakExample()
    ensures Scan([Range(600, 780), Range(840, 1200)], 810)
         == ScanOutcome(Closed, "from 14:00", Some(Range(840, 1200)))
  {
    assert Render(840) == "14:00";
  }
}
