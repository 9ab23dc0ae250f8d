/**
 * The human-readable labels of the compacted schedule: day names, "First-Last" runs,
 * "opening-closing" ranges, all joined with ", " as PHP's `implode` does, and parsers that read
 * each label back, which shows that a label loses nothing.
 */
module Labels {
  import opened HoursTypes
  import opened TimeOfDay

  /** `$days_of_week`. */
  const DayNames: seq<string> := ["Sun", "Mon", "Tue", "Wed", "Thu", "Fri", "Sat"]

  function DayName(d: Weekday): (s: string)
    ensures |s| == 3
  {
    DayNames[d]
  }

  /** The weekday whose name is `s`, if any. */
  function DayOf(s: string): Option<Weekday>
  {
    if s == "Sun" then Some(0) else if s == "Mon" then Some(1) else if s == "Tue" then Some(2)
    else if s == "Wed" then Some(3) else if s == "Thu" then Some(4) else if s == "Fri" then Some(5)
    else if s == "Sat" then Some(6) else None
  }

  /** `implode($sep, $parts)`. */
  function Join(parts: seq<string>, sep: string): string
  {
    if |parts| == 0 then ""
    else if |parts| == 1 then parts[0]
    else parts[0] + sep + Join(parts[1..], sep)
  }

  /** Cuts a string at every ", "; the inverse of joining with ", " pieces that hold no comma. */
  function Split(s: string): (r: seq<string>)
    ensures |r| >= 1
    decreases |s|
  {
    if s == [] then [""]
    else if |s| >= 2 && s[0] == ',' && s[1] == ' ' then [""] + Split(s[2..])
    else
      var t := Split(s[1..]);
      [[s[0]] + t[0]] + t[1..]
  }

  /** No character of `s` is `c`. */
  predicate Avoids(s: string, c: char) { forall i :: 0 <= i < |s| ==> s[i] != c }

  lemma {:induction false} SplitSinglePiece(p: string)
    requires Avoids(p, ',')
    ensures Split(p) == [p]
    decreases |p|
  {
    if p != [] {
      SplitSinglePiece(p[1..]);
      assert [p[0]] + p[1..] == p;
    }
  }

  lemma {:induction false} SplitAfter(p: string, rest: string)
    requires Avoids(p, ',')
    ensures Split(p + ", " + rest) == [p] + Split(rest)
    decreases |p|
  {
    var s := p + ", " + rest;
    if p == [] {
      assert s == ", " + rest && s[2..] == rest;
    } else {
      assert s[1..] == p[1..] + ", " + rest;
      SplitAfter(p[1..], rest);
      assert [p[0]] + p[1..] == p;
    }
  }

  /** Joining comma-free pieces with ", " and splitting again gives the pieces back. */
  lemma {:induction false} SplitJoin(parts: seq<string>)
    requires |parts| >= 1
    requires forall i :: 0 <= i < |parts| ==> Avoids(parts[i], ',')
    ensures Split(Join(parts, ", ")) == parts
  {
    if |parts| == 1 {
      SplitSinglePiece(parts[0]);
    } else {
      SplitJoin(parts[1..]);
      SplitAfter(parts[0], Join(parts[1..], ", "));
      assert [parts[0]] + parts[1..] == parts;
    }
  }

  /** The label of one run of days: a single name, or "First-Last". */
  function RunLabel(r: Run): (s: string)
    ensures ParseRunLabel(s) == Some(r)
    ensures Avoids(s, ',') && Avoids(s, 'f')
    ensures |s| == 3 <==> r.first == r.last
  {
    DayOfName(r.first);
    DayOfName(r.last);
    if r.first == r.last then DayName(r.first)
    else
      var s := DayName(r.first) + "-" + DayName(r.last);
      assert s[..3] == DayName(r.first) && s[4..] == DayName(r.last);
      s
  }

  /** `$days_label`: the run labels joined with ", ". */
  function DaysLabel(runs: seq<Run>): string
  {
    Join(seq(|runs|, i requires 0 <= i < |runs| => RunLabel(runs[i])), ", ")
  }

  /** The label of one range: "opening-closing". */
  function RangeLabel(r: Range): (s: string)
    ensures ParseRangeLabel(s) == Some(r) && Avoids(s, ',')
  {
    ParseRender(r.opening);
    ParseRender(r.closing);
    var s := Render(r.opening) + "-" + Render(r.closing);
    assert s[..5] == Render(r.opening) && s[6..] == Render(r.closing);
    s
  }

  /** `$ranges_label`: the range labels joined with ", "; empty for a day without ranges. */
  function RangesLabel(rs: seq<Range>): string
  {
    Join(seq(|rs|, i requires 0 <= i < |rs| => RangeLabel(rs[i])), ", ")
  }

  /** The label of one compacted group: `$days_label . ' from ' . $ranges_label`. */
  function GroupLabel(runs: seq<Run>, rs: seq<Range>): (s: string)
    ensures ParseGroupLabel(s) == Some((runs, rs))
  {
    DaysLabelRoundTrip(runs);
    RangesLabelRoundTrip(rs);
    DaysLabelAvoidsF(runs);
    SplitFromAfter(DaysLabel(runs), RangesLabel(rs));
    DaysLabel(runs) + " from " + RangesLabel(rs)
  }

  function ParseRunLabel(s: string): Option<Run>
  {
    if |s| == 3 && DayOf(s).Some? then
      Some(Run(DayOf(s).value, DayOf(s).value))
    else if |s| == 7 && s[3] == '-' && DayOf(s[..3]).Some? && DayOf(s[4..]).Some? then
      Some(Run(DayOf(s[..3]).value, DayOf(s[4..]).value))
    else
      None
  }

  function ParseRangeLabel(s: string): Option<Range>
  {
    if |s| == 11 && s[5] == '-' && ParseTime(s[..5]).Some? && ParseTime(s[6..]).Some? then
      Some(Range(ParseTime(s[..5]).value, ParseTime(s[6..]).value))
    else
      None
  }

  function ParseRuns(pieces: seq<string>): Option<seq<Run>>
  {
    if pieces == [] then Some([])
    else match (ParseRunLabel(pieces[0]), ParseRuns(pieces[1..]))
      case (Some(r), Some(rest)) => Some([r] + rest)
      case _ => None
  }

  function ParseRanges(pieces: seq<string>): Option<seq<Range>>
  {
    if pieces == [] then Some([])
    else match (ParseRangeLabel(pieces[0]), ParseRanges(pieces[1..]))
      case (Some(r), Some(rest)) => Some([r] + rest)
      case _ => None
  }

  /** Cuts a string at its first " from ": the text before it and the text after it. */
  function SplitFrom(s: string): Option<(string, string)>
    decreases |s|
  {
    if |s| < 6 then None
    else if s[..6] == " from " then Some(("", s[6..]))
    else match SplitFrom(s[1..])
      case None => None
      case Some(p) => Some(([s[0]] + p.0, p.1))
  }

  /** Reads a group label back into its runs of days and its ranges. */
  function ParseGroupLabel(s: string): Option<(seq<Run>, seq<Range>)>
  {
    match SplitFrom(s)
    case None => None
    case Some(p) =>
      var days, ranges := ParseDaysLabel(p.0), ParseRangesLabel(p.1);
      if days.Some? && ranges.Some? then Some((days.value, ranges.value)) else None
  }

  function ParseDaysLabel(s: string): Option<seq<Run>>
  {
    if s == "" then Some([]) else ParseRuns(Split(s))
  }

  function ParseRangesLabel(s: string): Option<seq<Range>>
  {
    if s == "" then Some([]) else ParseRanges(Split(s))
  }

  lemma DayOfName(d: Weekday)
    ensures DayOf(DayName(d)) == Some(d) && Avoids(DayName(d), ',') && Avoids(DayName(d), 'f')
  {
    assert DayName(d) == DayNames[d];
  }

  lemma {:induction false} ParseRunsLabels(runs: seq<Run>)
    ensures ParseRuns(seq(|runs|, i requires 0 <= i < |runs| => RunLabel(runs[i]))) == Some(runs)
  {
    var pieces := seq(|runs|, i requires 0 <= i < |runs| => RunLabel(runs[i]));
    if runs != [] {
      ParseRunsLabels(runs[1..]);
      assert pieces[1..] == seq(|runs[1..]|, i requires 0 <= i < |runs[1..]| => RunLabel(runs[1..][i]));
      assert [runs[0]] + runs[1..] == runs;
    }
  }

  lemma {:induction false} ParseRangesLabels(rs: seq<Range>)
    ensures ParseRanges(seq(|rs|, i requires 0 <= i < |rs| => RangeLabel(rs[i]))) == Some(rs)
  {
    var pieces := seq(|rs|, i requires 0 <= i < |rs| => RangeLabel(rs[i]));
    if rs != [] {
      ParseRangesLabels(rs[1..]);
      assert pieces[1..] == seq(|rs[1..]|, i requires 0 <= i < |rs[1..]| => RangeLabel(rs[1..][i]));
      assert [rs[0]] + rs[1..] == rs;
    }
  }

  /** A days label can be read back into exactly the runs it was made from. */
  lemma DaysLabelRoundTrip(runs: seq<Run>)
    ensures ParseDaysLabel(DaysLabel(runs)) == Some(runs)
  {
    var pieces := seq(|runs|, i requires 0 <= i < |runs| => RunLabel(runs[i]));
    ParseRunsLabels(runs);
    if runs != [] {
      SplitJoin(pieces);
      JoinNonEmpty(pieces, ", ");
    }
  }

  /** A ranges label can be read back into exactly the ranges it was made from. */
  lemma RangesLabelRoundTrip(rs: seq<Range>)
    ensures ParseRangesLabel(RangesLabel(rs)) == Some(rs)
  {
    var pieces := seq(|rs|, i requires 0 <= i < |rs| => RangeLabel(rs[i]));
    ParseRangesLabels(rs);
    if rs != [] {
      SplitJoin(pieces);
      JoinNonEmpty(pieces, ", ");
    }
  }

  lemma {:induction false} JoinNonEmpty(parts: seq<string>, sep: string)
    requires |parts| >= 1 && parts[0] != ""
    ensures Join(parts, sep) != ""
  {
    if |parts| > 1 {
      assert Join(parts, sep)[0] == parts[0][0];
    }
  }

  /** A text without the letter 'f' ends before the first " from ". */
  lemma {:induction false} SplitFromAfter(a: string, b: string)
    requires Avoids(a, 'f')
    ensures SplitFrom(a + " from " + b) == Some((a, b))
    decreases |a|
  {
    var s := a + " from " + b;
    if a == [] {
      assert s[..6] == " from " && s[6..] == b;
    } else {
      assert s[1] != 'f';
      assert s[1..] == a[1..] + " from " + b;
      SplitFromAfter(a[1..], b);
      assert [a[0]] + a[1..] == a;
    }
  }

  lemma {:induction false} JoinAvoids(parts: seq<string>, sep: string, c: char)
    requires Avoids(sep, c) && forall i :: 0 <= i < |parts| ==> Avoids(parts[i], c)
    ensures Avoids(Join(parts, sep), c)
  {
    if |parts| > 1 {
      JoinAvoids(parts[1..], sep, c);
    }
  }

  /** No day name holds the letter 'f', so neither does a days label. */
  lemma DaysLabelAvoidsF(runs: seq<Run>)
    ensures Avoids(DaysLabel(runs), 'f')
  {
    var pieces := seq(|runs|, i requires 0 <= i < |runs| => RunLabel(runs[i]));
    assert forall i :: 0 <= i < |pieces| ==> Avoids(pieces[i], 'f');
    JoinAvoids(pieces, ", ", 'f');
  }
}
