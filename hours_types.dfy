/** Value types shared by every stage of the business-hours evaluator. */
module HoursTypes {

  datatype Option<T> = None | Some(value: T)

  /** A weekday as the source numbers it: Sunday = 0 through Saturday = 6. */
  type Weekday = d: int | 0 <= d < 7

  /** A wall-clock time in minutes since midnight; it stands for a zero-padded "HH:MM" string. */
  type Minute = t: int | 0 <= t < 1440

  const MinutesPerDay: int := 1440

  /** One opening-closing interval of a day; closing <= opening means it runs past midnight. */
  datatype Range = Range(opening: Minute, closing: Minute)

  /** One entry of the weekly schedule: `['day' => d, 'ranges' => [...]]`. */
  datatype DaySchedule = DaySchedule(day: Weekday, ranges: seq<Range>)

  /** The value of an exception date: special ranges (possibly none) and an optional message. */
  datatype ExceptionValue = ExceptionValue(ranges: seq<Range>, message: Option<string>)

  /** One key/value pair of the exception calendar; the key is "MM-DD" or "YYYY-MM-DD". */
  datatype ExceptionEntry = ExceptionEntry(key: string, value: ExceptionValue)

  /**
   * The clock readings the evaluator takes once at its start: `date('w')`, `date('H:i')`,
   * `date('Y-m-d')`, `date('Y')`, and the day ordinal that `strtotime` gives the current date.
   */
  datatype Clock = Clock(weekday: Weekday, time: Minute, date: string, year: string, dayNumber: int)

  datatype Status = Open | Closed

  /** A run of consecutive weekdays `[first, last]`, as `[$start, $prev]` in the source. */
  datatype Run = Run(first: Weekday, last: Weekday)

  /** No element of `xs` occurs twice. */
  predicate Distinct<T(==)>(xs: seq<T>)
  {
    forall i, j :: 0 <= i < j < |xs| ==> xs[i] != xs[j]
  }

  lemma DistinctCons<T>(x: T, xs: seq<T>)
    ensures Distinct([x] + xs) <==> x !in xs && Distinct(xs)
  {
    var s := [x] + xs;
    if x !in xs && Distinct(xs) {
      forall i, j | 0 <= i < j < |s| ensures s[i] != s[j] {
        if i > 0 {
          assert s[i] == xs[i - 1] && s[j] == xs[j - 1];
        } else {
          assert s[j] == xs[j - 1];
        }
      }
    }
    if Distinct(s) {
      forall i, j | 0 <= i < j < |xs| ensures xs[i] != xs[j] {
        assert xs[i] == s[i + 1] && xs[j] == s[j + 1];
      }
      forall i | 0 <= i < |xs| ensures xs[i] != x {
        assert xs[i] == s[i + 1] && x == s[0];
      }
    }
  }
}
