# Business-hours evaluator

This is a model of `process_working_hours`, the PHP function in `working_hour_func.php` that takes
a business's weekly schedule, an exception calendar and the current clock, and returns three
things: today's status (open or closed, a label, and the next opening when closed), the weekly
schedule compacted into labelled groups of days, and the exceptions coming up in the next five
days. The model follows the function's four stages, one module each, and one more module puts
them together:

- `HoursTypes` (`hours_types.dfy`): the values involved. A time of day is a `Minute` (0..1439)
  and stands for the zero-padded "HH:MM" string the source stores. A weekday is 0 (Sunday) to 6.
  A schedule entry is a `DaySchedule`. An exception calendar is a sequence of key/value entries,
  kept in the order of the PHP array. The clock readings are a `Clock`.
- `TimeOfDay` (`time_of_day.dfy`): rendering and parsing "HH:MM"; PHP's string `<`; and
  `is_time_in_range`, both on strings and on minutes. A proof that the two orders agree justifies
  comparing minutes where the source compares strings.
- `Labels` (`labels.dfy`): the day names, the "Mon-Fri" and "10:00-20:00" labels, and `implode`
  with ", ". Each comes with a parser, and round-trip proofs show that a label loses nothing.
- `Compaction` (`compaction.dfy`, source lines 31-83): groups the weekdays by their exact list of
  ranges, in order of first occurrence. Each group's days are sorted and cut into maximal runs
  of consecutive days, and the group is then labelled.
- `ExceptionCalendar` (`exceptions.dfy`, source lines 86-99): gives a recurring "MM-DD" key the current
  year. The key equal to today becomes today's override. Other keys within today .. today + 5
  days become upcoming exceptions.
- `StatusScan` (`status.dfy`, source lines 110-170): scans today's active ranges. The first range that
  contains the time gives open, "until closing". The first range that has not opened yet gives
  closed, "from opening".
- `NextOpeningSearch` (`next_opening.dfy`, source lines 172-207): when closed, looks first at the rest
  of today, then at up to seven following weekdays.
- `WorkingHours` (`working_hours.dfy`): the whole function.

The source's loops are methods (`GroupByRanges`, `DetectRuns`, `CompactSchedule`,
`ResolveExceptions`, `ScanRanges`, `FindEntry`, `FindOpeningLaterToday`, `SearchWeek`,
`ProcessWorkingHours`). Each is proved equal to a specification function, and the lemmas state
what those functions promise.

In these cases the model follows the code as written:

- With no exception for today and no schedule entry for today's weekday, the source leaves
  `$result['today']` empty and never searches for a next opening. The model returns `None` for
  today; it does not report "closed".
- When several exception keys resolve to the same date (say "12-25" and "2024-12-25"), the later
  one in the calendar's order wins, both for today and among the upcoming exceptions. Absolute
  dates are not given precedence. An upcoming date keeps the position of its first key
  (`$upcoming_exceptions[$date] = ...` on an ordered PHP array).
- The forward search stops at the first weekday that has a schedule entry, even when that entry
  has no ranges. There is then no next opening (`$hours['ranges'][0]['opening']` is null).
- Two schedule entries for the same weekday are both grouped by compaction. The status and the
  search use only the first one.

## Model

| member | source | states |
|---|---|---|
| `TimeOfDay.RenderPreservesOrder` | working_hour_func.php:122 | PHP's string `<` on two zero-padded "HH:MM" renderings holds exactly when the first time is earlier. |
| `TimeOfDay.ParseRender` | working_hour_func.php:14 | Parsing the "HH:MM" rendering of a time gives back that time. |
| `TimeOfDay.RenderParse` | working_hour_func.php:14 | Every well-formed "HH:MM" string is the rendering of the time it parses to, so times and their strings correspond one to one. |
| `TimeOfDay.ParsedOrder` | working_hour_func.php:122 | PHP's string `<` on any two well-formed "HH:MM" strings holds exactly when the first time is earlier. |
| `TimeOfDay.InRange` | working_hour_func.php:102-108 | `is_time_in_range` on minutes: a time is in a range, wrapping or not, exactly when the minutes elapsed since the opening, counted forward around the clock, are at most the range's duration. A range with closing equal to opening covers the whole day. |
| `TimeOfDay.TextInRange` | working_hour_func.php:102-108 | `is_time_in_range` as written, on strings: on any three well-formed "HH:MM" strings it answers exactly as `InRange` on the times they stand for. |
| `TimeOfDay.EndsIncluded` | working_hour_func.php:104-106 | The opening and the closing time both lie inside their range. |
| `Labels.SplitJoin` | working_hour_func.php:61 | Joining comma-free pieces with ", " and cutting at ", " gives the pieces back. |
| `Labels.DayOfName` | working_hour_func.php:28 | Each weekday's name reads back as that weekday. |
| `Labels.RunLabel` | working_hour_func.php:62-66 | The label of a run ("Mon" or "Mon-Fri") reads back as exactly that run, and holds no comma and no letter 'f'. A one-day run is labelled by the day's three-letter name alone. |
| `Labels.RangeLabel` | working_hour_func.php:74 | The label "opening-closing" reads back as exactly that range, and holds no comma. |
| `Labels.DaysLabelRoundTrip` | working_hour_func.php:61-67 | A days label reads back as exactly the runs it was made from. |
| `Labels.RangesLabelRoundTrip` | working_hour_func.php:73-75 | A ranges label reads back as exactly the ranges it was made from. |
| `Labels.GroupLabel` | working_hour_func.php:81 | The label "days from ranges" reads back, cut at its first " from ", as exactly the runs and the ranges it was made from. |
| `Labels.SplitFromAfter` | working_hour_func.php:81 | A text without the letter 'f' followed by " from " and anything is cut exactly after that text. |
| `Compaction.GroupByRanges` | working_hour_func.php:31-37 | The grouping loop yields one group per distinct range list. Each group holds that list's days in schedule order, and groups come in order of first occurrence. |
| `Compaction.KeyOrderCovers` | working_hour_func.php:32-35 | A range list has a group exactly when some schedule entry has that list. |
| `Compaction.KeyOrderDistinct` | working_hour_func.php:33-34 | No two groups have the same range list. |
| `Compaction.KeyOrderFirstOccurrence` | working_hour_func.php:31-37 | Groups are ordered by the index of the first entry with their range list. |
| `Compaction.GroupedPlacesEveryEntry` | working_hour_func.php:36 | There is a group with the entry's range list, and the entry's day is in it. |
| `Compaction.GroupedKeepsEveryDay` | working_hour_func.php:31-37 | Across all groups, every day of the schedule appears exactly as often as in the schedule (multiset equality). |
| `Compaction.GroupDaysNonEmpty` | working_hour_func.php:46-47 | Every group has at least one day, so `$days[0]` exists. |
| `Compaction.Sort` | working_hour_func.php:42 | `sort($days)` gives an ascending permutation of the days. |
| `Compaction.DetectRuns` | working_hour_func.php:45-58 | The `$start`/`$prev` loop yields the runs of the specification function `Runs`. |
| `Compaction.RunsExpand` | working_hour_func.php:45-58 | Spelling out the runs day by day gives back exactly the input days. |
| `Compaction.RunsOrdered` | working_hour_func.php:49-57 | Every run's first day is not after its last day. |
| `Compaction.RunsMaximal` | working_hour_func.php:50 | No run ends the day before the next run starts, and the last run ends on the last day. |
| `Compaction.SummarizeGroup` | working_hour_func.php:41-82 | The body of the loop over groups yields the group's summary: days label, ranges and "days from ranges" label. |
| `Compaction.CompactSchedule` | working_hour_func.php:39-83 | The compaction loop yields one summary per group, in group order. |
| `Compaction.SummaryReadsBack` | working_hour_func.php:60-81 | A summary's days label reads back as the maximal runs of the group's sorted days, which spell out those days. Its ranges label reads back as the group's ranges, and its whole label reads back as those runs and ranges. |
| `ExceptionCalendar.ResolveKey` | working_hour_func.php:90-92 | A key of length other than five is kept. A five-character key becomes the year, a dash and then the key itself, in that order. With a four-digit year a resolved key is never five characters, so it is never taken for a recurring date again. |
| `ExceptionCalendar.LookupPut` | working_hour_func.php:96 | After an ordered-array assignment, the key reads the new value and every other key reads its old value. |
| `ExceptionCalendar.PutKeys` | working_hour_func.php:96 | An ordered-array assignment keeps the array's key list free of repeats. The new key list holds the old keys plus the written key, and nothing else. |
| `ExceptionCalendar.ResolveExceptions` | working_hour_func.php:86-99 | The loop over the exceptions yields today's exception and the upcoming exceptions of the left fold `Resolve`. |
| `ExceptionCalendar.LastFor` | working_hour_func.php:93-94 | The value chosen for a date is none exactly when no key resolves to the date. Otherwise it is the value of the last entry whose key resolves to it. |
| `ExceptionCalendar.TodayIsLastMatch` | working_hour_func.php:93-94 | Today's exception is the value of the last entry whose key resolves to today's date, and none when no key does. |
| `ExceptionCalendar.UpcomingIsWindow` | working_hour_func.php:95-96 | A date is among the upcoming exceptions exactly when it is not today and lies within today .. today + 5 days. Its value is that of the last entry resolving to it. |
| `ExceptionCalendar.LaterKeyWins` | working_hour_func.php:88-97 | Of several keys resolving to the same date, the last one decides: its value is today's exception when the date is today, and the date's upcoming value when the date is in the window. |
| `ExceptionCalendar.RecurringAfterAbsoluteWins` | working_hour_func.php:90-94 | On 2024-12-25, a recurring "12-25" listed after "2024-12-25" overrides it as today's exception. |
| `ExceptionCalendar.UpcomingKeys` | working_hour_func.php:93-97 | No date appears twice in the upcoming array's key list. Every key in that list lies in the window and is not today. |
| `StatusScan.ScanRanges` | working_hour_func.php:114-127 | The `foreach` with `break` yields the outcome of the specification function `Scan`. |
| `StatusScan.ScanStopsAtFirst` | working_hour_func.php:118-126 | The first range that contains the time or has not opened yet decides status, label and reported range. |
| `StatusScan.ScanWithoutStop` | working_hour_func.php:112-113 | When no range stops the scan, the status is closed with an empty label, and the last range (if any) is reported. |
| `StatusScan.OpenMeansInside` | working_hour_func.php:118-121 | An open status comes from a range of the day that contains the time, labelled "until" its closing. |
| `StatusScan.OpenIffInSomeRange` | working_hour_func.php:114-127 | For ordered, non-wrapping, non-overlapping ranges (one range may close when the next opens), the status is open exactly when some range contains the time. |
| `StatusScan.LunchBreakExample` | working_hour_func.php:148-161 | With 10:00-13:00 and 14:00-20:00 at 13:30, the status is closed, "from 14:00". |
| `NextOpeningSearch.EntryFor` | working_hour_func.php:137-142 | A weekday's entry is absent exactly when no entry has that day. Otherwise it is an entry of the schedule with that day. |
| `NextOpeningSearch.EntryForAt` | working_hour_func.php:137-142 | The entry found is the first one with that day. |
| `NextOpeningSearch.FindEntry` | working_hour_func.php:136-142 | The lookup loop with `break` finds `EntryFor`. |
| `NextOpeningSearch.OpeningLaterToday` | working_hour_func.php:178-184 | Phase 1 finds nothing exactly when no range opens after the time. Otherwise it finds a later opening, the first in order that does. |
| `NextOpeningSearch.FindOpeningLaterToday` | working_hour_func.php:178-184 | The phase-1 loop finds `OpeningLaterToday`. |
| `NextOpeningSearch.SearchWeek` | working_hour_func.php:187-198 | The nested loops with `break 2` find `ScanWeek`. |
| `NextOpeningSearch.WeekReachesEveryDay` | working_hour_func.php:188-189 | Steps 1 .. 7 after any weekday reach every weekday, each exactly once. |
| `NextOpeningSearch.ScanWeekFromFinds` | working_hour_func.php:188-197 | A found opening is on the first following weekday that has an entry, at that entry's first opening. |
| `NextOpeningSearch.ScanWeekFromNone` | working_hour_func.php:188-201 | Phase 2 finds nothing exactly when no following weekday has an entry, or the first one that does has no ranges. |
| `NextOpeningSearch.ScanWeekHorizon` | working_hour_func.php:188-197 | One week is enough: a non-empty schedule whose entries all have ranges always yields an opening, and an empty schedule never does. |
| `NextOpeningSearch.FindNextOpening` | working_hour_func.php:173-206 | Phase 1 over today's active ranges, then phase 2, yields `NextOpeningFor`. |
| `NextOpeningSearch.ClosedFromIsLaterToday` | working_hour_func.php:178-183 | When the scan stops at a range that has not opened yet, phase 1 finds exactly that range's opening. |
| `NextOpeningSearch.NextOpeningAgreesWithStatus` | working_hour_func.php:173-206 | A status "closed, from X" has its next opening today at X. |
| `NextOpeningSearch.NextOpeningAsWritten` | working_hour_func.php:173-206 | The search as written: with `$today_hours` set it agrees with the corrected search over those ranges. Without it (an exception applies today) it goes straight to the following weekdays. |
| `NextOpeningSearch.AsWrittenSkipsTodaysException` | working_hour_func.php:178 | As written, a Monday exception 09:00-12:00 at 08:00 yields "from 09:00" but a next opening on Tuesday 10:00. The corrected search yields Monday 09:00. |
| `WorkingHours.ProcessWorkingHours` | working_hour_func.php:10-210 | The whole function yields the report of `Evaluate`: today's status, the compacted schedule and the upcoming exceptions. |
| `WorkingHours.ExceptionOverridesSchedule` | working_hour_func.php:111-133 | With an exception for today, today's status is computed on the exception's ranges alone, even when there are none. |
| `WorkingHours.RegularDay` | working_hour_func.php:134-170 | Without an exception for today, today's first weekly entry decides the status. Without such an entry there is no status. |
| `WorkingHours.TodayStatusConsistent` | working_hour_func.php:173-206 | An open status carries no next opening and reports a range that contains the time. A status "closed, from X" carries the next opening today at X. |

## Left out

- The clock: the readings of `date('w')`, `date('H:i')`, `date('Y-m-d')` and `date('Y')` are fields of the `Clock` parameter, taken once.
- `strtotime`: a caller-supplied `calendar` function maps a date string to a day ordinal (or `None` when unreadable). `Clock.dayNumber` is today's ordinal. `strtotime($current_date . ' + 5 days')` is read as `dayNumber + 5`. PHP's own date parsing is not modelled.
- `json_encode`/`json_decode` of the range lists (lines 32 and 70): two lists share a group exactly when they are equal, which is what equal JSON texts mean here. The JSON text itself is not modelled.
- Times are valid "HH:MM" values (`Minute`) throughout. Malformed time strings in the input, and the string comparisons PHP would make on them, are not modelled.
- Weekdays are 0..6 (`Weekday`). An out-of-range `day` in the input, which would make `$days_of_week[...]` undefined, is not modelled.
- An exception value's message is kept apart from its ranges. The PHP `foreach` over a message-only array today (line 114 iterating over the string 'message' entry) is not modelled. Such a value counts as closed all day with no range.
- The defining of `is_time_in_range` inside the function body: PHP fails when `process_working_hours` is called twice. The model treats the function as defined once.
- Undefined variables and warnings: `$opening`/`$closing` after a scan over an empty list, and `$today_hours` when an exception applies, are `Option` values. PHP notices are not modelled.
- `NextOpeningSearch.NextOpening`: keeps the weekday number where line 203 reports the day's name `$days_of_week[$next_opening_day]`. `Labels.DayName` gives that name, and `Labels.DayOfName` shows that no information is lost.
- The demo data and `print_r` after the function (lines 213-234).
- `NextOpeningSearch.NextOpeningAsWritten` is kept only to exhibit the defect below. `WorkingHours.Evaluate` uses the corrected `NextOpeningSearch.NextOpeningFor`.

## Findings

| source | as written | input that shows it | evidently intended | confidence | as-written member | corrected member |
|---|---|---|---|---|---|---|
| working_hour_func.php:178 | Phase 1 of the next-opening search reads `$today_hours['ranges']`. That variable is only set when no exception applies today, so with an exception phase 1 runs over nothing. | Monday 08:00, exception for today 09:00-12:00, Monday and Tuesday 10:00-20:00 in the weekly schedule: status "closed, from 09:00", next opening Tuesday 10:00. | Phase 1 runs over today's active ranges (the exception's when there is one), so "closed, from X" is followed by a next opening today at X. | not executed | `NextOpeningSearch.NextOpeningAsWritten`, `NextOpeningSearch.AsWrittenSkipsTodaysException` | `NextOpeningSearch.NextOpeningFor`, `NextOpeningSearch.NextOpeningAgreesWithStatus` |
