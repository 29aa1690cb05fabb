# Shuttle status resolver of the CNU chatbot, in Dafny

The CNU chatbot answers "where are the campus shuttles now?". For one route
and the current instant, the controller looks at the route's timetable.
`find_adjacent_times` decides which departed buses are still on the road
("running", at most two) and which departures come next ("waiting", at most
two). It returns an `AdjTimes` record. `get_str_info` then renders that
record as the text shown in the chat.

The model covers those two functions and the helpers they use:

- `get_str_time` as `Clock.FormatClock`;
- `get_time_diff` as `Clock.MinutesBetween`;
- `is_running` as `Clock.IsRunning`;
- `get_datetime` as the identity on seconds since midnight.

Modules:

- `Results`: the outcome of a call, either a value or the Python failure the
  code runs into. That is `KeyError` on the position-keyed timetable dict,
  `IndexError` on a record's `times_` list, or `None` from falling off the
  end of the function.
- `Text`: decimal rendering of counts and minutes (`str`), and reading it
  back.
- `Clock`: times of day as whole seconds, the running window (20 minutes,
  open at both ends), minute distances and `HH:MM`.
- `Adjacency`: the `AdjTimes` record and the resolver.
  - `Adjacent` is the resolver as written, errors included.
  - `FindAdjacentTimes` runs the same six cases with the case-6 `for` loop.
  - `Resolve` is the resolver with the three defects below corrected.
- `AdjacencyFacts`: properties of the resolver.
  - What each case of the day returns.
  - Exactly which inputs crash it.
  - The shape of every record it returns.
  - A reference specification of the intended window (`IsWindow`), which
    the corrected resolver is proved to meet.
  - The exact set of inputs on which the as-written and corrected resolvers
    differ.
- `Status`: the formatter. `StatusText` and `InfoText` are its
  specification, and `GetStrInfo`, `GetInfo` and `AppendEntries` are the
  string-building code proved against it.
- `StatusFacts`: properties of the text.
  - It has one line per listed bus.
  - Each line reads back to its time and distance.
  - The service-ended text reads back to the first and last departure.
  - Vacation overrides everything.
  - Every record either resolver returns renders without an IndexError.
- `DayRegions`: the six cases as regions of the day, and the proof that,
  between 00:00:00 and 23:59:59, the case taken only moves forward through
  the day.
- `DayExamples`: worked examples on a route leaving every 30 minutes from
  08:00 to 22:00.

Two details of the code that the model keeps exactly:

- `is_running` is strict at both ends (line 71). A bus counts as running
  only strictly after it leaves and strictly before 20 minutes have passed.
- The case-1 and case-2 thresholds are a fixed 30 minutes (lines 110, 111
  and 115), independent of `AVG_TIME` (line 8).

## Model

| member | source | states |
|---|---|---|
| Clock.IsRunning | cnuchatbot-fastapi/controller/shuttle/shuttleController.py:65-71 | no contract of its own: `is_running`'s window, strict at both ends; stated by `Clock.RunningWindowIsOpen` and `Clock.RunningIsMonotone` |
| Text.Decimal | cnuchatbot-fastapi/controller/shuttle/shuttleController.py:176 | `str` of a count or distance is a non-empty string of digits, with no leading zero and one character exactly below 10 |
| Text.DecimalRoundTrip | cnuchatbot-fastapi/controller/shuttle/shuttleController.py:176 | reading the decimal text back gives the number again |
| Text.DecimalInjective | cnuchatbot-fastapi/controller/shuttle/shuttleController.py:174 | different counts render as different texts |
| Clock.RunningWindowIsOpen | cnuchatbot-fastapi/controller/shuttle/shuttleController.py:65-71 | a bus runs exactly when 0 < elapsed < 20 minutes; it does not run at its departure instant nor at exactly 20 minutes |
| Clock.RunningIsMonotone | cnuchatbot-fastapi/controller/shuttle/shuttleController.py:65-71 | if an earlier departure still runs, every later departure that has left runs too |
| Clock.MinutesBetween | cnuchatbot-fastapi/controller/shuttle/shuttleController.py:56-62 | the distance is the whole number of minutes m with 60m <= abs(x-y) < 60(m+1), below one day |
| Clock.MinutesBetweenSymmetric | cnuchatbot-fastapi/controller/shuttle/shuttleController.py:56-62 | the distance does not depend on argument order; a bus k seconds ahead reads the same as one k seconds behind |
| Clock.FormatClock | cnuchatbot-fastapi/controller/shuttle/shuttleController.py:47-53 | `%H:%M` is five characters, with two-digit hour and minute fields that read back as the time's hour and minute |
| Clock.FormatClockSameMinute | cnuchatbot-fastapi/controller/shuttle/shuttleController.py:47-53 | two times render alike exactly when they fall in the same minute |
| Adjacency.FirstLater | cnuchatbot-fastapi/controller/shuttle/shuttleController.py:148-157 | the index where the case-6 scan stops: every earlier departure is at or before the query, and this one is strictly after it |
| Adjacency.NextIndex | cnuchatbot-fastapi/controller/shuttle/shuttleController.py:146-157 | the first departure at or after the query: every earlier departure is strictly before it |
| Adjacency.Get | cnuchatbot-fastapi/controller/shuttle/shuttleController.py:110-157 | no contract of its own: a `line_times[k]` read, KeyError on any key outside `0..n-1`, negative keys included; stated by `AdjacencyFacts.AsWrittenFailsExactly` and `AdjacencyFacts.MidnightCrashes` |
| Adjacency.SuspendedHours | cnuchatbot-fastapi/controller/shuttle/shuttleController.py:110-111 | no contract of its own: case 1's test with 00:00:00 included, as corrected; stated by `AdjacencyFacts.ResolveAtMidnight` and `AdjacencyFacts.AsWrittenMatchesCorrected` |
| Adjacency.SuspendedTest | cnuchatbot-fastapi/controller/shuttle/shuttleController.py:110-111 | no contract of its own: case 1's test, evaluated left to right with short-circuiting; stated by `AdjacencyFacts.SuspendedCase` and `AdjacencyFacts.MidnightCrashes` |
| Adjacency.Regions1To5 | cnuchatbot-fastapi/controller/shuttle/shuttleController.py:109-144 | no contract of its own: cases 1 to 5, `None` when the scan decides; stated by `DayRegions.RegionSelectsCase` and the per-case lemmas |
| Adjacency.Regions4To5 | cnuchatbot-fastapi/controller/shuttle/shuttleController.py:122-144 | no contract of its own: cases 4 and 5; stated by `AdjacencyFacts.AfterLastCase` and `AdjacencyFacts.BeforeLastCase` |
| Adjacency.ScanStep | cnuchatbot-fastapi/controller/shuttle/shuttleController.py:149-157 | no contract of its own: one iteration of the case-6 loop at a later departure; stated by `AdjacencyFacts.InteriorCase` |
| Adjacency.Scan | cnuchatbot-fastapi/controller/shuttle/shuttleController.py:148-157 | no contract of its own: the case-6 loop, `None` when it finds nothing; stated by `AdjacencyFacts.ScanFindsFirstLater` |
| Adjacency.Adjacent | cnuchatbot-fastapi/controller/shuttle/shuttleController.py:92-157 | no contract of its own: the resolver as written, failures included; stated by the `AdjacencyFacts` lemmas, `AsWrittenFailsExactly` and `AsWrittenRecordShape` above all |
| Adjacency.FindAdjacentTimes | cnuchatbot-fastapi/controller/shuttle/shuttleController.py:92-157 | the loop version returns exactly the resolver's outcome, failures included |
| Adjacency.Resolve | cnuchatbot-fastapi/controller/shuttle/shuttleController.py:92-157 | the corrected resolver never reports more than two running or two waiting buses |
| AdjacencyFacts.ScanFindsFirstLater | cnuchatbot-fastapi/controller/shuttle/shuttleController.py:147-157 | the case-6 loop returns at the first departure strictly later than the query, and returns None when there is none |
| AdjacencyFacts.FirstLaterSkipsDeparture | cnuchatbot-fastapi/controller/shuttle/shuttleController.py:150 | on an ascending timetable the scan skips a bus leaving exactly at the query: it stops one index later than the next departure exactly when the query is a departure |
| AdjacencyFacts.SuspendedCase | cnuchatbot-fastapi/controller/shuttle/shuttleController.py:109-112 | on a holiday, strictly between midnight and 30 min before the first bus, or strictly between 30 min after the last bus and 23:59:59, the record is service-ended with the first and last departure |
| AdjacencyFacts.PreServiceCase | cnuchatbot-fastapi/controller/shuttle/shuttleController.py:114-116 | from 30 min before the first bus up to it, both bounds included, the first two buses wait; a one-departure route fails on key 1 |
| AdjacencyFacts.PreServiceStartsAtThirtyMinutes | cnuchatbot-fastapi/controller/shuttle/shuttleController.py:110-116 | exactly 30 min before the first bus is already the pre-service case, not the suspended one |
| AdjacencyFacts.FirstToSecondCase | cnuchatbot-fastapi/controller/shuttle/shuttleController.py:118-120 | after the first bus, up to the second, the first counts as running whatever its window and the next two wait; a two-departure route fails on key 2 |
| AdjacencyFacts.AfterLastCase | cnuchatbot-fastapi/controller/shuttle/shuttleController.py:122-132 | after the last bus: two running, else one running, else service-ended, by the running windows; the three branches cover every case |
| AdjacencyFacts.BeforeLastCase | cnuchatbot-fastapi/controller/shuttle/shuttleController.py:134-144 | between the second-to-last and the last bus, one waits and up to two run; the idle branch lists two times for its one bus |
| AdjacencyFacts.InteriorCase | cnuchatbot-fastapi/controller/shuttle/shuttleController.py:146-157 | otherwise the record is built around the first later departure t[i], with t[i] and t[i+1] waiting; key n is read exactly when the query equals t[n-2] |
| AdjacencyFacts.MidnightCrashes | cnuchatbot-fastapi/controller/shuttle/shuttleController.py:110-150 | at 00:00:00 with the first bus more than 30 min away, the resolver raises KeyError on key -2 |
| AdjacencyFacts.SecondToLastCrashes | cnuchatbot-fastapi/controller/shuttle/shuttleController.py:150-157 | at the second-to-last departure of a route with four or more departures, it raises KeyError on key n |
| AdjacencyFacts.AsWrittenFailsExactly | cnuchatbot-fastapi/controller/shuttle/shuttleController.py:92-157 | on a valid timetable the resolver fails if and only if one of those two inputs is given, with exactly those keys; it never returns None |
| AdjacencyFacts.AsWrittenRecordShape | cnuchatbot-fastapi/controller/shuttle/shuttleController.py:92-157 | every record it returns names the route and has at most two running and two waiting buses; its times are consecutive departures of the timetable, in ascending order, exactly as many as the counts, except the service-ended record (first and last) and the idle branch of case 5 |
| AdjacencyFacts.ShapeBeforeSecond | cnuchatbot-fastapi/controller/shuttle/shuttleController.py:109-120 | the record shape holds in cases 1 to 3 |
| AdjacencyFacts.ShapeAfterSecondToLast | cnuchatbot-fastapi/controller/shuttle/shuttleController.py:122-144 | the record shape holds in cases 4 and 5 |
| AdjacencyFacts.ShapeInterior | cnuchatbot-fastapi/controller/shuttle/shuttleController.py:146-157 | the record shape holds in case 6 |
| AdjacencyFacts.ResolveWindow | cnuchatbot-fastapi/controller/shuttle/shuttleController.py:92-157 | outside the suspended hours the corrected record is the intended window around the next departure (`IsWindow`): up to two waiting, the running ones just before them, service-ended iff every bus left and none runs |
| AdjacencyFacts.WindowBeforeFirst | cnuchatbot-fastapi/controller/shuttle/shuttleController.py:114-116 | the intended window holds up to the first departure |
| AdjacencyFacts.WindowFirstToSecond | cnuchatbot-fastapi/controller/shuttle/shuttleController.py:118-120 | the intended window holds between the first and second departure |
| AdjacencyFacts.FirstTwoWaiting | cnuchatbot-fastapi/controller/shuttle/shuttleController.py:114-116 | up to the first departure, the record with the first two departures waiting is the intended window |
| AdjacencyFacts.WindowAfterLast | cnuchatbot-fastapi/controller/shuttle/shuttleController.py:122-132 | the intended window holds after the last departure |
| AdjacencyFacts.ResolveAfterLast | cnuchatbot-fastapi/controller/shuttle/shuttleController.py:122-132 | after the last departure the corrected resolver lists the last two buses as running when the second-to-last still runs, else the last bus alone when it runs, else the service-ended record |
| AdjacencyFacts.AfterLastWindow | cnuchatbot-fastapi/controller/shuttle/shuttleController.py:122-132 | each of those three records is the intended window after the last departure |
| AdjacencyFacts.WindowBeforeLast | cnuchatbot-fastapi/controller/shuttle/shuttleController.py:134-144 | the intended window holds between the last two departures |
| AdjacencyFacts.ResolveBeforeLast | cnuchatbot-fastapi/controller/shuttle/shuttleController.py:134-144 | between the last two departures the corrected resolver lists the last three, the last two or only the last departure, by which of the two before the last bus still run |
| AdjacencyFacts.BeforeLastWindow | cnuchatbot-fastapi/controller/shuttle/shuttleController.py:134-144 | each of those three records is the intended window between the last two departures |
| AdjacencyFacts.BeforeLastTwoRunning | cnuchatbot-fastapi/controller/shuttle/shuttleController.py:137-138 | the record with the last three departures, two running, is the intended window when the third-to-last bus still runs |
| AdjacencyFacts.BeforeLastOneRunning | cnuchatbot-fastapi/controller/shuttle/shuttleController.py:140-141 | the record with the last two departures, one running, is the intended window when only the second-to-last bus runs |
| AdjacencyFacts.BeforeLastNoneRunning | cnuchatbot-fastapi/controller/shuttle/shuttleController.py:143-144 | with the correction, the record with the last departure alone is the intended window when neither runs |
| AdjacencyFacts.WindowInterior | cnuchatbot-fastapi/controller/shuttle/shuttleController.py:146-157 | the intended window holds in the rest of the day |
| AdjacencyFacts.ResolveInterior | cnuchatbot-fastapi/controller/shuttle/shuttleController.py:146-157 | in case 6 the corrected record is built around the next departure t[j], with 2 <= j <= n-2 and t[j-1] before the query: t[j] and t[j+1] wait, preceded by t[j-2] and t[j-1] or by t[j-1] alone, by which still run |
| AdjacencyFacts.InteriorShape | cnuchatbot-fastapi/controller/shuttle/shuttleController.py:146-157 | each of the three case-6 records around an index i has the record shape |
| AdjacencyFacts.InteriorTwoRunning | cnuchatbot-fastapi/controller/shuttle/shuttleController.py:150-151 | with the correction, the case-6 record listing t[j-2..j+2] is the intended window when the bus two before the next departure still runs |
| AdjacencyFacts.InteriorOneRunning | cnuchatbot-fastapi/controller/shuttle/shuttleController.py:153-154 | with the correction, the case-6 record listing t[j-1..j+2] is the intended window when only the bus just before the next departure runs |
| AdjacencyFacts.InteriorNoneRunning | cnuchatbot-fastapi/controller/shuttle/shuttleController.py:156-157 | with the correction, the case-6 record listing t[j..j+2] is the intended window when neither runs |
| AdjacencyFacts.ResolveAtDeparture | cnuchatbot-fastapi/controller/shuttle/shuttleController.py:146-157 | with the correction, a bus leaving exactly at the query is the first waiting bus, for every departure |
| AdjacencyFacts.ResolveAtMidnight | cnuchatbot-fastapi/controller/shuttle/shuttleController.py:109-112 | with the correction, 00:00:00 before a late first bus is in the suspended hours |
| AdjacencyFacts.ResolveIdleBeforeLast | cnuchatbot-fastapi/controller/shuttle/shuttleController.py:142-144 | with the correction, the idle branch of case 5 lists only the last bus |
| AdjacencyFacts.AsWrittenMatchesCorrected | cnuchatbot-fastapi/controller/shuttle/shuttleController.py:92-157 | the resolver as written returns the corrected record if and only if the input is not one of the three defects |
| AdjacencyFacts.InteriorMatchesCorrected | cnuchatbot-fastapi/controller/shuttle/shuttleController.py:146-157 | in case 6 the resolver as written returns the corrected record if and only if the query is not a departure |
| Status.Entry | cnuchatbot-fastapi/controller/shuttle/shuttleController.py:176 | no contract of its own: one listed bus; stated by `StatusFacts.EntryReadsBack` |
| Status.EndedText | cnuchatbot-fastapi/controller/shuttle/shuttleController.py:170-172 | no contract of its own: the service-ended text; read back by `StatusFacts.EndedTextReadsBack` |
| Status.RunningHeader | cnuchatbot-fastapi/controller/shuttle/shuttleController.py:174 | no contract of its own: the running group's header, the count in brackets; stated by `DayExamples.HeadersOfOneWaiting` and `StatusFacts.OneWaitingText` |
| Status.WaitingHeader | cnuchatbot-fastapi/controller/shuttle/shuttleController.py:180 | no contract of its own: the waiting group's header; stated by `DayExamples.HeadersOfOneWaiting` and `StatusFacts.OneWaitingText` |
| Status.Layout | cnuchatbot-fastapi/controller/shuttle/shuttleController.py:174-182 | no contract of its own: the running header and group, the blank line of line 178, then the waiting header and group; stated by `StatusFacts.OneWaitingText` and `DayExamples.ExampleIdleBeforeLastText` |
| Status.Listed | cnuchatbot-fastapi/controller/shuttle/shuttleController.py:181 | no contract of its own: the `prev + next` bound of the waiting loop; stated by `Status.GetInfo` and `StatusFacts.EntriesSplit` |
| Status.Lines | cnuchatbot-fastapi/controller/shuttle/shuttleController.py:175-182 | no contract of its own: the shape of a `for` loop of `get_info`, one line per bus of `times[lo..hi)` in order; stated by `StatusFacts.LinesOnePerBus` and `StatusFacts.LinesSplit` |
| Status.Entries | cnuchatbot-fastapi/controller/shuttle/shuttleController.py:175-182 | no contract of its own: the lines of `times[lo..hi)` written as `get_info` writes them; stated by `StatusFacts.EntriesOnePerBus` and `StatusFacts.EntriesSplit` |
| Status.StatusText | cnuchatbot-fastapi/controller/shuttle/shuttleController.py:185-189 | no contract of its own: the specification of `get_str_info`; stated by `StatusFacts.VacationOverrides`, `StatusFacts.ResolvedRecordRenders` and `StatusFacts.AsWrittenRecordRenders` |
| Status.InfoText | cnuchatbot-fastapi/controller/shuttle/shuttleController.py:168-183 | no contract of its own: the specification of `get_info`, IndexError included; stated by `StatusFacts.EntriesOnePerBus`, `StatusFacts.EntriesSplit`, `StatusFacts.OneWaitingText` and `StatusFacts.EndedTextReadsBack` |
| Status.AppendEntries | cnuchatbot-fastapi/controller/shuttle/shuttleController.py:175-182 | a `for` loop of `get_info` appends one entry per listed bus, or raises IndexError at the first position past the end of `times_` |
| Status.GetInfo | cnuchatbot-fastapi/controller/shuttle/shuttleController.py:168-183 | `get_info` returns the service-ended text (IndexError when the record has fewer than two times), or the running group, a blank line and the waiting group (IndexError at the first position past the end of `times_`), exactly as `InfoText` specifies |
| Status.GetStrInfo | cnuchatbot-fastapi/controller/shuttle/shuttleController.py:160-189 | the formatter returns the vacation notice during the vacation and otherwise what `get_info` returns, exactly as `StatusText` specifies |
| StatusFacts.EndedTextReadsBack | cnuchatbot-fastapi/controller/shuttle/shuttleController.py:170-172 | the service-ended text is 33 characters: the "service ended" label, the first departure as `HH:MM` with "(leaving from Wolpyeong station)", and the last departure as `HH:MM`, each at a fixed position |
| StatusFacts.VacationOverrides | cnuchatbot-fastapi/controller/shuttle/shuttleController.py:185-188 | during the vacation the text is the fixed notice, whatever the record and time |
| StatusFacts.EntryReadsBack | cnuchatbot-fastapi/controller/shuttle/shuttleController.py:176 | an entry is one line: `HH:MM` of the departure, then the minute distance in decimal, then the label; both read back |
| StatusFacts.EntryIsOneLine | cnuchatbot-fastapi/controller/shuttle/shuttleController.py:176 | an entry holds exactly one line break, the one it starts with |
| StatusFacts.LinesOnePerBus | cnuchatbot-fastapi/controller/shuttle/shuttleController.py:175-182 | a listing whose writer puts one line break in every line has exactly as many line breaks as buses |
| StatusFacts.LinesSplit | cnuchatbot-fastapi/controller/shuttle/shuttleController.py:175-182 | such a listing splits at any bus into the listing before it and the listing from it on |
| StatusFacts.EntriesOnePerBus | cnuchatbot-fastapi/controller/shuttle/shuttleController.py:175-182 | a listing has exactly one line per listed bus |
| StatusFacts.EntriesSplit | cnuchatbot-fastapi/controller/shuttle/shuttleController.py:174-182 | the running group followed by the waiting group is the listing of the record's buses in order |
| StatusFacts.OneWaitingText | cnuchatbot-fastapi/controller/shuttle/shuttleController.py:174-182 | with none running and one waiting, the text names the first of the record's times |
| StatusFacts.ResolvedRecordRenders | cnuchatbot-fastapi/controller/shuttle/shuttleController.py:168-183 | every corrected record renders: the formatter never reads past its `times_` |
| StatusFacts.AsWrittenRecordRenders | cnuchatbot-fastapi/controller/shuttle/shuttleController.py:168-183 | every record the resolver as written returns renders too |
| StatusFacts.IdleBeforeLastShowsDepartedBus | cnuchatbot-fastapi/controller/shuttle/shuttleController.py:142-144 | in the idle branch of case 5 the text as written shows the departed second-to-last bus as waiting; the corrected text shows the last bus |
| DayRegions.Region | cnuchatbot-fastapi/controller/shuttle/shuttleController.py:109-157 | no contract of its own: the case the `if`/`elif` chain takes on a working day; tied to the code by `DayRegions.RegionSelectsCase` |
| DayRegions.RegionSelectsCase | cnuchatbot-fastapi/controller/shuttle/shuttleController.py:109-157 | cases 1 to 5 return from their own branch with their own record (cases 4 and 5 told apart by the waiting count), and case 6 is exactly the one left to the scan |
| DayRegions.RegionsFollowTheDay | cnuchatbot-fastapi/controller/shuttle/shuttleController.py:98-104 | strictly between 00:00:00 and 23:59:59, a later query is never in an earlier region: 1, 2, 3, 6, 5, 4, then 1 again |
| DayRegions.RegionsAtTheEnds | cnuchatbot-fastapi/controller/shuttle/shuttleController.py:110-111 | at 00:00:00 before a late first bus the code takes case 6, and at 23:59:59 after an early last bus it takes case 4 again, not case 1 |
| DayExamples.ExampleJustAfterFirst | cnuchatbot-fastapi/controller/shuttle/shuttleController.py:118-120 | at 08:05 the 08:00 bus runs and the 08:30 and 09:00 buses wait |
| DayExamples.ExampleAfterLast | cnuchatbot-fastapi/controller/shuttle/shuttleController.py:122-132 | at 22:15 only the 22:00 bus runs |
| DayExamples.ExampleLateNight | cnuchatbot-fastapi/controller/shuttle/shuttleController.py:109-112 | at 23:50 the record is service-ended with 08:00 and 22:00 |
| DayExamples.ExampleSecondToLast | cnuchatbot-fastapi/controller/shuttle/shuttleController.py:150-157 | at 21:30 the resolver raises KeyError on key 29 |
| DayExamples.ExampleSecondToLastResolved | cnuchatbot-fastapi/controller/shuttle/shuttleController.py:146-157 | at 21:30 the corrected resolver lists the 21:30 and 22:00 buses as waiting |
| DayExamples.IdleAtSecondToLast | cnuchatbot-fastapi/controller/shuttle/shuttleController.py:146-157 | with the correction, at the second-to-last departure, when the bus before it has arrived, the last two departures wait |
| DayExamples.ExampleMidnight | cnuchatbot-fastapi/controller/shuttle/shuttleController.py:110-150 | at 00:00:00 the resolver raises KeyError on key -2; the corrected one reports service ended |
| DayExamples.ExampleIdleBeforeLast | cnuchatbot-fastapi/controller/shuttle/shuttleController.py:142-144 | at 21:55 the record as written lists 21:30 and 22:00 for one waiting bus; the corrected one lists 22:00 |
| DayExamples.ExampleIdleBeforeLastText | cnuchatbot-fastapi/controller/shuttle/shuttleController.py:168-183 | the text at 21:55 is `[0대 운행중]`, a blank line, `[1대 대기중]` and `21:30(25분전)` |
| DayExamples.OneWaitingAtFiveToTen | cnuchatbot-fastapi/controller/shuttle/shuttleController.py:174-182 | the headers, the blank line and the 21:30 entry seen at 21:55 spell out that text |
| DayExamples.HeadersOfOneWaiting | cnuchatbot-fastapi/controller/shuttle/shuttleController.py:174-180 | the headers for 0 running and 1 waiting read `[0대 운행중]` and `[1대 대기중]` |
| DayExamples.EntryAtHalfPastNine | cnuchatbot-fastapi/controller/shuttle/shuttleController.py:176 | the 21:30 bus seen at 21:55 renders as `21:30(25분전)` on its own line |

## Left out

- `get_datetime` is the identity. Times are whole seconds since midnight,
  and a shifted bound such as "first bus minus 30 minutes" may be negative,
  just as the datetime arithmetic crosses into the previous day.
  The query `q` is an instant whose microseconds are zero. The code
  compares the full `datetime.now()`, so a query a fraction of a second
  after a strict bound (00:00:00.4, a departure plus 0.4 s) can take a
  different case than the whole second before it, and `get_time_diff`
  then reports k-1 minutes for a bus exactly k minutes ahead. None of
  that is modelled.
- `get_time_diff` divides seconds by 60 in floating point and truncates.
  For whole seconds of one day this is exact integer division of the
  absolute difference, which is how it is modelled.
- The clock read (`datetime.now()`) and the module-level `CURRENT_TIME`
  that `is_running` reads are not modelled. The model passes the query
  instant explicitly and assumes it is the same instant as `cur_time`, as
  in `get_time`.
- `is_holiday()` and `is_vacation()` are boolean parameters. The holiday
  calendar and the vacation dates are not part of this model.
- The `LINE_TIME` lookup and the timetable data are not modelled; the
  timetable module `common.data.shuttle.timeTable` is not part of this
  model. A route is any sequence of times. The model assumes that its keys
  are `0..n-1` and iterate in ascending order. The code presupposes this
  when it takes `len(line_times) - 1` as the last key (line 107) and reads
  `line_times[index - 2]` for the scan's current key (line 150). Properties
  about the real routes assume strictly ascending times and at least three
  departures (`ValidTimetable`). The crash lemmas for short routes state
  what happens below that.
- `get_image`, `get_app_image`, `IMAGE_URL`, `get_time` and the Kakao JSON
  builders are presentation code outside the modelled core, and are left
  out. `get_time` does more than assemble the modelled functions' results:
  - it sets the global `CURRENT_TIME` to the clock (lines 199-200);
  - it has its own vacation branch for route C (lines 213-216);
  - it returns early with the four texts when `isApp` is set (lines 232-233).
- The route-C listing in `get_time` is not modelled. Its two loops append
  every C-route departure as `HH:MM` and a line break (lines 218-230).
- Adjacency.AdjTimes: the counts `prev_`/`next_` are natural numbers. The
  code only ever builds records with counts 0, 1 or 2, so Python's
  negative list indexing never arises in `get_info`.
- Adjacency.Resolve: its own contract only bounds the counts. What it
  reports is stated separately by `AdjacencyFacts.ResolveWindow` and the
  three correction lemmas.
- Case 3 reports the first bus as running whatever its 20-minute window.
  The model keeps this, in both the as-written and the corrected resolver,
  and states it (`AdjacencyFacts.FirstToSecondCase`, and the `j == 1`
  clause of `IsWindow`). It is a design choice of the code, not a finding.
- Waiting buses are labelled "분전" ("minutes ago") like running ones, with
  only the magnitude of the distance shown. The model keeps the label as
  written.

## Findings

| source | as written | input that shows it | evidently intended | confidence | as-written member | corrected member |
|---|---|---|---|---|---|---|
| cnuchatbot-fastapi/controller/shuttle/shuttleController.py:150-157 | case 6 stops at the first departure strictly later than the query and reads `line_times[index + 1]` | a route of n >= 4 departures queried exactly at t[n-2], e.g. 21:30 on a route leaving every 30 min from 08:00 to 22:00: `KeyError: 29`; the clock must read t[n-2] to the microsecond | the bus leaving at the query is the first waiting bus (stop at the first departure at or after the query) | not executed | AdjacencyFacts.SecondToLastCrashes | AdjacencyFacts.ResolveAtDeparture |
| cnuchatbot-fastapi/controller/shuttle/shuttleController.py:110 | the suspended-hours test excludes 00:00:00 itself (`time(0) < cur_time`), so that instant reaches the case-6 scan at index 0 | 00:00:00 on a route whose first bus leaves after 00:30: `KeyError: -2`; the clock must read 00:00:00.000000 | midnight belongs to the suspended hours and gives the service-ended record | not executed | AdjacencyFacts.MidnightCrashes | AdjacencyFacts.ResolveAtMidnight |
| cnuchatbot-fastapi/controller/shuttle/shuttleController.py:143-144 | with no bus running and one waiting, the record lists both the second-to-last and the last departure, and the formatter prints the first of them as the waiting bus | 21:55 on the route above: the text shows `21:30(25분전)` under `[1대 대기중]` although that bus left 25 minutes earlier | the one waiting bus is the last departure | not executed | StatusFacts.IdleBeforeLastShowsDepartedBus | AdjacencyFacts.ResolveIdleBeforeLast |
