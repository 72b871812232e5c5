# enote time log, modelled in Dafny

`enote` is a command-line notebook that also logs working hours. Its time log is a map
from ISO date to that day's list of markers. A marker is a one-character kind tag (`S`
for start, `E` for end) followed by the time as `HH:MM`, and optionally a space and an
annotation. This project models the two parts of the program that work on the log:

- **The accountant** (`log`). It takes one day's markers and pairs them by position:
  even indices are candidate starts and odd indices candidate ends, and a trailing
  unmatched marker is dropped. It removes the first character of every marker, drops
  the pairs with an empty side, parses the times and sums `end - start` in minutes.
  The sum starts at zero and may be negative.
- **The recorder** (`start`, `end`). It appends a marker for today. For a date not yet
  in the log it creates the list `[marker]`. Otherwise, when the day's last marker does
  not contain the opposite tag (`E` before a start, `S` before an end), it first
  appends that bare tag, then the marker. This is self-healing: the bare tag strips to
  the empty string, so the pair it completes is dropped by the accountant.

Modules:

- `Errors` (errors.dfy): the failures, plus `Option` and `Result`.
- `Clock` (clock.dfy): times of day, the `HH:MM` text written for them, and the parser
  for that text.
- `Accounting` (accounting.dfy): the accountant as its pipeline of stages (`Pipeline`).
  It also holds a pair-by-pair reference definition (`Accounted`), and
  `PipelineIsAccounted` proves the two agree.
- `Recording` (recording.dfy): the recorder as a function on the log (`Recorded`).
- `Consistency` (consistency.dfy): how the recorder's output reads back through the
  accountant.
- `Enote` (enote.dfy): class `App`, which holds today's date and the log's contents.
  `LogTime` sums in a loop, `WriteTime` updates the log in place, and `Run` is the
  command dispatch.

Details of `enote/enote.py` that are easy to get wrong, and that the model follows:

- The healing test is a substring test on the last stored marker (`pt not in ...[-1]`).
  There is no separate "previous tag" value.
- The code creates a new day list only when the date is absent. A date present with an
  empty list makes the lookup of its last marker fail. The model returns
  `EmptyDayList` in that case and leaves the log unchanged.
- A marker with an annotation is tested by the same substring test, so an annotation
  holding the opposite tag letter (a start annotated `Email`, say) suppresses the
  healing tag. Markers written without annotation never do (`MarkerLacksOppositeTag`).
- The code hands the whole stripped marker to the parser, trailing annotation
  included. Nothing is removed before parsing.

## Model

| member | source | states |
|---|---|---|
| Accounting.EvenIndexed | enote/enote.py:39 | the candidate starts: `(n+1)/2` elements, element `i` is marker `2i` |
| Accounting.OddIndexed | enote/enote.py:40 | the candidate ends: `n/2` elements, element `i` is marker `2i+1` |
| Accounting.Zip | enote/enote.py:41 | as many pairs as the shorter input, pair `i` is `(a[i], b[i])` |
| Accounting.Candidates | enote/enote.py:39-41 | `n/2` pairs, pair `i` is `(day[2i], day[2i+1])`: purely positional, a trailing unmatched marker dropped |
| Accounting.Strip | enote/enote.py:42 | a marker loses its first character whatever it is, and an empty marker stays empty; `PipelineIgnoresTags` and `MarkerStripsToTime` state what this means for totals and for written markers |
| Accounting.Stripped | enote/enote.py:42 | same number of pairs, each side without its first character |
| Accounting.StrippedAppend | enote/enote.py:42 | stripping distributes over concatenation of pair lists |
| Accounting.Kept | enote/enote.py:43 | never more pairs than given; `KeptExactly` and `KeptAppend` state which pairs survive and that their order is kept |
| Accounting.KeptExactly | enote/enote.py:43 | a pair survives the filter if and only if it was there and neither side is empty |
| Accounting.KeptAppend | enote/enote.py:43 | the filter distributes over concatenation and keeps order |
| Accounting.Diff | enote/enote.py:44-47 | a pair is `Ok` exactly when both sides parse, and then worth `end - start`; otherwise `TimeParseError` |
| Accounting.SumDiffs | enote/enote.py:44-47 | the running sum from zero; `SumDiffsErrIff`, `SumDiffsErrPersists` and `SumDiffsOnlyParseErrors` state when and how it fails |
| Accounting.SumDiffsErrIff | enote/enote.py:44-47 | the sum fails exactly when some pair summed does not parse |
| Accounting.SumDiffsErrPersists | enote/enote.py:44-47 | once a pair fails to parse, the whole sum fails with `TimeParseError` |
| Accounting.SumDiffsOnlyParseErrors | enote/enote.py:44-47 | the only failure the summation produces is `TimeParseError` |
| Accounting.PairAmountOfTimes | enote/enote.py:43-47 | a pair whose stripped sides parse to `p` and `q` adds `q - p`, negative when the end is earlier |
| Accounting.CandidatesAppendPair | enote/enote.py:39-41 | two markers appended to an even-length day form exactly one more candidate pair |
| Accounting.KeptAppendPair | enote/enote.py:42-43 | the kept pairs of the extended day are the old ones followed by the new pair unless it has an empty side |
| Accounting.PairAmount | enote/enote.py:42-47 | what one pair adds after stripping: nothing when a side is empty, otherwise its `Diff`; `PairAmountOfTimes` gives its value for parsed times |
| Accounting.PipelineAppendPair | enote/enote.py:39-47 | appending a pair to a day of complete pairs adds that pair's amount to the pipeline's total, or nothing when a side strips to empty |
| Accounting.PipelineTrailing | enote/enote.py:39-41 | a trailing unmatched marker leaves the pipeline's total unchanged |
| Accounting.Pipeline | enote/enote.py:39-47 | the stages in the tool's order; `PipelineErr` gives its failures and `PipelineIsAccounted` its value |
| Accounting.PipelineErr | enote/enote.py:39-47 | a day's total fails exactly when one of its kept pairs has a side that does not parse, and then with `TimeParseError` |
| Accounting.PipelineIsAccounted | enote/enote.py:39-47 | for every day, the slice/zip/strip/filter/sum pipeline equals the pair-by-pair total from the front |
| Accounting.Accounted | enote/enote.py:38-47 | the pair-by-pair reference total; its only failure is `TimeParseError` |
| Accounting.DayTotal | enote/enote.py:38-47 | `DateNotFound` exactly when the date is not in the log; otherwise the day's total |
| Accounting.AccountedAppendPair | enote/enote.py:43-47 | the pair-by-pair total of a day extended by a pair is the old total plus the pair's amount |
| Accounting.AccountedAppendEmptyPair | enote/enote.py:43 | a pair with a side that strips to empty adds nothing |
| Accounting.AccountedTrailing | enote/enote.py:41 | an unmatched trailing marker (an open session) adds nothing |
| Accounting.TimedTotal | enote/enote.py:44-47 | when every marker carries a time, the total starts at zero, never fails and is the sum of `end - start` over consecutive positions |
| Accounting.PipelineIgnoresTags | enote/enote.py:42 | two days whose markers agree after their first character have the same pipeline total and the same pair-by-pair total: kind tags are never inspected |
| Clock.TwoDigits | enote/enote.py:74 | exactly two decimal digits whose value is the number (zero-padded) |
| Clock.IsoMinutes | enote/enote.py:74 | the `HH:MM` text written for a time; `ParseIsoMinutes` and `ParsedIsIsoMinutes` show it is exactly what the parser accepts |
| Clock.ParseTime | enote/enote.py:44 | a parsed time has the `HH:MM` layout and lies within one day |
| Clock.IsoMinutesChars | enote/enote.py:74 | the written time is five characters, each a digit or the colon |
| Clock.ParseIsoMinutes | enote/enote.py:74 | the text written for a time parses back to that time |
| Clock.ParsedIsIsoMinutes | enote/enote.py:44 | every text that parses is exactly the text written for the parsed time, so parsing is injective |
| Recording.OppositeTag | enote/enote.py:61-63 | `E` for a start and `S` for an end: one character, never the kind's own tag |
| Recording.Contains | enote/enote.py:76 | the substring test; `ContainsOneChar` reduces it to character membership for a tag |
| Recording.ContainsOneChar | enote/enote.py:76 | for a one-character tag the substring test is membership of that character |
| Recording.MarkerLayout | enote/enote.py:65-74 | a marker is the tag, then `HH:MM`, then `" " + post` exactly when `post` is non-empty |
| Recording.Marker | enote/enote.py:65-74 | the marker text; `MarkerLayout` states its layout |
| Recording.Healed | enote/enote.py:75-78 | the day with the bare opposite tag appended when the last marker lacks it; `RecordedExtends` states the result |
| Recording.Recorded | enote/enote.py:70-83 | fails with `EmptyDayList` exactly when the date holds an empty list; otherwise the keys become the old keys plus the date and every other date keeps its list |
| Recording.RecordedNewDate | enote/enote.py:79-80 | a date not yet in the log gets exactly `[marker]` |
| Recording.RecordedExtends | enote/enote.py:75-78 | the old list stays a prefix; `[tag, marker]` is appended when the last marker lacks the opposite tag character, `[marker]` otherwise |
| Consistency.MarkerStripsToTime | enote/enote.py:42-44 | an unannotated marker strips to its `HH:MM` text and parses to its time; a bare tag strips to empty |
| Consistency.HealedTotal | enote/enote.py:75-78 | after healing and appending, a day's total changes only when an open session is closed by the new marker, and then by that pair's amount |
| Consistency.HealingTag | enote/enote.py:43 | an inserted bare tag completes a pair that is dropped, and the new marker is left unmatched |
| Consistency.RecordedTotal | enote/enote.py:75-78 | recording for a date with markers adds the amount of the pair the new marker closes exactly when the day has odd length and its last marker contains the opposite tag; otherwise the total is unchanged |
| Consistency.RecordedDayTotal | enote/enote.py:75-83 | after recording for a date with markers, its total is that of the healed day with the new marker appended |
| Consistency.EndClosesSession | enote/enote.py:56-57 | an `end` at `now` after a start at `t` that leaves a session open (the day has odd length) adds `now - t` to the day's total |
| Consistency.StartMarkerIsOpen | enote/enote.py:61-63 | a start marker contains the tag an end looks for, so an end after it inserts nothing |
| Consistency.SessionAmount | enote/enote.py:74 | a start marker at `t` and an end marker at `now` form a pair worth `now - t` |
| Consistency.WrittenPairAmount | enote/enote.py:42-47 | two markers that strip to the text written for `t` and `now` add `now - t` |
| Consistency.MarkerLacksOppositeTag | enote/enote.py:61-76 | a marker written without annotation never contains the opposite tag of its own kind, so a second marker of the same kind is always healed |
| Consistency.RepeatedMarkerHealed | enote/enote.py:75-78 | a second start after a start (or end after an end), without annotation, appends exactly the bare opposite tag and the new marker |
| Consistency.RepeatedMarkerAddsNothing | enote/enote.py:75-78 | a repeated start or repeated end without annotation leaves the day's total unchanged |
| Consistency.FirstMarkerTotalsZero | enote/enote.py:79-80 | the first marker of a new date leaves that date's total at zero |
| Consistency.RecordedOtherDates | enote/enote.py:70-83 | recording never changes the total of any other date |
| Consistency.EightHourDay | enote/enote.py:45-47 | sessions 08:00-12:00 and 13:00-17:00 total 480 minutes |
| Consistency.OpenAfternoon | enote/enote.py:41 | an open 13:00 start after a complete morning leaves the total at 240 |
| Consistency.EndBeforeStart | enote/enote.py:45-47 | a session from 17:00 to 08:00 counts as -540, with no clamping |
| Consistency.DayBegunByEnd | enote/enote.py:39-47 | a day begun by `end`: the later start pairs backwards with it, so `E07:00, S08:00, E12:00` totals 60, not the 240 of the 08:00-12:00 session |
| Consistency.RepeatedStart | enote/enote.py:43 | a start, an inserted bare `E` and a second start total zero |
| Consistency.RepeatedStartRecorded | enote/enote.py:75-78 | recording a start at 09:00 on a day holding only `S08:00` gives `S08:00, E, S09:00`, whose total is zero |
| Enote.App.constructor | enote/enote.py:27-30 | the application holds the given date and log contents |
| Enote.App.LogTime | enote/enote.py:32-49 | for the argument date, or today when there is none, the loop's sum is the day's pair-by-pair total; `DateNotFound` exactly when the date is absent |
| Enote.App.WriteTime | enote/enote.py:60-83 | the log becomes `Recorded(old log, ...)`; on `EmptyDayList` it is left unchanged |
| Enote.App.StartTime | enote/enote.py:52-53 | records a start marker for today, as `WriteTime` does |
| Enote.App.EndTime | enote/enote.py:56-57 | records an end marker for today, as `WriteTime` does |
| Enote.App.Run | enote/enote.py:177-193 | an unknown name gives the usage outcome and changes nothing; `log` reports the day total; `start`/`end` record and report `Ok` or the recording's error; the other commands change nothing in the log |
| Enote.LookupCommand | enote/enote.py:179-193 | a name found in the table is the name of the command found |
| Enote.LookupCommandName | enote/enote.py:179-188 | every command is found under its own name |
| Enote.CommandName | enote/enote.py:179-188 | the name each command is registered under; `LookupCommand` and `LookupCommandName` tie it to the table |
| Enote.DailyNotePath | enote/enote.py:97 | the note file `date.md` inside the notes directory; `DailyNotePathInjective` shows dates do not collide |
| Enote.DailyNotePathInjective | enote/enote.py:97 | within one notes directory, different dates give different note paths |

## Left out

- Reading and writing the log file as JSON, and opening files. The log is the in-memory map held by `App`.
- The wall clock. Today's date is a constructor argument and the time of day is a parameter of `WriteTime`, `StartTime`, `EndTime` and `Run`.
- The flexible time parser of the `dateutil` library. `ParseTime` accepts exactly the `HH:MM` text the tool writes. Every other non-empty text is a `TimeParseError`, including a marker with annotation text, whose real parsing is not modelled.
- Parse results are minutes since midnight rather than datetimes on the current day. Their differences are the same.
- Printing the total and formatting it as a `timedelta`. `LogTime` returns the minutes.
- Python exceptions become `Result` errors: the missing key becomes `DateNotFound`, the index error on an empty day list becomes `EmptyDayList`, and the parser's error becomes `TimeParseError`.
- Recording.Marker: `post` is required to contain no brace. The source builds the marker with `str.format`, which would interpret braces. The only callers pass an empty `post`.
- Enote.App.Run: the editor, `grep` and `git` commands (`daily`, `edit`, `standup`, `grep`, `backup`) run external programs. `Run` only reports which of these commands was chosen. The daily-note path they build is modelled as `DailyNotePath`.
- Creating the daily note from its template, and checking whether a note exists.
- Workspace initialisation, loading the configuration, changing directory, and the usage text.
- Concurrent invocations writing the same log file.
