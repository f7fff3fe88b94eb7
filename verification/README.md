# Calendar engine, loader and settings store: a verified model

This project models, in Dafny, the iCalendar engine of the `ics` plugin
(unfolding, scanning, event building, recurrence, overrides, selection), the
caching loader above it, the Base64 credentials of the Jenkins plugin, and the
settings storage with its migrations, and proves what they guarantee.

Check it with `dafny verify dfyconfig.toml`.

## How the model is built

- An instant of a calendar is a whole number of seconds since 1970-01-01T00:00:00Z; 0
  is a time point that was never set. The clock and the cache count ticks
  (nanoseconds). The local zone is a constant number of seconds east of UTC.
  `mktime`, `_mkgmtime` and `localtime_s` are a real Gregorian day count (`Civil`),
  and -1 is their error value.
- Loops and objects of the program are methods and classes, each proved against a
  specification function; the laws are lemmas about those functions, mostly in the
  modules ending in `Laws`, in `ZoneRecords`, `LoaderRuns` and `NextEvents`.
- What throws in C++ returns a `Result` with the kind of exception.
- The clock and the answers of the network are parameters (`Reading`), a failed
  fetch being the empty text. Outcomes of transactions are parameters (`Outcome`).
- A `std::set` or `std::map` in iteration order is an ascending sequence.
- A `std::getline` loop is a loop over the pieces it would read. A regular
  expression search is the first position where its pattern matches.

| modules | of the program |
|---|---|
| `Clock`, `Civil`, `DateTime`, `Decimal`, `Text`, `Results` | C++ library time, strings, ordered sets and numbers; date-time text |
| `Timezone`, `ZoneRecords`, `TimezoneLaws` | VTIMEZONE offsets |
| `TextUtils`, `Scanner`, `EventBuilder`, `Alarms`, `AlarmLaws`, `CalendarLaws` | from text to raw events |
| `Rrule`, `RruleLaws`, `Recurrence`, `RecurrenceLaws`, `LimitLaws` | recurrence rules and their expansion |
| `Events`, `Selection`, `Pipeline`, `PipelineLaws`, `DepartureLaws` | records, window, overrides, the pipeline |
| `Cache`, `EventManager`, `LoaderRuns`, `NextEvents` | cache file, loader, runs, selection |
| `Base64` | encoder and Basic credentials |
| `Tables`, `SettingsStore`, `Migrations` | JSON and SQLite storage |

## Where the code departs from its documents

Each is a property the code does not have in general, with the exact condition
under which it does, or the lemma that pins the behaviour down.

- INTERVAL=0 is accepted and repeats its slots: `RecurrenceLaws.DailyIsDistinctIff`,
  `RecurrenceLaws.WeeklyIsDistinctIff`, `RecurrenceLaws.MonthlyIsDistinctIff`.
- Weeks of a series with INTERVAL above 1 are counted from DTSTART, not from Monday:
  `RecurrenceLaws.WeeklyMeetsRfcIff`.
- Monthly occurrences lose the time of day and roll over in short months:
  `RecurrenceLaws.MonthlyMeetsRfcIff`. They may precede the window
  (`RecurrenceLaws.MonthlyStaysInWindowIff`, `RecurrenceLaws.TenIsEmittedAtMidnight`),
  and are then dropped from the selection: `NextEvents.FirstDayIsMissed`.
- COUNT and an UNTIL given as a date are ignored, whatever the frequency:
  `DepartureLaws.IgnoredPartEndsNothing`. When that does no harm: `LimitLaws.CountHoldsIff`
  (daily and monthly), `LimitLaws.WeeklyCountHoldsIff`, `LimitLaws.UntilHoldsOnDaysIff`,
  `DepartureLaws.DateUntilHoldsIff`. When it does: `DepartureLaws.CountOfOneRepeats`,
  `DepartureLaws.UntilOfTwoDaysRepeats`.
- A series is walked through for a fixed number of steps from DTSTART, so an old one may
  show nothing: `LimitLaws.LimitLosesNothingIff`, `LimitLaws.OldDailyEventIsLost`.
- EXDATE and RECURRENCE-ID are compared as local text. With a TZID they hit the
  instant they mean only in a zone of the local offset, in UTC form and as dates never:
  `EventBuilder.TzidKeyHitsIff`, `EventBuilder.UtcKeyExcludesNothing`,
  `EventBuilder.KeyExcludesIff`.
- A BYDAY with an ordinal, such as 2MO, is dropped: `RruleLaws.BydayListReads`.
- VALUE=DATE-TIME switches the TZID off: `DateTime.ValueParameterIgnoresTzid`. A date
  with a TZID but without VALUE=DATE is read as the last day of 1899:
  `DateTime.ZonedDateReads`.
- VTIMEZONE lines are read before unfolding, so a folded TZID is cut and a folded
  TZOFFSETTO unknown: `TimezoneLaws.FoldedNameReadsBackIff`,
  `TimezoneLaws.FoldedNameIsLost`, `TimezoneLaws.FoldedOffsetReadsBackIff`.
- Half-hour zones are rounded to hours: `Timezone.OffsetIsNearest`.
- The standard's status CANCELLED does not cancel: `DepartureLaws.StatusVanishesIff`.
- Alarm minutes have no sign, although `common/include/common/event.h` says that
  negative means before, and weeks are read as minutes: `Alarms.TriggerReadsBack`,
  `Alarms.WeeksReadAsMinutes`. A plus sign leaves them unset, and a parameter hides the
  trigger: `Alarms.TriggerUnsetIff`, `Alarms.ParameterHidesProperty`.
- A blank line behind a folded line is swallowed: `TextUtils.BlankLineReads`.
- A cache with line breaks in its texts does not survive its file:
  `Cache.LoadRestoresIff`.
- The two storage backends list accounts in different orders:
  `SettingsStore.AccountListingsAgreeIff`, `SettingsStore.AccountListingsDiffer`.
- `plugins/ics/include/ics/event_manager.h` says that cancelled events are excluded
  from the selection; only the parser drops them, so the selection has one if and only
  if a manual event that is next is cancelled:
  `EventManager.EventManager.GetNextEvents`, `EventManager.LoadedIsNotCanceled`.

## Model

| member | source | states |
|---|---|---|
| `Recurrence.ExpandDaily` | plugins/ics/src/detail/recurrence.cpp:126-152 | The daily loop appends, after what the vector held, an instance with the base's duration for every wanted slot among all 365: its two early exits lose none. |
| `Recurrence.ExpandWeekly` | plugins/ics/src/detail/recurrence.cpp:154-212 | The weekly loops append an instance for every wanted slot of all 520 blocks, Monday first in each block: stopping at the first block past the deadline loses none. |
| `Recurrence.ExpandMonthly` | plugins/ics/src/detail/recurrence.cpp:214-252 | The monthly loop appends an instance for every slot of all 24 that mktime accepts, at or before deadline and UNTIL and not excluded: its early exits lose none. |
| `Recurrence.Expand` | plugins/ics/src/detail/recurrence.cpp:261-269 | Each frequency is expanded by its own loop, and YEARLY adds nothing. |
| `RecurrenceLaws.DailyIsExact` | plugins/ics/src/detail/recurrence.cpp:126-152 | For INTERVAL >= 1 the daily starts are, strictly increasing, exactly DTSTART + 24h * i * INTERVAL with i < 365 that lie in the window, are not after UNTIL and are not excluded. |
| `RecurrenceLaws.DailyIsDistinctIff` | plugins/ics/src/detail/recurrence.cpp:36-38 | INTERVAL=0 is accepted by the rule parser; the daily starts are free of duplicates if and only if INTERVAL >= 1 or DTSTART itself is not wanted. |
| `RecurrenceLaws.WeeklyIsDistinctIff` | plugins/ics/src/detail/recurrence.cpp:154-212 | With INTERVAL=0 the weekly starts repeat: they are free of duplicates if and only if INTERVAL >= 1 or none of the first seven days is asked for and wanted. |
| `RecurrenceLaws.MonthlyIsDistinctIff` | plugins/ics/src/detail/recurrence.cpp:214-252 | The monthly starts are free of duplicates if and only if INTERVAL >= 1 or the one midnight that INTERVAL=0 repeats is not emitted. |
| `RecurrenceLaws.WeeklyIsExact` | plugins/ics/src/detail/recurrence.cpp:154-212 | For INTERVAL >= 1 and any BYDAY the weekly starts are, each once, exactly the wanted DTSTART + 24h * n whose 7-day block from DTSTART is a multiple of INTERVAL below 520 and whose calendar weekday is asked for. |
| `RecurrenceLaws.WeeklyIsDayScan` | plugins/ics/src/detail/recurrence.cpp:154-212 | For INTERVAL=1 the weekly starts are those of a day-by-day scan of 3640 days for the asked weekdays, as in section 3.3.10 of RFC 5545. |
| `RecurrenceLaws.PlainWeeklyIsExact` | plugins/ics/src/detail/recurrence.cpp:162-172 | Without BYDAY the weekly starts are exactly the wanted DTSTART + 7 * i * INTERVAL days with i < 520. |
| `RecurrenceLaws.WeeklyMeetsRfcIff` | plugins/ics/src/detail/recurrence.cpp:174-195 | Blocks anchored at DTSTART pick the same days as the standard's Monday-based weeks if and only if INTERVAL is 1 or no asked weekday precedes DTSTART's in the week. |
| `RecurrenceLaws.MonthlyIsExact` | plugins/ics/src/detail/recurrence.cpp:214-252 | For INTERVAL >= 1 the monthly starts are strictly increasing and exactly the slots of 24 steps up to deadline and UNTIL that are not excluded; the start of the window plays no part. |
| `RecurrenceLaws.MonthlySlotDate` | plugins/ics/src/detail/recurrence.cpp:225-234 | In the Gregorian calendar slot i is local midnight of DTSTART's day in the i-th month, or, where that month is too short, of the surplus day of the next month. |
| `RecurrenceLaws.MonthlyMeetsRfcIff` | plugins/ics/src/detail/recurrence.cpp:225-238 | A monthly slot is the standard's occurrence if and only if the month has DTSTART's day and DTSTART is at local midnight. |
| `RecurrenceLaws.MonthlyStaysInWindowIff` | plugins/ics/src/detail/recurrence.cpp:225-249 | The monthly starts all lie in the window if and only if no slot before it is within deadline and UNTIL and not excluded; where local midnight of DTSTART's day is not excluded, if and only if that midnight is in the window, past the deadline or past UNTIL. |
| `RecurrenceLaws.MonthlyPrecedesWindow` | plugins/ics/src/detail/recurrence.cpp:225-249 | A monthly event whose DTSTART is still to come, after a midnight already past, starts before the window. |
| `RecurrenceLaws.TenIsEmittedAtMidnight` | plugins/ics/src/detail/recurrence.cpp:225-249 | An event of ten o'clock repeated every month, seen at nine on its first day, starts at midnight. |
| `LimitLaws.LimitLosesNothingIff` | plugins/ics/src/detail/recurrence.cpp:126-252 | The limits of 365 days, 520 weeks and 24 months count from DTSTART: for INTERVAL >= 1 they lose nothing of the endless series if and only if none of its later slots is taken. |
| `LimitLaws.OldSeriesIsEmpty` | plugins/ics/src/detail/recurrence.cpp:126-152 | A daily series whose 365 steps all lie before the window emits nothing. |
| `LimitLaws.OldDailyEventIsLost` | plugins/ics/src/detail/recurrence.cpp:126-152 | A daily event of 1 January 1970 shows nothing in a window from day 400 on, though day 450 is one of its series. |
| `Rrule.ParseRruleData` | plugins/ics/src/detail/recurrence.cpp:11-82 | The four searches and the BYDAY loop give the rule of the text, or the exception that reading its INTERVAL or UNTIL throws. |
| `Rrule.RuleThrowsIff` | plugins/ics/src/detail/recurrence.cpp:36-51 | Reading a rule throws if and only if its INTERVAL is beyond int, which is out of range whatever else it says, or its UNTIL has no date-time at its front. |
| `RruleLaws.SearchRule` | plugins/ics/src/detail/recurrence.cpp:17-41 | Each pattern finds the value of the first part of its own key, whatever parts stand before and behind it. |
| `RruleLaws.BydayListReads` | plugins/ics/src/detail/recurrence.cpp:58-79 | A BYDAY list of any names in capitals and digits sets exactly the weekdays named in it: a weekday with an ordinal, such as 2MO, is dropped. |
| `RruleLaws.ParseInvertsPrint` | plugins/ics/src/detail/recurrence.cpp:11-82 | Any list of printed parts, in any order and with any repetitions, parses to what its first part of each key says; unknown parts and an UNTIL given as a date count for nothing. |
| `RruleLaws.RuleRoundTrip` | plugins/ics/src/detail/recurrence.cpp:11-82 | For every rule (frequency, INTERVAL, optional UNTIL with or without Z, weekdays) and every order of its printed parts, with foreign parts in between, parsing returns the rule. |
| `DepartureLaws.IgnoredPartEndsNothing` | plugins/ics/src/detail/recurrence.cpp:17-51 | COUNT=n, a date UNTIL or any foreign part, anywhere in a rule, leaves the parsed rule and the starts of the series as they are without it. |
| `LimitLaws.UntilHoldsIff` | plugins/ics/src/detail/recurrence.cpp:43-51 | A series whose UNTIL is ignored is the one that ends there if and only if none of its slots after the bound (of 365 days, 3640 days of weeks or 24 months) is taken. |
| `LimitLaws.UntilHoldsOnDaysIff` | plugins/ics/src/detail/recurrence.cpp:43-51 | For INTERVAL >= 1 the same from DTSTART, INTERVAL, BYDAY, window and EXDATE: no step, asked day or month of the series lies after the bound and is wanted. |
| `DepartureLaws.DateUntilHoldsIff` | plugins/ics/src/detail/recurrence.cpp:19-51 | A rule text with UNTIL as a date, anywhere in it, gives the series that ends with the last second of that local day if and only if no slot of the series after the day is taken. |
| `DepartureLaws.UntilOfTwoDaysRepeats` | plugins/ics/src/detail/recurrence.cpp:19-51 | FREQ=DAILY;UNTIL=19700102 from the start of 1970 gives 365 starts in a window of a year, not the series up to that day. |
| `LimitLaws.CountHoldsIff` | plugins/ics/src/detail/recurrence.cpp:126-152 | A daily or monthly series whose COUNT=n is ignored is that of its first n steps, for every n, if and only if no step between the n-th and the 365th or 24th is taken, whichever of the two comes first. |
| `LimitLaws.WeeklyCountHoldsIff` | plugins/ics/src/detail/recurrence.cpp:154-212 | A weekly series whose COUNT=k is ignored emits exactly its first k asked days if and only if no wanted day is among the k but past the 520 blocks, or within those but not among the k. |
| `LimitLaws.RankGrows` | plugins/ics/src/detail/recurrence.cpp:154-212 | The rank by which COUNT takes the asked days of a weekly series is strictly increasing from one to the next. |
| `DepartureLaws.CountOfOneRepeats` | plugins/ics/src/detail/recurrence.cpp:11-82 | FREQ=DAILY;COUNT=1 gives 365 starts in a window of a year. |
| `Civil.DayNumberCountsDays` | plugins/ics/src/detail/datetime.cpp:81-97 | The day count under mktime is the calendar's: 0 at 1970-01-01 and one more at each following Gregorian date. |
| `Civil.DateOfInvertsDayNumber` | plugins/ics/src/detail/datetime.cpp:126-131 | Day numbers and dates are inverse, leap years and centuries included. |
| `Civil.MkgmtimeInvertsGmtime` | plugins/ics/src/detail/datetime.cpp:84-97 | Breaking an instant into civil time and joining it again is the identity, for every instant. |
| `Civil.GmtimeInvertsMkgmtime` | plugins/ics/src/detail/datetime.cpp:84-97 | Joining a normalised civil time and breaking it up again is the identity. |
| `Civil.WeekdaysFollow` | plugins/ics/src/detail/recurrence.cpp:168-185 | Weekdays are numbered from Monday, 1, to Sunday, 7: 1970-01-01 was a Thursday and each day has the next number. |
| `Civil.MonthStartGrows` | plugins/ics/src/detail/recurrence.cpp:229-234 | A month index that is k larger starts at least 28k days later, over any number of years. |
| `DateTime.ParseInvertsFormat` | plugins/ics/src/detail/datetime.cpp:126-133 | For every instant in a four-digit local year, parsing its printed local time gives it back, except for the one second that is mktime's error value. |
| `DateTime.KeyIsInjective` | plugins/ics/src/detail/datetime.cpp:126-133 | Distinct instants never print alike, so a key names one occurrence. |
| `DateTime.StampReadsBack` | plugins/ics/src/detail/datetime.cpp:105-124 | Any UTC time of a year up to 9999, printed, reads back as its instant, save -1, both as a stamp and as a UTC value. |
| `DateTime.StampIsForgiving` | plugins/ics/src/detail/datetime.cpp:105-124 | A stamp ending in Z is read as the UTC value it is, whatever the parameters of that, and is no time exactly where that reading throws. |
| `DateTime.StampNeedsNoZ` | plugins/ics/src/detail/datetime.cpp:105-124 | A stamp without Z is the same time, and one shorter than a date-time is none. |
| `DateTime.DateReadsBack` | plugins/ics/src/detail/datetime.cpp:61-68 | A date, with or without VALUE=DATE, reads back as local midnight of the day. |
| `DateTime.ReadWallInvertsStampText` | plugins/ics/src/detail/datetime.cpp:69-77 | The fixed columns of a printed date-time read back as its fields, whatever follows. |
| `DateTime.TzidShiftsUtc` | plugins/ics/src/detail/datetime.cpp:85-102 | A wall time with a TZID of known offset k hours is the same wall time with Z minus 3600k, when neither is the -1 sentinel; both throw on the same texts. |
| `DateTime.ZonedTimeReads` | plugins/ics/src/detail/datetime.cpp:85-102 | A wall time with a TZID is its UTC reading less the hours that the calendar defines for the name; for a name it does not define, less those of the name's row in the table, in whatever case; under any other name it is local time. |
| `DateTime.MoscowReads` | plugins/ics/src/detail/timezone.cpp:76-99 | TZID=Europe/Moscow without a VTIMEZONE is three hours ahead of UTC. |
| `DateTime.ShortValueReads` | plugins/ics/src/detail/datetime.cpp:56-102 | A value that is neither a date nor as long as a date-time is read as the last day of 1899, in UTC, in its zone or locally. |
| `DateTime.ZonedDateReads` | plugins/ics/src/detail/datetime.cpp:24-37 | A date with a TZID and without VALUE=DATE is such a value. |
| `DateTime.ValueParameterIgnoresTzid` | plugins/ics/src/detail/datetime.cpp:24-26 | VALUE=DATE anywhere in the parameters, also as part of VALUE=DATE-TIME, makes a date-time local: the value parsed is the one its TZID gives if and only if that zone's offset is the local one; both throw on the same texts. |
| `Timezone.Resolver.CollectVtimezones` | plugins/ics/src/detail/timezone.cpp:32-74 | The line loop leaves in the resolver exactly the offsets of the scan of the text, whatever it held before. |
| `Timezone.OffsetIsNearest` | plugins/ics/src/detail/timezone.cpp:9-30 | For well-formed +HHMM and -HHMM the hours kept are within 30 minutes of the offset, and equal to it if and only if the minutes are 00. |
| `Timezone.OffsetIsUnknownIff` | plugins/ics/src/detail/timezone.cpp:9-30 | A TZOFFSETTO is unknown if and only if it is shorter than five characters or one of its two pairs does not begin like a number. |
| `Timezone.OffsetIsDefinedOrTabled` | plugins/ics/src/detail/timezone.cpp:76-106 | A name the calendar defines has the hours defined; another has those of the first row of the table with that name in any case; without either it is unknown. |
| `Timezone.DaylightDoesNotMatter` | plugins/ics/src/detail/timezone.cpp:60-73 | Calendars that differ only in TZOFFSETTO values behind a BEGIN:DAYLIGHT give the same resolver map. |
| `ZoneRecords.ZonesAreLastRecords` | plugins/ics/src/detail/timezone.cpp:32-74 | Of any text whatever, a TZID has an offset in the map if and only if the last component that ends with this name and a known standard offset has it as its last STANDARD offset. |
| `CalendarLaws.DefinedZoneReads` | plugins/ics/src/detail/timezone.cpp:32-106 | From the text to the instant: a wall time is shifted by the standard offset of the last component of the text that ends with the name of its zone and a known one. |
| `CalendarLaws.ZonedInstantIs` | plugins/ics/src/detail/timezone.cpp:32-106 | Beside printed components a printed time in a zone means the standard offset of the last of them that has its name and a known offset. |
| `TimezoneLaws.ZonesReadBack` | plugins/ics/src/detail/timezone.cpp:32-74 | From the content lines of any calendar with VTIMEZONE components in it (any lines between them, any lines of no use in them) each TZID is recorded with the last STANDARD offset of its last component that has one. |
| `TimezoneLaws.FoldedZonesReadBack` | plugins/ics/src/detail/timezone.cpp:32-74 | The same from the text, with LF or CRLF, folded anywhere but in lines that matter where they stand. |
| `TimezoneLaws.FoldedNameReadsBackIff` | plugins/ics/src/detail/pipeline.cpp:85-89 | The scan comes before unfolding: in any calendar a folded TZID is recorded as its first physical line reads; where no other component has its name, under its own if and only if that line holds all of it. |
| `TimezoneLaws.FoldedNameIsLost` | plugins/ics/src/detail/pipeline.cpp:85-89 | A zone ABC whose TZID line is folded after AB is recorded as AB only. |
| `TimezoneLaws.FoldedOffsetReadsBackIff` | plugins/ics/src/detail/pipeline.cpp:85-89 | A zone with one STANDARD offset, its TZOFFSETTO line folded, is recorded with that offset if and only if the first physical line holds all of it, and else not at all. |
| `TextUtils.Unescape` | plugins/ics/src/detail/text_utils.cpp:23-47 | The index-skipping loop computes the left-to-right reading of the escapes, a lone backslash kept. |
| `TextUtils.UnescapeInvertsEscape` | plugins/ics/src/detail/text_utils.cpp:23-47 | Escaping any text as section 3.3.11 of RFC 5545 asks and unescaping it is the identity. |
| `TextUtils.EscapesRead` | plugins/ics/src/detail/text_utils.cpp:23-47 | A backslash with n or N is a line end, with comma, semicolon or backslash that character; before anything else, or at the end, it stays. |
| `TextUtils.Unfold` | plugins/ics/src/detail/text_utils.cpp:49-73 | The getline loop computes the unfolding of the physical lines. |
| `TextUtils.UnfoldInvertsFold` | plugins/ics/src/detail/text_utils.cpp:49-73 | Content lines folded anywhere past their first character, with space or tab and CRLF or LF, unfold to the same lines; the last line end is missing if and only if the last line was folded. |
| `TextUtils.CutLineReadsBack` | plugins/ics/src/detail/text_utils.cpp:49-73 | A line cut anywhere past its first character, with LF or CRLF and a space or a tab, unfolds to itself. |
| `TextUtils.BlankLineReads` | plugins/ics/src/detail/text_utils.cpp:49-73 | A blank line is kept as an empty line, but behind a folded line it only ends that line. |
| `TextUtils.SplitInvertsPrint` | plugins/ics/src/detail/text_utils.cpp:75-95 | KEY;params:value splits into key, parameters and value again, also when the value has colons and semicolons. |
| `TextUtils.KeysAreCaseless` | plugins/ics/src/detail/text_utils.cpp:75-95 | The name of a property may be written in either case. |
| `Text.UpperFoldsCase` | plugins/ics/src/detail/text_utils.cpp:17-21 | Two texts are alike in upper case if and only if they differ at most in the case of their letters. |
| `Text.TrimCutsBlanks` | plugins/ics/src/detail/text_utils.cpp:9-15 | What trimming leaves is a slice of the text, with nothing but spaces, tabs and line ends before and behind it and none of them at its ends. |
| `Text.TrimIsIdempotent` | plugins/ics/src/detail/text_utils.cpp:9-15 | A trimmed text is empty or has no blank at its ends, and a text without them is left alone. |
| `Scanner.CollectRawEvents` | plugins/ics/src/detail/pipeline.cpp:20-77 | The line state machine returns the raw events built from the blocks it closes, in order, without those lacking a UID, or the first exception of the builder. |
| `Scanner.RunStaysConsistent` | plugins/ics/src/detail/pipeline.cpp:26-73 | Along every run, outside an event both line buffers are empty, and being in an alarm implies being in an event. |
| `Scanner.RawsThrowIff` | plugins/ics/src/detail/pipeline.cpp:20-77 | The scan throws if and only if some block cannot be built, and then what the first of those throws. |
| `Scanner.RawsMember` | plugins/ics/src/detail/pipeline.cpp:26-39 | Where none throws, the raw events are exactly those of the blocks that have a UID. |
| `Scanner.RunIgnoresBlanks` | plugins/ics/src/detail/pipeline.cpp:41-44 | Lines are scanned as they are without the blanks around them. |
| `Scanner.BeginStartsAfresh` | plugins/ics/src/detail/pipeline.cpp:46-52 | Anywhere in a calendar BEGIN:VEVENT starts afresh: an event that was not closed is forgotten. |
| `Scanner.EndEndsAll` | plugins/ics/src/detail/pipeline.cpp:53-58 | Anywhere in a calendar END:VEVENT ends all that is open, an alarm too: what follows is scanned as a calendar of its own. |
| `Scanner.ScanInvertsFoldedPrint` | plugins/ics/src/detail/pipeline.cpp:20-77 | Any calendar of VEVENTs, folded in any way, reaches the builder as exactly each event's own lines in order and the lines of its last VALARM. |
| `CalendarLaws.CalendarReadsBack` | plugins/ics/src/detail/pipeline.cpp:81-92 | Print events from values (properties of every kind in any order, dates, UTC, local and zoned times, rules, exclusions, alarms) and fold the text anywhere: reading gives back exactly the raw events described, times in named zones by the offsets recorded of the text. |
| `CalendarLaws.CalendarWithZonesReadsBack` | plugins/ics/src/detail/pipeline.cpp:81-92 | With any VTIMEZONE components among the events, not folded in their own lines, those offsets are the ones the components state. |
| `CalendarLaws.PropsReadBack` | plugins/ics/src/detail/event_builder.cpp:101-177 | Any list of printed properties builds the event they describe: of a repeated property the last, excluded dates added up; a number that is none, a line without a colon and an unknown name change nothing. |
| `AlarmLaws.AlarmReadsBack` | plugins/ics/src/detail/event_builder.cpp:13-81 | A printed VALARM, its properties in any order, repeated or left out, among lines that mean nothing, builds the alarm it describes, none without a trigger. |
| `EventBuilder.Build` | plugins/ics/src/detail/event_builder.cpp:101-183 | The loop over content lines and then the alarm give the raw event of the lines, or the first exception met. |
| `EventBuilder.BuildThrows` | plugins/ics/src/detail/event_builder.cpp:101-183 | The first line that throws decides what is thrown; where no line does, the alarm. |
| `EventBuilder.SetFromLine` | plugins/ics/src/detail/event_builder.cpp:115-176 | Each property line sets its own field of the raw event and leaves every other as it was; only dates and rules throw. |
| `CalendarLaws.ValueReadsBack` | plugins/ics/src/detail/event_builder.cpp:115-176 | The field set from a printed property is the value it was printed from: a summary without blanks around it, a RECURRENCE-ID behind its last colon, parameters cut at the next semicolon. |
| `EventBuilder.ReadExdates` | plugins/ics/src/detail/event_builder.cpp:165-176 | The comma loop collects the trimmed, non-empty pieces of an EXDATE value. |
| `EventBuilder.ExdatesReadBack` | plugins/ics/src/detail/event_builder.cpp:165-176 | Pieces joined by commas are read back as exactly the set of them without the blanks around them; blank ones yield nothing. |
| `EventBuilder.KeyNamesLocalInstant` | plugins/ics/src/detail/recurrence.cpp:84-94 | A date-time key names an instant if and only if that instant has it as local wall time. |
| `EventBuilder.TzidKeyHitsIff` | plugins/ics/src/detail/recurrence.cpp:84-94 | An EXDATE written with a TZID excludes the instant it means if and only if that zone's offset is the local one: the TZID is not read. |
| `EventBuilder.UtcKeyExcludesNothing` | plugins/ics/src/detail/recurrence.cpp:84-94 | An EXDATE in UTC form, ending in Z, excludes no instant at all. |
| `EventBuilder.KeyExcludesIff` | plugins/ics/src/detail/recurrence.cpp:84-94 | A key excludes some instant if and only if it is the printed form of a civil time; so one without a T, such as a date, excludes none. |
| `DepartureLaws.StatusVanishesIff` | plugins/ics/src/detail/event_builder.cpp:131-138 | Adding STATUS:value at the end of any event leaves all else that is selected as it is; an event that showed anything vanishes if and only if the value reads CANCELED in any case; the standard's CANCELLED only makes it confirmed. |
| `Alarms.ParseAlarm` | plugins/ics/src/detail/event_builder.cpp:13-81 | The loop over alarm lines keeps the last value of each property, and adds one alarm if there is a trigger; its minutes stay unset where that is no duration. |
| `Alarms.TriggerReadsBack` | plugins/ics/src/detail/event_builder.cpp:47-78 | Any printed duration of days, hours and minutes, each optional, reads as d*1440 + h*60 + m minutes with and without the leading minus: so with the sign it should have if and only if there is no minus or the duration is zero. |
| `Alarms.TriggerUnsetIff` | plugins/ics/src/detail/event_builder.cpp:47-78 | The minutes stay unset if and only if the trigger, but for a minus sign, does not begin with P: also for a duration with a plus sign. |
| `Alarms.AlarmLineIsForgiving` | plugins/ics/src/detail/event_builder.cpp:18-38 | An alarm line may have its name in either case and blanks around name and value. |
| `Alarms.ParameterHidesProperty` | plugins/ics/src/detail/event_builder.cpp:23-38 | A parameter, as in TRIGGER;RELATED=END, hides a property of an alarm. |
| `Alarms.WeeksReadAsMinutes` | plugins/ics/src/detail/event_builder.cpp:53-75 | A trigger of n weeks reads as n minutes, right if and only if n is 0. |
| `Selection.WindowStartsNow` | plugins/ics/src/detail/window.cpp:7-12 | A window from now admits exactly the instants from now to the horizon, to the clock tick. |
| `Selection.WindowStartsAtMidnight` | plugins/ics/src/detail/window.cpp:7-25 | The window from day start begins at the last local midnight, less than a day before now and on the same local day, and ends at the horizon. |
| `Selection.BuildIndex` | plugins/ics/src/detail/override_applier.cpp:5-12 | The index maps each UID to exactly its overrides, in order, and has no other key. |
| `Selection.IsOverridden` | plugins/ics/src/detail/override_applier.cpp:14-23 | The search answers whether the UID's list holds the key. |
| `Selection.IndexAnswersAsScan` | plugins/ics/src/detail/override_applier.cpp:14-23 | Looking a key up in the index answers exactly as a scan of all raw events would. |
| `Selection.AddInWindowOverrides` | plugins/ics/src/detail/override_applier.cpp:25-35 | The loop appends exactly the overrides that are not cancelled and start in the window, in order. |
| `Pipeline.ApplyRepeatMetadata` | plugins/ics/src/detail/recurrence.cpp:96-110 | The metadata of a series say its frequency, interval, weekday bits and, if there is one, its UNTIL; all other fields are kept. |
| `Pipeline.ExpandMaster` | plugins/ics/src/detail/pipeline.cpp:108-120 | The instances of a master that no raw event overrides are appended, and only those. |
| `Pipeline.SortByStart` | plugins/ics/src/detail/pipeline.cpp:130-132 | A permutation of the events in ascending order of start. |
| `Pipeline.ParseCalendarAt` | plugins/ics/src/detail/pipeline.cpp:81-135 | The result is a start-sorted permutation of the sum, over all raw events, of what each contributes as a single event, as a series less its overridden slots, or as an override; or the exception reading the text throws. `SelectedIff` and `SelectedAsShown` say what that sum is. |
| `PipelineLaws.SelectedIff` | plugins/ics/src/detail/pipeline.cpp:102-127 | An event is in the result if and only if it is a non-cancelled in-window single event or override as it stands, or an emitted, not overridden occurrence of a non-cancelled series. |
| `PipelineLaws.SelectedAsShown` | plugins/ics/src/detail/pipeline.cpp:102-127 | Each event is in the result as often as there are raw events that show it, where no series emits a start twice: an override appears once. |
| `PipelineLaws.PositiveIntervalsEmitOnce` | plugins/ics/src/detail/recurrence.cpp:36-38 | With INTERVAL >= 1 throughout no series emits a start twice. |
| `PipelineLaws.OccurrenceIsLikeEvent` | plugins/ics/src/detail/recurrence.cpp:96-152 | Every occurrence lasts as long as the event of its series and agrees with it in every other field, but for the frequency, interval, weekdays and end of the rule that it carries. |
| `PipelineLaws.SelectedIsInBounds` | plugins/ics/src/detail/pipeline.cpp:102-127 | Every start is at or before the deadline, and in the window unless it came from a monthly rule. |
| `PipelineLaws.SelectedIsNotCanceled` | plugins/ics/src/detail/pipeline.cpp:102-127 | No selected event is cancelled. |
| `PipelineLaws.OverrideReplacesSlot` | plugins/ics/src/detail/override_applier.cpp:14-35 | A RECURRENCE-ID silences its series at the one instant with that local wall time and at no other; the override itself appears if and only if it is not cancelled and in the window. |
| `PipelineLaws.DailySeriesShows` | plugins/ics/src/detail/pipeline.cpp:108-120 | End to end, what a daily series shows: of its first 365 steps those in the window, not after UNTIL, and named neither by an EXDATE nor by a RECURRENCE-ID of its UID. |
| `PipelineLaws.WeeklySeriesShows` | plugins/ics/src/detail/pipeline.cpp:108-120 | End to end, what a weekly series shows: asked weekdays of every INTERVAL-th 7-day block, in the window, not after UNTIL, neither excluded nor overridden. |
| `PipelineLaws.MonthlySeriesShows` | plugins/ics/src/detail/pipeline.cpp:108-120 | End to end, what a monthly series shows: of the local midnights of its day in 24 months those not past the deadline or UNTIL, neither excluded nor overridden. |
| `PipelineLaws.YearlySeriesShowsNothing` | plugins/ics/src/detail/recurrence.cpp:261-269 | A yearly series shows nothing. |
| `Cache.IcsCache.Get` | plugins/ics/src/cache.cpp:57-63 | Succeeds if and only if there is an entry younger than the time-to-live, and then fills the output with its content, else leaves it. |
| `Cache.IcsCache.GetStale` | plugins/ics/src/cache.cpp:65-71 | The same with both limits added. |
| `Cache.IcsCache.Put` | plugins/ics/src/cache.cpp:87-89 | Sets one entry, stamped now, and changes no other. |
| `Cache.IcsCache.Save` | plugins/ics/src/cache.cpp:103-123 | The file holds four lines for each entry of the store, in ascending order of URL. |
| `Cache.FileIsUnique` | plugins/ics/src/cache.cpp:103-123 | A cache has exactly one such file. |
| `Cache.IcsCache.Load` | plugins/ics/src/cache.cpp:125-175 | The four-state loop replaces the store by the entries of the file; a bad number throws and leaves the entries before it. |
| `Cache.LoadsIff` | plugins/ics/src/cache.cpp:125-175 | A file loads if and only if every second line of four is a number that fits the hash and every third one that fits the time. |
| `Cache.LoadHoldsLastGroups` | plugins/ics/src/cache.cpp:125-175 | A file that loads holds for each URL the content and time of the last whole group of four lines that begins with it, and nothing else. |
| `Cache.LoadRestoresIff` | plugins/ics/src/cache.cpp:103-175 | Loading the file of a cache restores every URL and content, with times cut to seconds, if and only if no URL and no content has a line break. |
| `Cache.RestoredIsNoYounger` | plugins/ics/src/cache.cpp:43-51 | An entry fetched since the epoch is fresh, or usable, after reloading only if it was before, and loses less than a second. |
| `EventManager.EventManager.FetchText` | plugins/ics/src/event_manager.cpp:60-86 | One URL: fresh cache, else the network and a store of what is not empty, else the stale entry. |
| `EventManager.EventManager.LoadFromSources` | plugins/ics/src/event_manager.cpp:49-97 | A load leaves the cache and the fetched events of loading the URLs one by one; an exception of the parser ends it with what was gathered before. `LoadContinuesRun` says which events those are. |
| `EventManager.EventManager.GetNextEvents` | plugins/ics/src/event_manager.cpp:105-125 | After a load, exactly the manual and fetched events that start in the window and end after now, each as often as it is there, sorted by start; a cancelled one is among them if and only if a cancelled manual event is next. |
| `EventManager.LoadedIsNotCanceled` | plugins/ics/src/event_manager.cpp:49-97 | No event fetched by a load is cancelled. |
| `NextEvents.UpcomingIff` | plugins/ics/src/event_manager.cpp:108-118 | An event is next if and only if it has a start, is not over, and starts no later than the horizon and no earlier than now or, if asked for, the last local midnight. |
| `NextEvents.FirstDayIsMissed` | plugins/ics/src/event_manager.cpp:114-118 | On the first day of a monthly series, once local midnight has passed, nothing of it is next, even while DTSTART is still to come. |
| `EventManager.EventManager.AddCalendarUrl` | plugins/ics/src/event_manager.cpp:41-43 | The registered URLs are the ones before and this one, distinct and in ascending order. |
| `LoaderRuns.CacheIsLastFetch` | plugins/ics/src/event_manager.cpp:64-74 | Along every run from an empty cache, each entry is the last non-empty response fetched for its URL with the time of storing it, and there are no other entries. |
| `LoaderRuns.AskedIff` | plugins/ics/src/event_manager.cpp:60-74 | A URL is fetched if and only if no response stored last for it is younger than the time-to-live. |
| `LoaderRuns.TextIs` | plugins/ics/src/event_manager.cpp:60-86 | What is parsed, by the clock: the response stored last while it is younger than ttl; else the answer of the network; and where that is empty, the response stored last while it is younger than ttl + stale_ttl, else nothing. |
| `LoaderRuns.StoresAreApart` | plugins/ics/src/event_manager.cpp:64-74 | With a clock that never goes back, two stores for one URL are at least the time-to-live apart. |
| `LoaderRuns.TextsAreRecent` | plugins/ics/src/event_manager.cpp:60-86 | Every text parsed was fetched in that step, or is a stored response for the URL younger than ttl (first answer) or ttl + stale_ttl (after a failed fetch). |
| `LoaderRuns.FailureKeepsCache` | plugins/ics/src/event_manager.cpp:69-74 | A failed fetch, and a cache hit, never change the cache. |
| `LoaderRuns.UsableEntryYieldsText` | plugins/ics/src/event_manager.cpp:76-86 | While a usable entry exists a failed fetch still yields a text. |
| `LoaderRuns.LoadContinuesRun` | plugins/ics/src/event_manager.cpp:49-97 | A load of all URLs is a continuation of a run, up to the first text that throws, whose exception it ends with. It gathers each event exactly as often as the texts of those steps select it, all together. |
| `LoaderRuns.StoreIsReached` | plugins/ics/src/cache.cpp:125-175 | Every cache without empty contents, such as one read from its file, is that of some run, so what holds along runs holds for loads that begin with it. |
| `Base64.EncodeBase64` | plugins/jenkins/src/client.cpp:17-56 | The buffered loop computes Base64 of the bytes; the text has 4 * ceil(n / 3) characters. |
| `Base64.SextetsAreSixBitGroups` | plugins/jenkins/src/client.cpp:27-30 | The masks and shifts cut the 24-bit group of three bytes into its four 6-bit groups (section 4 of RFC 4648). |
| `Base64.DecodeInvertsEncode` | plugins/jenkins/src/client.cpp:17-56 | A decoder by the same section recovers every byte string, padding included. |
| `Base64.PrepareAuthorization` | plugins/jenkins/src/client.cpp:63-69 | The header is Basic and the Base64 of user name, colon and token. |
| `Base64.CredentialsReadBackIff` | plugins/jenkins/src/client.cpp:63-69 | Dividing the decoded header at its first colon gives user name and token if and only if the user name has no colon (section 2 of RFC 7617). |
| `SettingsStore.JsonBackend.DoUpsertAccount` | storage/src/json_backend.cpp:92-103 | The first account of the service is replaced in place, or the account is appended. |
| `SettingsStore.JsonBackend.GetAccount` | storage/src/json_backend.cpp:105-112 | The account the keyed table holds for the service, or none. |
| `SettingsStore.JsonBackend.ListAccounts` | storage/src/json_backend.cpp:114-120 | The accounts in the order of the array. |
| `SettingsStore.JsonBackend.DoDeleteAccount` | storage/src/json_backend.cpp:122-131 | The first account of the service is erased; nothing else changes. |
| `SettingsStore.JsonBackend.DoUpsertSource` | storage/src/json_backend.cpp:133-144 | The first source of the URL is replaced in place, or the source is appended. |
| `SettingsStore.JsonBackend.DoRemoveSource` | storage/src/json_backend.cpp:160-169 | The first source of the URL is erased; nothing else changes. |
| `SettingsStore.JsonBackend.ListSources` | storage/src/json_backend.cpp:146-158 | The sources of the array, each as often as it is there, by descending priority and then ascending URL; without repeated URLs the listing of the table. |
| `SettingsStore.JsonBackend.GetMeta` | storage/src/json_backend.cpp:183-189 | The value the keyed table holds for the key, or none. |
| `SettingsStore.JsonBackend.ListMeta` | storage/src/json_backend.cpp:191-197 | A listing: every meta entry of the table once, in ascending order of key. |
| `SettingsStore.HistoryRefines` | storage/src/json_backend.cpp:92-202 | From a document with unique keys every history of operations keeps keys unique and agrees with the keyed store. |
| `SettingsStore.StoreIsLastWrite` | storage/src/json_backend.cpp:92-202 | After any history from an empty store a place (account, source or meta key) holds an item if and only if some operation wrote it there and no later one wrote or removed anything there or cleared the store. |
| `SettingsStore.ListingDescends` | storage/src/json_backend.cpp:146-158 | In a listing of sources priorities never rise, and among equal ones the URLs ascend. |
| `Text.LessIff` | storage/src/json_backend.cpp:151-156 | One text is less than another if and only if it is smaller at their first difference, or ends there. |
| `SettingsStore.BackendsListAlike` | storage/src/sqlite_backend.cpp:230-244 | For the same history both backends list the same sources in the same order: such a listing is unique. |
| `SettingsStore.SelectSources` | storage/src/sqlite_backend.cpp:230-244 | The listing ORDER BY priority DESC, url of a keyed table. |
| `SettingsStore.InKeyOrder` | storage/src/sqlite_backend.cpp:279-291 | The listing ORDER BY key of the meta table. |
| `SettingsStore.BackendsListMetaAlike` | storage/src/sqlite_backend.cpp:279-291 | For the same history both backends list the same meta entries in the same order. |
| `SettingsStore.AccountListingsAgreeIff` | storage/src/sqlite_backend.cpp:192-206 | The account listings of the two backends agree if and only if the JSON array happens to be in order of service. |
| `SettingsStore.AccountListingsDiffer` | storage/src/json_backend.cpp:114-120 | Two upserts are enough to make the account listings of the two backends differ. |
| `Tables.UpsertRefines` | storage/src/json_backend.cpp:92-103 | An upsert in an array sets one key of the table it stands for and keeps keys unique. |
| `Tables.RemoveRefines` | storage/src/json_backend.cpp:122-131 | With unique keys an erase takes one key out of the table and keeps keys unique. |
| `Tables.RemoveForgetsIff` | storage/src/json_backend.cpp:122-131 | After an erase the key is gone if and only if no second item has it. |
| `Migrations.Connection.RunInTransaction` | storage/src/sqlite_backend.cpp:108-125 | All or nothing: the script is committed, or the database on disk is as before, whichever step fails; the transaction is left open if and only if the ROLLBACK fails, too. |
| `Migrations.Connection.ApplyMigrations` | storage/src/sqlite_backend.cpp:127-159 | The loop leaves the database, and throws, as applying baseline and due scripts one after the other does. |
| `Migrations.HistoryAppliesPrefix` | storage/src/sqlite_backend.cpp:127-159 | After every return or throw, over any openings by any releases, the applied scripts are the baseline and exactly the non-empty ones up to the stored version, once each, in order. |
| `Migrations.OpensIff` | storage/src/sqlite_backend.cpp:127-159 | An opening throws nothing if and only if the baseline, where it is due, and every non-empty script above the version it starts from succeed, and then reaches the version of each; else it throws for the baseline or for the first script that fails. |
| `Migrations.ReopenChangesNothing` | storage/src/sqlite_backend.cpp:127-159 | Reopening after a success changes nothing and cannot fail. |

## Left out

- Daylight saving and zone databases: the local zone is one constant offset, which
  the 24-hour steps of the expanders also assume.
- The C runtime's own range limits on dates (some refuse years before 1970 or after
  3000), and what strftime does with years of more than four digits in a 16-byte buffer.
- Overflow of `int` and of chrono ticks when an INTERVAL of millions is multiplied out,
  or when the minutes of an alarm exceed `int`: these products are unbounded here.
- YEARLY, BYMONTHDAY, BYSETPOS and WKST are not expanded by the program; they appear
  only as parts that are ignored.
- The weekday mask is the set of its bits, not a byte.
- `std::sort` is some sort: ties may come out in another order than here.
- The hash in the cache file is written and read but never compared, in the program as
  in the model; a cache without a file path, and the file operations themselves.
- Re-pointing the manager at another source or cache during a run, and
  `get_next_events_scheduled`, which differs only in its filter.
- JSON items that lack fields or carry extra ones, saving the JSON file and its failures,
  and SQLite statements that fail outside a transaction.
- Migrations whose scripts do not set their own version, and a version that cannot be read.
- Divoom handlers, the Jira client, Jenkins builds, HTTP, service lifecycle and display.
