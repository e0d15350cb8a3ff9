# snail_trader data pipeline, modelled in Dafny

This project models the bookkeeping core of the snail_trader trading system:

- the integrity checker, which finds the missing candle buckets of a query window and turns them into gaps and repair ranges;
- the data access layer, which decides from that report what to fetch from the exchange, collects the fetches, merges them with the local rows and writes them back by date;
- the symbol metadata table, which classifies why data is missing;
- the query value types;
- the bulk downloader's task tracker, path builders and task generator;
- the rolling windows and indicator caches of the two indicator engines;
- the virtual clock of backtests.

Every core file is one module:

| module | file |
|---|---|
| `IntegrityChecker` | `utils/data_integrity_checker.py` |
| `DataAccess` | `services/data_access_layer.py` |
| `SymbolMetadata` | `utils/symbol_metadata.py` |
| `DataQuery` | `utils/data_query.py` |
| `TaskTracker` | `binance-db/src/task_tracker.py` |
| `DownloadUtils` | `binance-db/src/utils.py` |
| `TaskGenerator` | `binance-db/src/task_generator.py` |
| `IndicatorService` | `services/indicator_engine.py` |
| `Indicators` | `indicators/engine.py` |
| `TimeManagement` | `utils/time_manager.py` |

The other modules support them:

- `IndicatorCommon` holds what both indicator engines share. That is the bounded deque, the `_should_update` throttle, the timestamp cache with its eviction, and the default indicator configurations of `indicators/types.py`.
- `Calendar` holds instants and the proleptic Gregorian calendar.
- `Sorting` holds a stable sort by key.
- `Wrappers` holds `Option` and `Result`.

Conventions:

- An instant is an integer count of microseconds since the Unix epoch, in UTC.
- Exchange records carry their open and close times in milliseconds.
- Dictionaries the source mutates are `map`s, or sequences of entries where insertion order matters.
- Objects whose fields change in place are classes. Their methods are proved against functions of the old state.
- An exception the source raises is an `Err` of `Result`, named after the Python exception.
- The wall clock, "today", the local time zone's offset and everything fetched over the network are parameters.

## Model

| member | source | states |
|---|---|---|
| Calendar.FromMillis | utils/data_integrity_checker.py:218-220 | the instant of a millisecond open time is that many thousand microseconds after the epoch |
| Calendar.Midnight | utils/symbol_metadata.py:45-47 | midnight UTC of a calendar day lies on a day boundary and belongs to that day |
| Calendar.LocalDay | services/data_access_layer.py:108-110 | the local calendar day of an instant is the day whose 86400 seconds contain the instant shifted by the zone offset |
| Calendar.DaysInMonth | binance-db/src/utils.py:33 | every month has 28 to 31 days |
| Calendar.PaddedValue | binance-db/src/utils.py:32 | a zero-padded decimal field reads back as the number it was written from |
| Calendar.FormatDate | binance-db/src/utils.py:32 | `%Y-%m-%d` gives ten characters with dashes at positions 4 and 7 |
| Calendar.MonthField | binance-db/src/utils.py:26-27 | the `%m` group tries 10 to 12, then 01 to 09, then 1 to 9, each only with a "-" after it, and reads a month from 1 to 12 |
| Calendar.DayField | binance-db/src/utils.py:26-27 | the `%d` group reads the first of 30 or 31, 10 to 29, 01 to 09, 1 to 9, or a space and 1 to 9 at the front of the text, a day from 1 to 31 |
| Calendar.ParseDate | binance-db/src/utils.py:26-27 | `strptime(s, "%Y-%m-%d")` succeeds only with a valid calendar date; leftover text, a mismatch, or an impossible date is its ValueError |
| Calendar.MonthFieldOfText | binance-db/src/utils.py:26-27 | the `%m` group reads each text of a month, two digits or one below 10, as that month |
| Calendar.DayFieldOfText | binance-db/src/utils.py:26-27 | the `%d` group reads each text of a day, two digits, or below 10 one digit or a space and a digit, as that day |
| Calendar.MonthTextOfField | binance-db/src/utils.py:26-27 | what the `%m` group reads is one of the texts of the month it gives |
| Calendar.DayTextOfField | binance-db/src/utils.py:26-27 | what the `%d` group reads as the whole rest of the text is one of the texts of the day it gives |
| Calendar.DigitsPadded | binance-db/src/utils.py:26-32 | a digit string is the zero-padded text of its own value |
| Calendar.ParseSpelling | binance-db/src/utils.py:26-27 | every spelling of a valid date, with a padded or unpadded month and a zero-, space- or unpadded day, parses to that date |
| Calendar.ParsedSpells | binance-db/src/utils.py:26-27 | whatever parses to a date is a valid date and one of its spellings |
| Calendar.ParseDateSpellings | binance-db/src/utils.py:26-27 | parsing gives a date exactly when the date is valid and the text spells it in a form `%Y-%m-%d` accepts |
| Calendar.ParseDateUnpadded | binance-db/src/utils.py:26-27 | "2024-1-5" parses to 5 January 2024 |
| Calendar.ParseDateSpacePadded | binance-db/src/utils.py:26-27 | "2024-01- 5" parses to 5 January 2024 |
| Calendar.ParseDateRejectsText | binance-db/src/utils.py:26-27 | month 13 and a day with a digit left over do not parse |
| Calendar.ParseDateRejectsDates | binance-db/src/utils.py:26-27 | 29 February of a common year and year 0 do not parse |
| Calendar.ParseFormatDate | binance-db/src/utils.py:26-32 | parsing a formatted valid date gives that date back |
| Calendar.FormatDateInjective | binance-db/src/utils.py:32 | distinct valid dates have distinct names |
| Calendar.DayName | utils/symbol_metadata.py:114-116 | the name of a calendar day parses back to that day |
| Sorting.InsertByPermutes | utils/data_integrity_checker.py:508 | inserting adds exactly one element to the multiset |
| Sorting.InsertBySorted | utils/data_integrity_checker.py:508 | inserting into a sorted sequence keeps it sorted |
| Sorting.SortBySorts | utils/data_integrity_checker.py:508 | `sorted(..., key=...)` orders by key |
| Sorting.SortByPermutes | utils/data_integrity_checker.py:508 | the sort is a permutation of its input |
| Sorting.SortByStable | services/data_access_layer.py:578 | among elements with equal keys, the sort keeps their input order |
| Sorting.SortBySorted | utils/data_integrity_checker.py:297 | an input already in key order comes back unchanged |
| Sorting.AdjacentSorted | utils/data_integrity_checker.py:297 | order between neighbours gives order between any two elements |
| Sorting.WithKeyMembers | services/data_access_layer.py:578 | the elements of one key are exactly the input's elements with that key |
| Sorting.WithKeyAppend | services/data_access_layer.py:573 | selecting one key distributes over concatenation |
| IntegrityChecker.IntervalMinutes | utils/data_integrity_checker.py:61-72 | the width of every interval name is one the checker aligns to, and an unlisted name counts as 15 minutes |
| IntegrityChecker.WeekFallsBackToQuarterHour | utils/data_integrity_checker.py:61-72 | "1w" counts as 15 minutes; 15m, 1h, 4h and 1d are 15, 60, 240 and 1440 minutes |
| IntegrityChecker.ExpectedRecordsPerDay | utils/data_integrity_checker.py:49-76 | the per-day count is positive, and 96 for any unlisted name |
| IntegrityChecker.RecordsPerDayMatchesWidths | utils/data_integrity_checker.py:49-76 | each listed per-day count times its width is one day; "30m" is unlisted and gets 96 although 48 of its buckets fill a day |
| IntegrityChecker.Width | utils/data_integrity_checker.py:262 | a bucket width is a positive whole number of minutes that divides a day |
| IntegrityChecker.AlignIsFloor | utils/data_integrity_checker.py:266-287 | the component-wise `replace` alignment is the floor to a multiple of the bucket width |
| IntegrityChecker.AlignProperties | utils/data_integrity_checker.py:266-287 | alignment never moves forward, moves back by less than one bucket, lands on a boundary and is idempotent |
| IntegrityChecker.AlignOnBoundary | utils/data_integrity_checker.py:266-287 | an instant on a boundary aligns to itself |
| IntegrityChecker.AlignExample | utils/data_integrity_checker.py:270-284 | 14:23:47.123456 aligns to 14:00, 14:15 and 14:20 for 1h, 15m and 5m |
| IntegrityChecker.WholeMinutes | utils/data_integrity_checker.py:160 | `int(seconds / 60)` is the whole minutes of a duration, truncated toward zero |
| IntegrityChecker.ExpectedRecords | utils/data_integrity_checker.py:157-161 | for a window with start <= end, the expected count is the number of whole buckets that fit in it; a reversed window expects none |
| IntegrityChecker.ExpectedBound | utils/data_integrity_checker.py:157-161 | floor-dividing a duration's whole minutes by the width counts its whole buckets |
| IntegrityChecker.SeriesShape | utils/data_integrity_checker.py:259-262 | the stepping loop starts at its first value, stays below the limit and moves by one width |
| IntegrityChecker.GenerateExpectedTimestamps | utils/data_integrity_checker.py:243-264 | the loop builds the expected bucket starts |
| IntegrityChecker.SeriesIncreasing | utils/data_integrity_checker.py:259-262 | the expected starts are strictly increasing |
| IntegrityChecker.SeriesMembers | utils/data_integrity_checker.py:259-262 | from a boundary, the series holds exactly the boundaries below the limit |
| IntegrityChecker.ExpectedTimestampsMembers | utils/data_integrity_checker.py:243-264 | the expected starts are exactly the boundaries from the start's bucket up to min(end, now); nothing at or after now is expected |
| IntegrityChecker.Buckets | utils/data_integrity_checker.py:214-225 | the present buckets are exactly the aligned open times of the records |
| IntegrityChecker.Missing | utils/data_integrity_checker.py:227-231 | the missing starts are exactly the expected ones that are not present |
| IntegrityChecker.NothingMissing | utils/data_integrity_checker.py:227-231 | nothing is missing when every expected start is present |
| IntegrityChecker.MissingIncreasing | utils/data_integrity_checker.py:227-231 | the missing starts keep the expected order |
| IntegrityChecker.Runs | utils/data_integrity_checker.py:300-327 | the grouping scan yields non-empty runs, none exactly when there is nothing to group |
| IntegrityChecker.RunsSnoc | utils/data_integrity_checker.py:303-319 | each step extends the open run when the timestamp is one width after its last, and otherwise opens a new run |
| IntegrityChecker.RunsStep | utils/data_integrity_checker.py:303-319 | the same step, written with the closed runs and the open group |
| IntegrityChecker.RunsLast | utils/data_integrity_checker.py:321-327 | the last run ends with the last missing timestamp |
| IntegrityChecker.RunsFlatten | utils/data_integrity_checker.py:300-327 | the runs partition the missing timestamps in order |
| IntegrityChecker.RunsConsecutive | utils/data_integrity_checker.py:308-310 | inside a run, each timestamp is the previous one plus one width |
| IntegrityChecker.RunsMaximal | utils/data_integrity_checker.py:311-319 | a run never starts one width after the end of the run before it |
| IntegrityChecker.RunsMembers | utils/data_integrity_checker.py:300-327 | every timestamp of a run is a missing timestamp |
| IntegrityChecker.RunsOrdered | utils/data_integrity_checker.py:297-327 | over sorted timestamps, each run ends before the next one starts |
| IntegrityChecker.RunCoversBoundaries | utils/data_integrity_checker.py:308-310 | a run of boundaries holds every boundary between its ends |
| IntegrityChecker.CreateGap | utils/data_integrity_checker.py:331-360 | a gap ends one microsecond before the bucket after its last timestamp, and counts its timestamps as expected with none present |
| IntegrityChecker.GroupMissingTimestamps | utils/data_integrity_checker.py:289-329 | the sorting and grouping loop builds the gaps of the runs of the sorted missing timestamps |
| IntegrityChecker.TotalExpectedRuns | utils/data_integrity_checker.py:343-357 | the gaps' expected counts add up to the number of grouped timestamps |
| IntegrityChecker.GroupGapsRuns | utils/data_integrity_checker.py:289-360 | one gap per maximal run: it starts at the run's first bucket, ends just before the bucket after the run, counts the run and has the severity of its length; the counts add up to the missing buckets |
| IntegrityChecker.RunsApart | utils/data_integrity_checker.py:303-319 | consecutive runs of aligned buckets leave at least one present boundary between them |
| IntegrityChecker.GroupGapsDisjoint | utils/data_integrity_checker.py:289-360 | gaps are well formed, sorted and disjoint, with a present bucket between neighbours |
| IntegrityChecker.GroupGapsCoverMissing | utils/data_integrity_checker.py:289-360 | a boundary lies in some gap exactly when it is a missing bucket |
| IntegrityChecker.MissingInSomeGap | utils/data_integrity_checker.py:289-360 | every missing bucket lies in some gap |
| IntegrityChecker.InSomeGapMissing | utils/data_integrity_checker.py:289-360 | every boundary inside a gap is a missing bucket |
| IntegrityChecker.RunHolding | utils/data_integrity_checker.py:300-327 | each missing timestamp lies between the ends of some run |
| IntegrityChecker.CoalesceSnoc | utils/data_integrity_checker.py:513-521 | a gap joins the current range when it starts at most one hour after the range's end, and otherwise opens a new range |
| IntegrityChecker.GenerateRepairRanges | utils/data_integrity_checker.py:501-526 | the merging loop builds the repair ranges of the gaps sorted by start |
| IntegrityChecker.CoalesceNonEmpty | utils/data_integrity_checker.py:510-524 | merging yields some range exactly when there are gaps |
| IntegrityChecker.CoalesceSeparated | utils/data_integrity_checker.py:513-521 | consecutive repair ranges are more than one hour apart |
| IntegrityChecker.CoalesceWellFormed | utils/data_integrity_checker.py:510-524 | ranges built from well-formed gaps start no later than they end |
| IntegrityChecker.WidenKeepsCovered | utils/data_integrity_checker.py:515-516 | widening the current range keeps every gap seen so far covered |
| IntegrityChecker.AppendKeepsCovered | utils/data_integrity_checker.py:518-521 | opening a new range keeps every gap seen so far covered |
| IntegrityChecker.CoalesceLast | utils/data_integrity_checker.py:510-524 | over gaps sorted by start, the last range starts no later than the last gap |
| IntegrityChecker.CoalesceCovers | utils/data_integrity_checker.py:508-524 | over gaps sorted by start, every gap lies inside some repair range |
| IntegrityChecker.RepairRangesProperties | utils/data_integrity_checker.py:501-526 | repair ranges are empty exactly when there are no gaps; otherwise they cover every gap and are in order, more than an hour apart |
| IntegrityChecker.CoalesceSeparatedGaps | utils/data_integrity_checker.py:513-521 | gaps more than an hour apart each become their own range |
| IntegrityChecker.HourlyGapsNeverMerge | utils/data_integrity_checker.py:289-526 | with hourly or longer buckets no two gaps merge: each gap is its own repair range |
| IntegrityChecker.RunsOfTwoPairs | utils/data_integrity_checker.py:303-327 | two pairs of consecutive buckets with a hole between them form two runs |
| IntegrityChecker.HourlyGapsExample | utils/data_integrity_checker.py:289-526 | hours 5, 6, 15 and 16 missing give two low-severity gaps of two buckets and two repair ranges |
| IntegrityChecker.DetectPreciseMissingRecords | utils/data_integrity_checker.py:195-241 | the set-building and subtraction loops give the gaps of the buckets that no record falls in |
| IntegrityChecker.CollectBuckets | utils/data_integrity_checker.py:214-225 | the loop collects the aligned open times of the records |
| IntegrityChecker.CollectMissing | utils/data_integrity_checker.py:227-231 | the loop keeps the expected starts not among the present ones, in order |
| IntegrityChecker.DetectDataGaps | utils/data_integrity_checker.py:163-193 | no records gives one high gap over the window when something is expected; otherwise the precise gaps |
| IntegrityChecker.AnalyzeDataCompleteness | utils/data_integrity_checker.py:78-155 | builds the report of the clipped window: counts, ratio, gaps, repair ranges and flags |
| IntegrityChecker.FutureWindowIsHealthy | utils/data_integrity_checker.py:107-119 | a window starting at or after now expects nothing, is complete and healthy, needs no repair and has no gaps or ranges |
| IntegrityChecker.HealthyNeedsNoRepair | utils/data_integrity_checker.py:139-142 | a healthy report never asks for repair |
| IntegrityChecker.EmptyDataReport | utils/data_integrity_checker.py:127-186 | no local records for an elapsed window: completeness 0, repair needed, and one high gap over the clipped window exactly when something is expected |
| IntegrityChecker.MissingBucketsMembers | utils/data_integrity_checker.py:207-231 | the missing buckets are exactly the boundaries from the start's bucket, before the end and now, that no record falls in; they are sorted and aligned |
| IntegrityChecker.ReportGapsAreMissingBuckets | utils/data_integrity_checker.py:104-241 | with local records, a boundary lies in a reported gap exactly when it is expected before the clipped end and no record falls in it |
| IntegrityChecker.ReportGapsDisjoint | utils/data_integrity_checker.py:195-360 | the precise gaps are sorted and disjoint, and their counts add up to the missing buckets |
| IntegrityChecker.CompleteDataHasNoGaps | utils/data_integrity_checker.py:227-241 | when every expected bucket holds a record there are no gaps |
| IntegrityChecker.CompletenessAtLeastOne | utils/data_integrity_checker.py:128 | at least as many records as expected is a ratio of at least 1 |
| IntegrityChecker.CompleteDataIsHealthy | utils/data_integrity_checker.py:121-142 | an elapsed window with a record in every expected bucket, and at least as many records as expected, is healthy with no gaps and no repair |
| DataQuery.Before | utils/data_query.py:44-78 | subtracting a `timedelta` from a `datetime` gives the difference, or an OverflowError |
| DataQuery.BeforeFailsIffOutOfRange | utils/data_query.py:44-78 | the subtraction fails exactly when the difference leaves the datetime range, since a span too large for a `timedelta` is too large for any `datetime` |
| DataQuery.Ending | utils/data_query.py:44-70 | the range of a span up to now exists exactly when its start is a `datetime`, ends now and has that span; otherwise it is an OverflowError |
| DataQuery.LastMinutes | utils/data_query.py:44-49 | the range ends now and spans that many minutes; it is an OverflowError exactly when its start leaves the datetime range |
| DataQuery.LastHours | utils/data_query.py:51-56 | the range ends now and spans that many hours; it is an OverflowError exactly when its start leaves the datetime range |
| DataQuery.LastDays | utils/data_query.py:58-63 | the range ends now and spans that many days; it is an OverflowError exactly when its start leaves the datetime range |
| DataQuery.LastMonths | utils/data_query.py:65-70 | the range ends now and spans 30 days a month; it is an OverflowError exactly when its start leaves the datetime range |
| DataQuery.LastRangesAgree | utils/data_query.py:44-70 | an hour is 60 minutes, a day 24 hours and a month 30 days for the factories, failures included |
| DataQuery.LastDaysBeyondRange | utils/data_query.py:58-63 | a span of 3652059 days or more, the length of the datetime range, always overflows |
| DataQuery.LastDaysExample | utils/data_query.py:58-63 | at midnight of 1 January 2025 the last 7 days are a range and the last 800000 days an OverflowError |
| DataQuery.IsHistorical | utils/data_query.py:72-74 | true exactly when the range ended more than the threshold before now; an OverflowError exactly when now minus the threshold is not a `datetime` |
| DataQuery.IsRealtime | utils/data_query.py:76-78 | true exactly when the range starts less than the threshold before now; an OverflowError exactly when now minus the threshold is not a `datetime` |
| DataQuery.HistoricalExcludesRealtime | utils/data_query.py:72-78 | a range that starts no later than it ends is never both historical and real-time, and the two tests fail together |
| DataQuery.RecentRangeClassified | utils/data_query.py:44-78 | a recent range is never historical, and it is real-time exactly when the threshold's subtraction succeeds and the range is shorter than the threshold |
| DataQuery.FirstInvalid | utils/data_query.py:105-115 | the validation loop stops at the first element outside the allowed values, or finds none |
| DataQuery.NewDataQuery | utils/data_query.py:12-115 | empty symbols fail first, then empty intervals; construction succeeds exactly when every interval and data type is allowed; the data types default to ["klines"] |
| DataQuery.SpecificSymbols | utils/data_query.py:121-123 | removes every "*" and keeps every other symbol with its multiplicity |
| DataQuery.GetSpecificSymbols | utils/data_query.py:121-123 | the specific symbols are the query's symbols other than "*" |
| DataQuery.IsAllSymbols | utils/data_query.py:117-119 | the query asks for the whole market exactly when removing "*" shortens its symbol list |
| DataQuery.SpecificSymbolsShorter | utils/data_query.py:117-123 | removing "*" never lengthens a list, and shortens it exactly when it holds "*" |
| DataQuery.SpecificSymbolsAppend | utils/data_query.py:121-123 | removing "*" distributes over concatenation, so order is kept |
| DataQuery.AnyKlineType | utils/data_query.py:125-133 | intervals are needed exactly when some data type is a kline kind |
| DataQuery.NeedsIntervals | utils/data_query.py:125-133 | intervals are needed exactly when some requested data type is a kline kind, as for the default ["klines"] |
| DataQuery.Key | utils/data_query.py:148-153 | the response key is the symbol, an underscore and the suffix |
| DataQuery.KeyInjective | utils/data_query.py:148-153 | for symbols without underscores, a key determines the symbol and the suffix |
| DataQuery.GetIndicator | utils/data_query.py:146-149 | the indicator is present exactly when "SYMBOL_INDICATOR" is a key, and is its value |
| DataQuery.GetSymbolData | utils/data_query.py:151-154 | the rows are present exactly when "SYMBOL_INTERVAL" is a key, and are its value |
| SymbolMetadata.ListingInstant | utils/symbol_metadata.py:45-47 | a stored date in any form `%Y-%m-%d` accepts reads as midnight UTC of the day it spells; any other text is a ValueError |
| SymbolMetadata.ListingDate | utils/symbol_metadata.py:41-48 | None when the symbol or its date is absent; otherwise the stored date's midnight, or its parse error |
| SymbolMetadata.Classify | utils/symbol_metadata.py:157-169 | unknown symbols and symbols without a date are unknown_symbol; a window before the listing is new_coin, anything else data_corruption |
| SymbolMetadata.AddedListingDate | utils/symbol_metadata.py:41-63 | a date written from a formatted date reads back as that date's midnight |
| SymbolMetadata.FuturesLaunchParses | utils/symbol_metadata.py:119-124 | the 2019-09-25 fallback is a real date |
| SymbolMetadata.SecondBatchParses | utils/symbol_metadata.py:126 | the 2020-01-01 fallback is a real date |
| SymbolMetadata.LaterListingParses | utils/symbol_metadata.py:128 | the 2021-01-01 fallback is a real date |
| SymbolMetadata.ListingDateForParses | utils/symbol_metadata.py:111-128 | the stored date parses: the local onboarding day when it has one, else the fallback chosen by symbol |
| SymbolMetadata.EntryForShape | utils/symbol_metadata.py:134-139 | an entry holds a parsable date, and TRADING maps to active and anything else to inactive |
| SymbolMetadata.RefreshedKeys | utils/symbol_metadata.py:102-139 | the refresh keeps every old symbol and adds exactly the USDT symbols of the exchange list |
| SymbolMetadata.RefreshedUnwritten | utils/symbol_metadata.py:102-139 | a symbol the list does not write keeps its old entry |
| SymbolMetadata.RefreshedWritten | utils/symbol_metadata.py:102-139 | a symbol the list writes holds the entry made from one of its visits |
| SymbolMetadata.NewCountIsAdded | utils/symbol_metadata.py:131-132 | the new-symbol count is the number of symbols the refresh added |
| SymbolMetadata.RefreshedKeepsKeys | utils/symbol_metadata.py:102-139 | no symbol is dropped by the refresh |
| SymbolMetadata.Manager.constructor | utils/symbol_metadata.py:26-27 | a missing file gives last_updated 2025-01-01 and no symbols |
| SymbolMetadata.Manager.Loaded | utils/symbol_metadata.py:23-25 | a loaded table holds the file's date and symbols |
| SymbolMetadata.Manager.ShouldUpdateToday | utils/symbol_metadata.py:35-39 | no update once the table is dated today, an update for any other date, and a table without a date counts as dated 2025-01-01 |
| SymbolMetadata.Manager.IsSymbolKnown | utils/symbol_metadata.py:50-52 | an unknown symbol has no listing date |
| SymbolMetadata.Manager.GetListingDate | utils/symbol_metadata.py:41-48 | None for an unknown symbol or an entry without a date; a parsed date is a midnight |
| SymbolMetadata.Manager.ClassifyMissingData | utils/symbol_metadata.py:157-169 | unknown_symbol without a listing date; new_coin exactly when the window starts before the listing; data_corruption exactly when it starts at or after it; a bad date fails |
| SymbolMetadata.Manager.AddSymbol | utils/symbol_metadata.py:54-63 | the symbol is known afterwards with the given date and status; other symbols and the refresh date are unchanged |
| SymbolMetadata.Manager.UpdateSymbolsFromApi | utils/symbol_metadata.py:65-155 | nothing changes when already refreshed today, the request failed or the list is empty; otherwise the table is refreshed, dated today and reports its new and USDT counts, and no second refresh is due today |
| DataAccess.SymbolRowsEntries | services/data_access_layer.py:60-87 | visiting one symbol adds exactly its keys and leaves the others |
| DataAccess.QueryMapEntries | services/data_access_layer.py:59-89 | one key per (symbol, interval) pair; for symbols without underscores each key holds its own pair's rows |
| DataAccess.DateOfNamesDay | services/data_access_layer.py:108-110 | a row's date is the name of the local day of its open time |
| DataAccess.RowDates | services/data_access_layer.py:107-110 | there is one date per row when every row has one |
| DataAccess.RowDatesSnoc | services/data_access_layer.py:107-110 | one more row adds its date, or leaves no dates |
| DataAccess.DateOrder | services/data_access_layer.py:111-124 | the groups' order lists exactly the dates that occur |
| DataAccess.DateOrderDistinct | services/data_access_layer.py:111-124 | each date is listed once |
| DataAccess.DateGroups | services/data_access_layer.py:106-113 | there is a group exactly for each date that occurs |
| DataAccess.DateGroupsRows | services/data_access_layer.py:106-113 | a group holds exactly its date's rows, in input order, and is not empty |
| DataAccess.DateGroupsSnoc | services/data_access_layer.py:111-113 | one more row joins the group of its date |
| DataAccess.DateOrderSnoc | services/data_access_layer.py:111-112 | a new date goes last in the order |
| DataAccess.OnDateEmpty | services/data_access_layer.py:106-113 | a date that no row has selects no rows |
| DataAccess.OnDateMembers | services/data_access_layer.py:106-113 | a row is in its date's group, and groups hold only input rows |
| DataAccess.FileWritesMembers | services/data_access_layer.py:124-168 | every date gets its parquet file, a csv file exactly when csv is asked for, and nothing else |
| DataAccess.Contains | services/data_access_layer.py:81 | `in` on strings: the text occurs at some position |
| DataAccess.PairStatement | services/data_access_layer.py:60-81 | a pattern that matches no file raises a message that counts as missing files |
| DataAccess.DuckDBEngine.constructor | services/data_access_layer.py:21-25 | a new engine keeps its data path and is not connected |
| DataAccess.DuckDBEngine.Initialize | services/data_access_layer.py:27-29 | the engine is connected afterwards |
| DataAccess.DuckDBEngine.Query | services/data_access_layer.py:34-89 | RuntimeError before initialize; ValueError for a type that is not a kline kind; an AttributeError for `_handle_exception` when some pair's statement fails for a reason other than missing files; otherwise the map of the pairs' rows, empty for a pair without files |
| DataAccess.DuckDBEngine.QuerySymbol | services/data_access_layer.py:59-87 | the inner loop adds the symbol's pairs to the map in interval order, and fails with the AttributeError exactly when one of its pairs fails |
| DataAccess.DuckDBEngine.QueryPair | services/data_access_layer.py:60-87 | a pair gives the rows its statement returns, none when its files are missing, and otherwise the AttributeError of `_handle_exception` |
| DataAccess.DuckDBEngine.WriteData | services/data_access_layer.py:91-133 | nothing for no rows; a row without a date fails; otherwise, per date in first-seen order, its parquet file and, when asked for, its csv file |
| DataAccess.DuckDBEngine.WriteGroups | services/data_access_layer.py:124-133 | the writing loop writes the files of the dates in order |
| DataAccess.GroupStep | services/data_access_layer.py:107-113 | one step of the grouping loop adds the row to its date's group |
| DataAccess.NoDateFails | services/data_access_layer.py:107-110 | a row without a date makes the whole input fail |
| DataAccess.DecideRepair | services/data_access_layer.py:435-474 | healthy: nothing; needs repair below 0.5: the whole range; needs repair otherwise: the repair ranges; gaps without repair: the repair ranges; otherwise nothing when there are records |
| DataAccess.ListingBranchUnreachable | services/data_access_layer.py:462-472 | no report of the checker reaches the listing-date branch |
| DataAccess.EmptyLocalFetchesWholeRange | services/data_access_layer.py:436-446 | with no local rows for an elapsed window the whole range is fetched |
| DataAccess.FindMissingDataOutcomes | services/data_access_layer.py:400-474 | the decision never fails and fetches nothing, the whole range or the report's repair ranges |
| DataAccess.RoundHalfEven | services/data_access_layer.py:481-489 | Python's `round` of a quotient: the nearest integer, with ties going to the even one |
| DataAccess.ExpectedHint | services/data_access_layer.py:476-489 | the hint is at least 1: the rounded number of 15-minute, hourly or 4-hour buckets, 15 minutes for other names, and whole days for 1d |
| DataAccess.ApiLimit | services/data_access_layer.py:517 | the limit lies in [100, 1000] and is twice the hint in between |
| DataAccess.HintExamples | services/data_access_layer.py:476-489 | 3 hours ask for 3; 2.5 hours round to 2 and 3.5 to 4; an empty range asks for 1 |
| DataAccess.PlanFetches | services/data_access_layer.py:512-523 | one limit per repair range, in order, each within [100, 1000] |
| DataAccess.FetchedAppend | services/data_access_layer.py:527-534 | collecting distributes over concatenation of the results |
| DataAccess.FailedFetchContributesNothing | services/data_access_layer.py:529-534 | a failed fetch adds nothing and does not stop the others |
| DataAccess.FetchedMembers | services/data_access_layer.py:529-534 | a row is collected exactly when some successful fetch returned it |
| DataAccess.CollectFetched | services/data_access_layer.py:527-534 | the collecting loop extends by each successful result in order |
| DataAccess.WriteFormats | services/data_access_layer.py:542-555 | nothing is written when nothing was fetched; csv and parquet for data corruption, parquet otherwise; a bad stored date fails |
| DataAccess.DedupMembers | services/data_access_layer.py:584-589 | deduplicating keeps only input rows and all their open times |
| DataAccess.DedupFirst | services/data_access_layer.py:584-589 | each kept row is the first row of its open time |
| DataAccess.DedupStrict | services/data_access_layer.py:578-589 | deduplicating rows sorted by open time leaves them strictly increasing |
| DataAccess.LastAbove | services/data_access_layer.py:578 | in sorted rows the last one is later than every earlier row of another open time |
| DataAccess.MergeOrdered | services/data_access_layer.py:572-590 | the merge is strictly increasing in open time and has the open times of both inputs |
| DataAccess.MergeKeepsLocal | services/data_access_layer.py:573-590 | on a tie the local row wins; otherwise the first fetched row of that open time is kept |
| DataAccess.DedupStep | services/data_access_layer.py:586-589 | one step keeps the row exactly when its open time is new |
| DataAccess.DedupByOpenTime | services/data_access_layer.py:584-589 | the seen-times loop keeps the first row of each open time |
| DataAccess.FetchAndMergeData | services/data_access_layer.py:491-590 | the limits of the ranges, the rows of the successful fetches, the write formats and the merge of local and fetched rows; a bad stored date fails, and so does the write of a fetched row without a date, both before the merge |
| DataAccess.StoreMergedAsWritten | services/data_access_layer.py:527-591 | with nothing to fetch the rows are stored under their key |
| DataAccess.MergedRowsNeverStored | services/data_access_layer.py:508-591 | with some range to fetch, storing the merged rows is a TypeError |
| DataAccess.StoreMerged | services/data_access_layer.py:591 | the caller's dictionary holds the merged rows under the pair's key and is otherwise unchanged |
| TaskTracker.ParseStatus | binance-db/src/task_tracker.py:16-21 | parses exactly the four status values |
| TaskTracker.StatusRoundTrip | binance-db/src/task_tracker.py:16-122 | a status written to a record reads back as itself |
| TaskTracker.TaskKey | binance-db/src/task_tracker.py:104-111 | the key joins the fields, with the interval only when one is given |
| TaskTracker.UnderscoresAppend | binance-db/src/task_tracker.py:109-111 | counting underscores distributes over concatenation |
| TaskTracker.TaskKeyInjective | binance-db/src/task_tracker.py:104-111 | for fields without underscores, a key determines the symbol, type, date and interval |
| TaskTracker.IndexOf | binance-db/src/task_tracker.py:118 | the position of the first entry with the key |
| TaskTracker.Lookup | binance-db/src/task_tracker.py:118 | a lookup finds a record exactly when the key is present, and finds that key's record |
| TaskTracker.Put | binance-db/src/task_tracker.py:148 | storing grows the table only for a new key |
| TaskTracker.PutLookup | binance-db/src/task_tracker.py:148 | storing changes what that key reads and nothing else |
| TaskTracker.PutDistinct | binance-db/src/task_tracker.py:148 | storing keeps the keys distinct |
| TaskTracker.LookupAt | binance-db/src/task_tracker.py:118 | with distinct keys, an entry's key reads back that entry |
| TaskTracker.ReadStatus | binance-db/src/task_tracker.py:119-160 | a record without a status is pending; otherwise its status parses or fails |
| TaskTracker.StatusOf | binance-db/src/task_tracker.py:113-124 | pending for an absent task or an unrecognised status; the stored status otherwise |
| TaskTracker.Tracker.GetTaskStatus | binance-db/src/task_tracker.py:113-124 | pending for an unknown task or a record whose status does not parse; otherwise the recorded status |
| TaskTracker.PendingTasks | binance-db/src/task_tracker.py:151-164 | the pending list fails exactly when some status is unrecognised |
| TaskTracker.PendingTasksMembers | binance-db/src/task_tracker.py:151-164 | the pending list holds exactly the pending and failed records |
| TaskTracker.Bump | binance-db/src/task_tracker.py:176 | counting one record adds one to the total |
| TaskTracker.ValidPrefix | binance-db/src/task_tracker.py:174-176 | the longest prefix of recognised statuses, ending at the first status that raises |
| TaskTracker.TallyTotal | binance-db/src/task_tracker.py:166-176 | when every status is recognised, the counts add up to the table's size |
| TaskTracker.TallyPending | binance-db/src/task_tracker.py:151-176 | the pending and failed counts are the size of the pending list |
| TaskTracker.FailedOnly | binance-db/src/task_tracker.py:86-90 | the snapshot keeps exactly the records whose status is failed |
| TaskTracker.TallyFailed | binance-db/src/task_tracker.py:86-176 | the failed count is the number of saved records |
| TaskTracker.NoFailedRecords | binance-db/src/task_tracker.py:86-90 | without failed records nothing is saved |
| TaskTracker.NewRecord | binance-db/src/task_tracker.py:134-146 | the record reads back its status, holds the message only when it is a non-empty string and the size only when given |
| TaskTracker.Tracker.constructor | binance-db/src/task_tracker.py:29-48 | a tracker over the loaded failures with all counts zero |
| TaskTracker.Tracker.SetTaskStatus | binance-db/src/task_tracker.py:126-148 | the task reads back the new status and record; every other task reads as before; the counts are unchanged |
| TaskTracker.Tracker.GetPendingTasks | binance-db/src/task_tracker.py:151-164 | the scan gives the pending list |
| TaskTracker.Tracker.UpdateStatistics | binance-db/src/task_tracker.py:166-176 | the counts are those of the records up to the first unrecognised status, which raises; without one they add up to the table's size |
| TaskTracker.Tracker.GetStatistics | binance-db/src/task_tracker.py:178-183 | the counts of the whole table, which add up to its size, or the error |
| TaskTracker.Tracker.SaveProgress | binance-db/src/task_tracker.py:77-189 | writes exactly the failed records |
| TaskTracker.Tracker.ResetFailedTasks | binance-db/src/task_tracker.py:191-210 | every failed record is reset in place and counted; none is failed afterwards; the file is rewritten, with no failures, exactly when something was reset |
| TaskTracker.ResetEntries | binance-db/src/task_tracker.py:199-206 | resetting keeps the number of records |
| TaskTracker.ResetEntriesAt | binance-db/src/task_tracker.py:199-206 | each record is reset on its own |
| TaskTracker.ResetEntriesKeys | binance-db/src/task_tracker.py:199-206 | resetting keeps every key in place and leaves no failed record |
| TaskTracker.ResetAll | binance-db/src/task_tracker.py:195-206 | the loop resets every record and counts the failed ones |
| TaskTracker.ResetEntry | binance-db/src/task_tracker.py:200-205 | a reset record is not failed and keeps its key |
| TaskTracker.ResetEntryEffect | binance-db/src/task_tracker.py:200-205 | a failed record becomes pending, stamped now, without its message and otherwise as it was; any other record is unchanged |
| TaskTracker.CountStatuses | binance-db/src/task_tracker.py:170-176 | the counting loop stops at the first unrecognised status with its ValueError |
| TaskTracker.PendingErrPersists | binance-db/src/task_tracker.py:159-162 | once a prefix fails, the whole scan fails with the same error |
| DownloadUtils.JoinShape | binance-db/src/utils.py:209-211 | `os.path.join`: an absolute part replaces, a relative one follows after exactly one separator |
| DownloadUtils.JoinRelativeEnd | binance-db/src/utils.py:209-211 | joining a relative part leaves it at the end |
| DownloadUtils.GetFileDirectory | binance-db/src/utils.py:206-211 | the directory ends with the interval when one is given, else with the symbol; a relative interval's directory lies inside the symbol's |
| DownloadUtils.JoinSegments | binance-db/src/utils.py:209-211 | joining two relative parts one after the other is joining them with a slash between |
| DownloadUtils.FileDirectoryLayout | binance-db/src/utils.py:206-211 | without an interval, the directory is base/type/symbol |
| DownloadUtils.FileDirectoryLayoutInterval | binance-db/src/utils.py:206-211 | with an interval, it is base/type/symbol/interval |
| DownloadUtils.BuildDownloadUrl | binance-db/src/utils.py:166-173 | a kline kind without an interval is a ValueError; otherwise the URL starts with the base |
| DownloadUtils.GetOutputFilename | binance-db/src/utils.py:176-189 | metrics and bookDepth are named by type whatever the interval; others by interval when one is given, else by type |
| DownloadUtils.UrlNamesOutputFile | binance-db/src/utils.py:166-189 | the archive a URL names is the output file name with ".zip", for both task shapes |
| DownloadUtils.NextDate | binance-db/src/utils.py:33 | the next day is later, and valid below the last representable date |
| DownloadUtils.NextDateIsSuccessor | binance-db/src/utils.py:33 | no valid date lies strictly between a date and the next |
| DownloadUtils.DayRange | binance-db/src/utils.py:29-35 | the days from start to end, valid, empty exactly when start is after end |
| DownloadUtils.DayRangeMembers | binance-db/src/utils.py:29-35 | the range holds exactly the valid dates from start to end |
| DownloadUtils.DayRangeSteps | binance-db/src/utils.py:31-33 | the range goes one day at a time |
| DownloadUtils.DayRangeAscending | binance-db/src/utils.py:31-33 | the range is strictly ascending |
| DownloadUtils.DayRangeLast | binance-db/src/utils.py:31-33 | the range ends at the last day not after the end |
| DownloadUtils.DayNames | binance-db/src/utils.py:32 | each day is named `%Y-%m-%d` |
| DownloadUtils.EndText | binance-db/src/utils.py:23-24 | "latest", in any letter case, stands for today |
| DownloadUtils.DateRangeDays | binance-db/src/utils.py:21-35 | the list is empty exactly when start is after end, and names every valid day between them |
| DownloadUtils.DayNamesMembers | binance-db/src/utils.py:29-35 | a valid day is named exactly when it lies between the ends |
| DownloadUtils.GenerateDateRange | binance-db/src/utils.py:21-35 | the loop builds the date list, of zero-padded names, from ends in any form `%Y-%m-%d` accepts; an end it refuses is a ValueError, and stepping past 9999-12-31 an OverflowError |
| DownloadUtils.DateRangeUnpadded | binance-db/src/utils.py:21-35 | "2024-1-5" to "2024-1-6" gives ["2024-01-05", "2024-01-06"] |
| DownloadUtils.CollectDays | binance-db/src/utils.py:29-35 | the loop names the days from start to end, and overflows when the end is 9999-12-31 |
| DownloadUtils.NamesStep | binance-db/src/utils.py:31-33 | one loop step emits the current day's name |
| TaskGenerator.RStripSlash | binance-db/src/task_generator.py:68 | `rstrip('/')` removes exactly the trailing slashes |
| TaskGenerator.TaskFiles | binance-db/src/task_generator.py:44-80 | a task keeps its identity; its archive and csv sit in its directory with one stem and differ only in extension |
| TaskGenerator.SideBySide | binance-db/src/task_generator.py:70-73 | two files of one stem in one directory differ only in extension |
| TaskGenerator.TaskUrlMatches | binance-db/src/task_generator.py:52-68 | for both task shapes and a base ending in one slash, the fast URL is the helpers' URL |
| TaskGenerator.TaskFileNamesMatch | binance-db/src/task_generator.py:52-71 | for both task shapes, the archive and csv names are the extractor's file names |
| TaskGenerator.TaskDirectoryMatches | binance-db/src/task_generator.py:55-69 | with plain segments, the task's directory is the helpers' directory |
| TaskGenerator.IntervalTasks | binance-db/src/task_generator.py:124-127 | one task per interval |
| TaskGenerator.SymbolTasksCount | binance-db/src/task_generator.py:119-132 | a symbol's tasks number the per-symbol count: intervals for enabled kline kinds, one for other enabled kinds |
| TaskGenerator.DateTasksCount | binance-db/src/task_generator.py:118-132 | a date's tasks number the symbols times the per-symbol count |
| TaskGenerator.AllTasksCount | binance-db/src/task_generator.py:116-132 | the generated count is dates × symbols × the per-symbol count |
| TaskGenerator.GenerateIntervalTasks | binance-db/src/task_generator.py:124-127 | the innermost loop builds one task per interval |
| TaskGenerator.GenerateSymbolTasks | binance-db/src/task_generator.py:119-132 | the loop over the kinds builds one symbol's tasks |
| TaskGenerator.GenerateDateTasks | binance-db/src/task_generator.py:118-132 | the loop over the symbols builds one date's tasks |
| TaskGenerator.GenerateTasks | binance-db/src/task_generator.py:116-132 | the nested loops build all tasks, dates outermost |
| TaskGenerator.PrefilteredMembers | binance-db/src/task_generator.py:148-166 | the prefilter keeps exactly the tasks whose csv file is missing |
| TaskGenerator.FailedRetries | binance-db/src/task_generator.py:162-164 | failed retries are among the kept tasks |
| TaskGenerator.FailedRetriesPositive | binance-db/src/task_generator.py:162-175 | the retry count is positive exactly when some kept task failed before |
| TaskGenerator.Prefilter | binance-db/src/task_generator.py:144-166 | the loop keeps the tasks without a csv file, counts the rest as skipped and counts the failed retries |
| TaskGenerator.FileLevelTasksMembers | binance-db/src/task_generator.py:82-177 | the result is the generated tasks whose csv file is missing, in order |
| TaskGenerator.GenerateFileLevelTasks | binance-db/src/task_generator.py:82-177 | the whole generation; the tracker's failures are saved exactly when some returned task failed before |
| IndicatorCommon.FindConfig | indicators/types.py:109-189 | the configuration of a name, or none when no configuration has it |
| IndicatorCommon.MaxWindowSizeIsMax | services/indicator_engine.py:192-194 | the maximum window size bounds every configuration and is reached by one |
| IndicatorCommon.DefaultMaxWindow | indicators/types.py:139-153 | the default configurations need windows of 201 points |
| IndicatorCommon.Bounded | services/indicator_engine.py:20 | a deque with maxlen holds at most maxlen of its last elements |
| IndicatorCommon.BoundedAppend | services/indicator_engine.py:43 | appending puts the item last and drops the oldest only when full |
| IndicatorCommon.Values | services/indicator_engine.py:45-47 | one value at most per item |
| IndicatorCommon.ValuesMembers | services/indicator_engine.py:45-47 | the values are exactly the field's values in the items that have it |
| IndicatorCommon.LatestAfterAppend | services/indicator_engine.py:49-53 | after an append the latest value is the new item's field, or none |
| IndicatorCommon.MinInterval | services/indicator_engine.py:237-245 | 900, 3600 or 14400 seconds, and 900 for any other frequency |
| IndicatorCommon.ShouldUpdateBounds | services/indicator_engine.py:229-247 | always true for an unknown indicator; never within 15 minutes of the last update; always four hours after it |
| IndicatorCommon.ShouldUpdateMonotone | services/indicator_engine.py:247 | once the throttle fires it fires for later timestamps too |
| IndicatorCommon.DefaultThrottleHourly | indicators/engine.py:104-122 | with no update yet, the hourly sma_200 fires from 3600 on |
| IndicatorCommon.DefaultThrottleQuarter | indicators/engine.py:104-122 | the 15-minute rsi_14 fires from 900 on |
| IndicatorCommon.DefaultThrottleUnknown | indicators/engine.py:106-107 | an unconfigured indicator such as macd always fires |
| IndicatorCommon.Stamped | services/indicator_engine.py:178 | recording an update sets only that indicator's time |
| IndicatorCommon.WellFormedDistinct | services/indicator_engine.py:175 | a cache's timestamps are distinct |
| IndicatorCommon.Lookup | services/indicator_engine.py:203-206 | a timestamp is found exactly when it is cached |
| IndicatorCommon.StoreLookup | services/indicator_engine.py:218 | storing makes the timestamp read the value and leaves the others |
| IndicatorCommon.StoreNew | services/indicator_engine.py:218 | storing a new timestamp appends one entry |
| IndicatorCommon.RemoveEffect | services/indicator_engine.py:225 | deleting a timestamp removes exactly it and keeps the other values |
| IndicatorCommon.RemoveAllEffect | services/indicator_engine.py:224-225 | deleting distinct cached timestamps removes exactly them, one entry each |
| IndicatorCommon.SortKeysSorted | services/indicator_engine.py:223 | `sorted` orders the timestamps, keeps them all and adds no repeats |
| IndicatorCommon.SliceStop | services/indicator_engine.py:223 | a slice's stop lies within the list |
| IndicatorCommon.TrimCache | services/indicator_engine.py:221-225 | the eviction loop deletes the oldest timestamps one by one |
| IndicatorCommon.SplitSorted | services/indicator_engine.py:223 | in sorted distinct timestamps, everything before a cut is older than everything after it |
| IndicatorCommon.TrimmedSubset | services/indicator_engine.py:221-225 | eviction keeps a dict and never changes a kept value |
| IndicatorCommon.TrimmedKeepsNewest | services/indicator_engine.py:221-225 | with a positive limit, at most that many timestamps remain, and every deleted one is older than every kept one |
| IndicatorCommon.TrimmedZeroLimit | indicators/engine.py:95-100 | a limit of 0 deletes nothing, as `[:-0]` is empty |
| IndicatorCommon.MaxKey | services/indicator_engine.py:260 | `max` of the timestamps is one of them and bounds all |
| IndicatorCommon.LatestCached | services/indicator_engine.py:249-261 | none for an empty cache; otherwise the value at the greatest timestamp |
| IndicatorCommon.NewestSurvives | services/indicator_engine.py:221-225 | the newest timestamp survives eviction |
| IndicatorCommon.StoredNewestIsLatest | services/indicator_engine.py:217-261 | a value stored at a new latest timestamp survives eviction and is the latest cached value |
| IndicatorCommon.CacheHit | services/indicator_engine.py:203-206 | a cache hit returns the stored value and changes nothing |
| IndicatorCommon.Throttled | services/indicator_engine.py:209-211 | a throttled miss returns the latest cached value and changes nothing |
| IndicatorCommon.ComputedThenCached | services/indicator_engine.py:200-227 | a value computed for a new latest timestamp is what a second request returns, whatever the second computation would give |
| IndicatorCommon.GetIndicatorKeepsCaches | services/indicator_engine.py:216-225 | every cache stays a dict, no other cache changes, and a cache within a positive limit stays within it |
| IndicatorService.AppendIgnoresInvalid | services/indicator_engine.py:25-34 | non-dicts and items without an open time leave the window unchanged |
| IndicatorService.AppendSkipsDuplicate | services/indicator_engine.py:36-41 | an open time already in the window is skipped |
| IndicatorService.AppendFresh | services/indicator_engine.py:43 | a new open time goes last; the oldest drops out only when full |
| IndicatorService.AppendKeepsInvariant | services/indicator_engine.py:20-43 | appending keeps the window bounded, with open times on all items and none twice |
| IndicatorService.AppendFreshIsLatest | services/indicator_engine.py:43-53 | after a new open time, its fields are the latest |
| IndicatorService.FullStaysFull | services/indicator_engine.py:55-57 | a full window stays full |
| IndicatorService.RollingWindow.constructor | services/indicator_engine.py:19-21 | an empty window of the given size |
| IndicatorService.RollingWindow.Append | services/indicator_engine.py:23-43 | the scan-then-append gives the specified window and keeps its invariant |
| IndicatorService.RollingWindow.GetValues | services/indicator_engine.py:45-47 | at most one value per item, and exactly the field's values in the items that have it |
| IndicatorService.RollingWindow.GetLatest | services/indicator_engine.py:49-53 | present exactly when the newest item has the field, and then the last of the values |
| IndicatorService.RollingWindow.IsFull | services/indicator_engine.py:55-57 | a valid window that is not full has room |
| IndicatorService.RollingWindow.Size | services/indicator_engine.py:59-61 | never above the capacity of a valid window, never below the number of any field's values |
| IndicatorService.Engine.constructor | services/indicator_engine.py:165-181 | no windows, caches or update times |
| IndicatorService.Engine.UpdateRollingWindow | services/indicator_engine.py:187-198 | creates the pair's window of 201 on first use, appends to it, and leaves the other windows and the caches alone |
| IndicatorService.Engine.Record | services/indicator_engine.py:214-225 | stores the computed value, trims the cache to 100 and records the update time, as `IndicatorCommon.GetIndicatorSpec` defines |
| IndicatorService.Engine.GetIndicator | services/indicator_engine.py:200-227 | answers from the cache, from the latest cached value when throttled, or with the computed value, as `IndicatorCommon.GetIndicatorSpec` defines |
| IndicatorService.Engine.GetLatestCached | services/indicator_engine.py:249-261 | None exactly when nothing is cached for the pair; otherwise the value at its greatest timestamp |
| IndicatorService.Engine.Cleanup | services/indicator_engine.py:366-370 | clears the windows, caches and update times |
| Indicators.RollingWindow.constructor | indicators/engine.py:18-20 | an empty window of the given size |
| Indicators.RollingWindow.Append | indicators/engine.py:22-24 | every item is appended to the bounded deque |
| Indicators.RollingWindow.GetValues | indicators/engine.py:26-28 | at most one value per item, and exactly the field's values in the items that have it |
| Indicators.RollingWindow.GetLatest | indicators/engine.py:30-34 | present exactly when the newest item has the field, and then the last of the values |
| Indicators.RollingWindow.IsFull | indicators/engine.py:36-38 | a valid window that is not full has room |
| Indicators.RollingWindow.Size | indicators/engine.py:40-42 | never above the capacity of a valid window, never below the number of any field's values |
| Indicators.Engine.constructor | indicators/engine.py:48-67 | window size and cache limit from the configuration, 250 and 100 by default; no windows or caches |
| Indicators.Engine.WindowFor | indicators/engine.py:56-72 | the pair's window, created empty on first use; a negative size is deque's ValueError and changes nothing |
| Indicators.Engine.UpdateRollingWindow | indicators/engine.py:69-72 | appends to the pair's window, creating it first; other windows are unchanged |
| Indicators.Engine.Record | indicators/engine.py:88-100 | stores the computed value, trims to the cache limit and records the update time |
| Indicators.Engine.GetIndicator | indicators/engine.py:74-140 | answers as `IndicatorCommon.GetIndicatorSpec` defines; computing creates the pair's window, which only a negative size makes fail |
| Indicators.Engine.GetLatestCached | indicators/engine.py:124-135 | None exactly when nothing is cached for the pair; otherwise the value at its greatest timestamp |
| Indicators.Engine.Cleanup | indicators/engine.py:226-230 | clears the windows, caches and update times |
| Calendar.DateTimeBounds | utils/time_manager.py:50 | the datetime range is the years 1 to 9999 |
| TimeManagement.RoundHalfEvenReal | utils/time_manager.py:50 | the nearest integer, with ties going to the even one |
| TimeManagement.HoursDeltaProperties | utils/time_manager.py:47-50 | a non-negative step is non-negative, and the default is four hours |
| TimeManagement.WholeHoursExact | utils/time_manager.py:50 | a whole number of hours is exact |
| TimeManagement.Advanced | utils/time_manager.py:50 | a successful step adds the hours to the clock |
| TimeManagement.AdvancedFailsIffOutOfRange | utils/time_manager.py:50 | the step fails exactly when the sum leaves the datetime range |
| TimeManagement.AdvancedForward | utils/time_manager.py:47-50 | a non-negative successful step never moves the clock back |
| TimeManagement.Continue | utils/time_manager.py:64-87 | live runs go on; a backtest stops without an end or at the end; the midnight progress report of an empty run is a ZeroDivisionError |
| TimeManagement.ContinueForwardNeverFails | utils/time_manager.py:64-87 | a clock never behind its start always answers |
| TimeManagement.ContinueUntilEnd | utils/time_manager.py:70-87 | a backtest goes on exactly while it is before its end |
| TimeManagement.TimeManager.constructor | utils/time_manager.py:19-39 | starts at the given time or at the first clock reading; records the second reading as the real start; a backtest's end defaults to the third reading; a live run has no end |
| TimeManagement.TimeManager.AdvanceTime | utils/time_manager.py:47-50 | moves a backtest's clock by the step, leaves it on overflow, never moves a live clock, and keeps the start time and end |
| TimeManagement.TimeManager.Now | utils/time_manager.py:41-45 | the wall clock in a live run, the virtual time in a backtest |
| TimeManagement.TimeManager.IsBacktest | utils/time_manager.py:52-53 | a run is a backtest or live, never both; a valid backtest is exactly a run with an end time |
| TimeManagement.TimeManager.IsLive | utils/time_manager.py:55-56 | a valid live run is exactly a run without an end time |
| TimeManagement.TimeManager.TimeUntilNow | utils/time_manager.py:58-62 | how far `now` lags the wall clock, which is zero in a live run |
| TimeManagement.TimeManager.ShouldContinue | utils/time_manager.py:64-87 | a live run goes on; a backtest stops exactly without an end time or at it; a clock not behind its start never fails |
| TimeManagement.TimeManager.GetStartTime | utils/time_manager.py:89-94 | the start time `__init__` records, which no step changes, so the lazy branch never runs |

## Left out

- Network I/O is left out: the exchange client, the aiohttp request of `update_symbols_from_api` and `get_all_trading_pairs`. What they return is a parameter (`response`, `responses`, `fetched`).
- The DuckDB SQL is left out. `DataAccess.DuckDBEngine.Query` takes the rows each file pattern's statement returns, so the statement's time filter on `to_timestamp` is not modelled.
- The pandas and pyarrow writes, the temporary-file renames, the directory creation and the JSON files are left out. A write is described by its path, format and rows. The metadata and tracking files are read as constructor parameters and written as returned values.
- Concurrency is sequentialised: `asyncio.gather` is a sequence of results in range order, and the thread lock and thread pool are dropped. `batch_check_files_exist` becomes the set of existing CSV paths.
- Float arithmetic is exact. The completeness ratio is an exact real, and `timedelta(hours=h)` is rounded exactly to microseconds. Float error is not modelled.
- IntegrityChecker.ExpectedRecords: exact arithmetic replaces the float `total_seconds() / 60`, which can differ on durations near a whole minute.
- The indicator arithmetic of `_compute_indicator` and `indicators/calculator.py` is left out. The value it returns and the update time it records are the `comp` parameter of `GetIndicator`.
- IndicatorService.Engine.GetIndicator: the services engine's windows are created only by `update_rolling_window`, and the `None` placeholder its nested `defaultdict` leaves is modelled as an absent window.
- The nested `defaultdict`s are maps keyed by the pair of their two keys.
- DataAccess.DuckDBEngine.Query: `self.log` is defined neither by `DuckDBEngine` nor by `AbstractService` in `core/base.py`; the model reads it as a logger that returns. As written, the first pair's `self.log` raises AttributeError, its `except` branch logs again and raises another, so any query over at least one pair fails; that is not modelled. `_handle_exception` is missing in the same way, and that call is modelled as the AttributeError it raises.
- Printing and logging are left out, and so is the progress line of `should_continue` apart from its division.
- The wall clock, "today" and the local time zone are parameters: `now`, `wallNow`, `today` and `offsetSeconds`. `ResetEntries` and `Tracker.ResetFailedTasks` stamp every reset record with the one `now` they are given, where `reset_failed_tasks` reads the clock again for each record, so records reset in one call may differ there by the time the loop takes. `TimeManager`'s constructor takes its three clock readings separately, as `startNow`, `realNow` and `endNow`, with no order assumed between them, since the local wall clock can be set back.
- The `datetime.now()` default of `analyze_data_completeness`'s `current_time` is left out. Callers pass the time.
- The `hasattr` branch of `get_start_time` is left out. It cannot be taken, because `__init__` always sets `_start_time`.
- Calendar.ParseDate: only the ASCII digits 0 to 9 are digits. The `\d` of Python's `strptime` pattern also matches other Unicode decimal digits, so a date written in them is a ValueError in the model where Python reads it. The same holds for DownloadUtils.GenerateDateRange and SymbolMetadata.ListingInstant, which parse with it.
- Naive and aware datetimes are not distinguished; all instants are UTC.
- `TimeRange.to_timestamp` (float seconds) is left out.
- `IndicatorUpdate`, `MarketScanResult`, `IndicatorType` and the message conversions of `utils/data_query.py` are left out. They are message payloads with no logic.
- `compute_indicators_for_symbol` and `create_indicator_update` of the services indicator engine are left out, as they are arithmetic and messaging.
- The detectors `_detect_time_series_gaps`, `_detect_incomplete_days` and `_detect_boundary_gaps` are left out, because `analyze_data_completeness` never calls them.
- `format_file_size`, `load_config` and `ensure_directory_exists` are left out (float formatting, configuration and file system).
- The `print_summary` of the tracker is left out.
- SymbolMetadata.Manager.UpdateSymbolsFromApi: a non-200 status and a raised exception are the same `None` response, and file saving is not modelled.

## Findings

| source | as written | input that shows it | evidently intended | confidence | as-written member | corrected member |
|---|---|---|---|---|---|---|
| services/data_access_layer.py:527-591 | inside the fetch branch `results` is rebound to the list `asyncio.gather` returns, so `results[key] = unique_data` indexes a list with a string and raises TypeError after the write | any call with a non-empty `missing_ranges`, which is the only way the caller reaches the merge | store the merged rows in the caller's dictionary under "SYMBOL_INTERVAL" | not executed | DataAccess.StoreMergedAsWritten | DataAccess.StoreMerged |
