# Forex Factory calendar scraper, modelled in Dafny

`scripts/newsScrapper.py` scrapes the Forex Factory economic calendar one day
at a time and collects the results into CSV files. Three sequential pieces of
logic make up its core, and this project models each of them and proves what
it promises:

- **`generate_dates`** (`Calendar.dfy`). It reads two `%Y-%m-%d` bounds, walks
  the proleptic Gregorian calendar one `timedelta(days=1)` at a time and
  renders each day as a `%b%d.%Y` key in lower case, e.g. `apr20.2017`. The
  model covers `strptime`'s field regexes, leap years, CPython's ordinal
  arithmetic and the overflow past 9999-12-31. The walk is a `while` loop
  proved against `Keys(DateRange(first, last))`.
- **The row loop of `scrape_forex_factory`** (`CalendarRows.dfy`). It reads
  the calendar's rows top to bottom and keeps the label of the latest
  day-breaker. Every other row that has a time cell becomes an eight-column
  record. A row is an abstract value that holds the results of the CSS
  selections, each optional. The loop is a `for` loop proved against the
  recursive specification `Records`.
- **The result loop of `main`** (`Checkpoint.dfy`). It consumes the tasks'
  outcomes in completion order, extends `all_data`, counts the non-empty
  lists and writes snapshots:
  - the temp file after every counted date;
  - `backup_{n}_…` on every fifth count;
  - `hourly_backup_{%Y%m%d_%H}_…` when that file is not on disk;
  - `error_backup_{%Y%m%d_%H%M%S}_…` when a task raised while records were held;
  - the final file after the loop.

  Each `to_csv` call is a `Save` of the current state. `Step` specifies one
  outcome and `Run` folds it over the completions. `ProcessResults`, the loop
  itself, is proved to end in `Run`'s state followed by the final write.

`Text.dfy` holds the pieces of Python's string behaviour these rely on:
`str.strip()`, `str.replace(p, "")`, `f"{n}"` and the zero-padded `strftime`
fields. `Wrappers.dfy` holds `Option` and `Result`.

Inputs replace what the script reads from outside:
- the browser's page load is a function `load` from address to page;
- `as_completed`'s order is a sequence of indices;
- each reading of `datetime.now()` is a `Clock` carried by the completion it was read for;
- the filesystem is the set of paths that exist.

## Model

| member | source | states |
|---|---|---|
| Text.Strip | scripts/newsScrapper.py:61-78 | The result is trimmed, and it is the infix of the input that follows the leading whitespace and precedes only whitespace. |
| Text.StripUnique | scripts/newsScrapper.py:61-78 | `strip()` returns the only trimmed infix that has nothing but whitespace around it. |
| Text.StripIdempotent | scripts/newsScrapper.py:61-78 | Stripping an already stripped cell text changes nothing. |
| Text.RemoveAllAbsent | scripts/newsScrapper.py:66 | `replace(" Impact Expected", "")` leaves a title that does not contain the phrase unchanged. |
| Text.RemoveAllSuffix | scripts/newsScrapper.py:66 | A word free of the phrase's first character, followed by the phrase, loses exactly the phrase. |
| Text.RemoveAllFirst | scripts/newsScrapper.py:66 | For any title `a + p + b` where no occurrence of `p` starts inside `a`, the result is `a` followed by the replacement applied to `b`: the first occurrence is dropped wherever it sits, and later ones are handled the same way. With `RemoveAllAbsent` this fixes the result on every input. Its helpers `RemoveAllDrop` and `RemoveAllKeep` unfold one step of the scan. |
| Text.RemoveAll | scripts/newsScrapper.py:66 | `replace(p, "")` scans left to right and drops each non-overlapping occurrence; the result is never longer. `RemoveAllFirst` and `RemoveAllAbsent` pin what it keeps and drops on every input. |
| Text.Decimal | scripts/newsScrapper.py:128 | `f"{completed_dates}"` is a non-empty digit string without a leading zero that reads back as the count. |
| Text.Pad2 | scripts/newsScrapper.py:133-142 | `%m`, `%d`, `%H`, `%M` and `%S` in the hourly and error-backup stamps give two digits that read back as the field for any value below 100; the `%d` of the date keys (line 17) uses it too. |
| Text.Pad4 | scripts/newsScrapper.py:17 | `%Y` gives four digits that read back as the year for any year below 10000. |
| Calendar.NextDay | scripts/newsScrapper.py:19 | `+ timedelta(days=1)` is undefined exactly at 9999-12-31; otherwise it gives a valid day whose ordinal is one more. |
| Calendar.DaysBeforeYearClosedForm | scripts/newsScrapper.py:19 | Counting days year by year agrees with CPython's closed form `365p + p/4 - p/100 + p/400`, which its date arithmetic uses. |
| Calendar.OrderIsOrdinal | scripts/newsScrapper.py:16 | `current <= end_date`, compared field by field, holds exactly when the ordinals are in order. |
| Calendar.DateRange | scripts/newsScrapper.py:14-21 | The walk visits `end − start + 1` valid days when start ≤ end, and none otherwise. |
| Calendar.DateRangeAt | scripts/newsScrapper.py:14-21 | The i-th day visited is i days after the start. |
| Calendar.DateRangeEnds | scripts/newsScrapper.py:14-21 | A non-empty walk starts at the start date and ends at the end date. |
| Calendar.DateRangeConsecutive | scripts/newsScrapper.py:19 | Each visited day is followed by the next calendar day. |
| Calendar.DateRangeIncreasing | scripts/newsScrapper.py:14-21 | The visited days are strictly increasing. |
| Calendar.DateKey | scripts/newsScrapper.py:17 | `strftime("%b%d.%Y").lower()`: lower-case month abbreviation, two-digit day, a dot, four-digit year. It has no contract of its own; `DateKeyRoundTrip` shows that the key reads back as its day, and `DateKeyInjective` that different days get different keys. |
| Calendar.DateKeyRoundTrip | scripts/newsScrapper.py:17 | A `%b%d.%Y` lower-cased key parses back to its day: month abbreviation, two-digit day, dot, four-digit year. |
| Calendar.DateKeyInjective | scripts/newsScrapper.py:17 | Different days get different keys. |
| Calendar.RangeKeysDistinct | scripts/newsScrapper.py:14-21 | The keys `generate_dates` returns are pairwise distinct. |
| Calendar.RangeKeysEnds | scripts/newsScrapper.py:14-21 | The first key is the start date's key and the last is the end date's key. |
| Calendar.ReversedBoundsEmpty | scripts/newsScrapper.py:16 | A start after the end gives an empty list, not an error. |
| Calendar.MonthField | scripts/newsScrapper.py:11-12 | `%m` tries `1[0-2]`, `0[1-9]`, `[1-9]` in that order; a match gives a month from 1 to 12 and consumes at least one character. `MonthFieldPad` shows that it reads a zero-padded month back. |
| Calendar.DayField | scripts/newsScrapper.py:11-12 | `%d` tries `3[01]`, `[12]\d`, `0[1-9]`, `[1-9]`, ` [1-9]` in that order; a match gives a day from 1 to 31 and consumes at least one character. `DayFieldPad` shows that it reads a zero-padded day back. |
| Calendar.MonthFieldPad | scripts/newsScrapper.py:11-12 | `strptime`'s `%m` reads a zero-padded month back. |
| Calendar.DayFieldPad | scripts/newsScrapper.py:11-12 | `strptime`'s `%d` reads a zero-padded day back. |
| Calendar.ParseIsoDate | scripts/newsScrapper.py:11-12 | `strptime(s, "%Y-%m-%d")` succeeds only with a valid day. |
| Calendar.IsoRoundTrip | scripts/newsScrapper.py:11-12 | Every valid day written as `%Y-%m-%d` parses back to itself. |
| Calendar.WalkStep | scripts/newsScrapper.py:16-19 | One loop turn keeps `current` after the start, moves it one day closer to the end and consumes the first outstanding key. |
| Calendar.WalkDays | scripts/newsScrapper.py:14-21 | The loop returns the keys of every day from start to end, and raises OverflowError exactly when it must step past 9999-12-31. |
| Calendar.GenerateDates | scripts/newsScrapper.py:10-21 | An unparsable bound raises ValueError. Otherwise the result is the walk's: the keys of the range, or OverflowError when the end is 9999-12-31 and the start is not after it. |
| Calendar.DefaultBounds | scripts/newsScrapper.py:10-12 | The default bounds parse to 2017-04-20 and 2019-11-11. |
| Calendar.DefaultKeys | scripts/newsScrapper.py:17 | Those days' keys are `apr20.2017` and `nov11.2019`. |
| Calendar.DefaultRange | scripts/newsScrapper.py:10 | The defaults give 936 keys, from `apr20.2017` to `nov11.2019`. |
| Calendar.DefaultDates | scripts/newsScrapper.py:96 | `generate_dates()` with its defaults cannot fail and returns those 936 keys. |
| CalendarRows.RecordOf | scripts/newsScrapper.py:61-89 | A data row's record carries the label in force. Time is the stripped time text. Currency, Event Title, Actual, Forecast and Previous are each the stripped text of their own cell, or `""` when that cell is absent. Impact is the title with every " Impact Expected" removed, or `""` when absent. Every column but Impact is trimmed. |
| CalendarRows.ParseRows | scripts/newsScrapper.py:45-89 | The loop's `data` is `Records(rows, None)`: one record per emitting row, in page order, stamped with the label in force. |
| CalendarRows.Records | scripts/newsScrapper.py:45-89 | The specification of the row loop, stated from the last row back. It has no contract of its own; `RecordsLength`, `RecordAt`, `DayBreakerStep`, `RecordsAppend` and `DayBlock` pin its count, order, dates and labels, and `ParseRows` is proved equal to it. |
| CalendarRows.RecordsLength | scripts/newsScrapper.py:50-89 | There are exactly as many records as non-day-breaker rows with a time cell. |
| CalendarRows.RecordAt | scripts/newsScrapper.py:80-89 | The emitting row at index i yields the record at position "number of emitting rows above it", with the label of the latest day-breaker above it or None. |
| CalendarRows.DayBreakerStep | scripts/newsScrapper.py:51-55 | A day-breaker adds no record; it sets the label to its stripped span text when it has one and leaves the label alone otherwise. |
| CalendarRows.RecordsAppend | scripts/newsScrapper.py:50-89 | Reading two stretches of rows in turn is reading them together; the label carries over. |
| CalendarRows.UnderOneLabel | scripts/newsScrapper.py:57-89 | Rows without a day-breaker keep the label and each yield at most one record under it. |
| CalendarRows.DayBlock | scripts/newsScrapper.py:51-89 | A labelled day-breaker and the rows below it yield one record per row with a time cell, all dated with its label. |
| CalendarRows.ImpactSeverity | scripts/newsScrapper.py:65-66 | A title `"<word> Impact Expected"` gives `<word>`. |
| CalendarRows.ImpactWithoutPhrase | scripts/newsScrapper.py:65-66 | A title without the phrase is kept as it is. |
| CalendarRows.ScrapeForexFactory | scripts/newsScrapper.py:23-93 | A rendered page gives its rows' records, and a failed load raises its error. |
| Checkpoint.ProcessResults | scripts/newsScrapper.py:104-149 | The loop ends in the state `Run` specifies, followed by the final write of `all_data` to the output file. |
| Checkpoint.RunTasks | scripts/newsScrapper.py:107-115 | The i-th outcome to complete is the task for `dates[order[i]]`, carrying the clock reading of its handling. |
| Checkpoint.ScrapeAll | scripts/newsScrapper.py:95-149 | `main` runs the loop on the outcomes of the 936 default keys; at most 936 dates are counted. |
| Checkpoint.Step | scripts/newsScrapper.py:114-145 | One outcome of the loop, one `Save` per `to_csv` in source order. It has no contract of its own; `TotalsStep`, `StepSnapshots`, `FilesStep`, `PrefixStep` and `LatestTempStep` pin what it does to each part of the state. |
| Checkpoint.Run | scripts/newsScrapper.py:104-145 | The loop over the outcomes in completion order, from `all_data = []`, a count of 0 and the pre-existing files. It has no contract of its own; `RunGathers`, `RunCounts`, `NumberedBackups`, `TempHoldsAll`, `HourlyBackups`, `ErrorBackupCount` and `FinalOnlyAtEnd` pin its result. |
| Checkpoint.PathOf | scripts/newsScrapper.py:100-143 | The file each snapshot goes to: `temp_`, `backup_{n}_`, `hourly_backup_{hour}_` and `error_backup_{second}_` in front of the output name, and the output name itself for the final write. It has no contract of its own; `PathOfInjective` shows that distinct snapshots never share a file. |
| Checkpoint.HourBucket | scripts/newsScrapper.py:133 | `strftime("%Y%m%d_%H")` of a clock reading. It has no contract of its own; `HourBucketSame` pins its meaning. |
| Checkpoint.SecondStamp | scripts/newsScrapper.py:142 | `strftime("%Y%m%d_%H%M%S")` of a clock reading. It has no contract of its own; `SecondStampSame` pins its meaning. |
| Checkpoint.PathOfInjective | scripts/newsScrapper.py:100-143 | Distinct snapshots go to distinct paths, so no write overwrites another kind, count, hour or second. |
| Checkpoint.NumberedPathInjective | scripts/newsScrapper.py:128 | Different counts give different `backup_{n}_…` paths. |
| Checkpoint.HourBucketSame | scripts/newsScrapper.py:133 | Two clock readings share `%Y%m%d_%H` exactly when they fall on the same day and hour. |
| Checkpoint.SecondStampSame | scripts/newsScrapper.py:142 | Two valid readings share a `%Y%m%d_%H%M%S` stamp exactly when they are the same reading. |
| Checkpoint.StepSnapshots | scripts/newsScrapper.py:114-145 | One outcome appends, in order: temp; numbered on a multiple of 5; hourly when its file was not on disk before the outcome. A failure with data appends one error backup, and anything else appends nothing. |
| Checkpoint.StepWrites | scripts/newsScrapper.py:114-145 | One outcome keeps every earlier write. It appends exactly one write per snapshot kind that `StepSnapshots` lists, and each of those writes (temp, numbered, hourly or error backup) holds the whole of `all_data` as it stands after the outcome. |
| Checkpoint.TotalsStep | scripts/newsScrapper.py:115-118 | One outcome extends `all_data` by the returned list and counts it only when it is non-empty; failures and empty lists change neither. |
| Checkpoint.GatheredEmpty | scripts/newsScrapper.py:116-118 | The gathered records are empty exactly when no list was counted, and at most one list is counted per outcome. |
| Checkpoint.RunGathers | scripts/newsScrapper.py:112-118 | `all_data` is the concatenation, in completion order, of the returned lists. |
| Checkpoint.RunCounts | scripts/newsScrapper.py:112-118 | `completed_dates` is the number of tasks that returned a non-empty list. |
| Checkpoint.RunTotals | scripts/newsScrapper.py:112-145 | Both of the above, the count is at most the number of outcomes, and `all_data` is empty exactly while nothing was counted. |
| Checkpoint.PrefixStep | scripts/newsScrapper.py:121-143 | One outcome keeps every snapshot a non-empty prefix of `all_data`. |
| Checkpoint.SnapshotsArePrefixes | scripts/newsScrapper.py:121-143 | Every snapshot the loop writes holds a non-empty prefix of what has been gathered. |
| Checkpoint.FilesStep | scripts/newsScrapper.py:133-136 | One outcome keeps the paths on disk equal to the pre-existing ones plus the written ones. |
| Checkpoint.FilesOnDisk | scripts/newsScrapper.py:133-136 | What `os.path.exists` sees is the pre-existing paths plus every path the loop wrote. |
| Checkpoint.NumberedAdded | scripts/newsScrapper.py:127-129 | One outcome writes `backup_{n}_…` exactly when it is counted and brings the count to n, a multiple of 5. |
| Checkpoint.NumberedBackups | scripts/newsScrapper.py:126-130 | `backup_{n}_…` is written once when n is a positive multiple of 5 no larger than the count, and never otherwise. |
| Checkpoint.TwelveDates | scripts/newsScrapper.py:126-130 | After twelve counted dates the numbered backups are exactly `backup_5_…` and `backup_10_…`. |
| Checkpoint.NumberedCountStep | scripts/newsScrapper.py:126-130 | One outcome adds a numbered backup exactly when it brings the count to a multiple of 5. |
| Checkpoint.NumberedBackupCount | scripts/newsScrapper.py:126-130 | k counted dates leave ⌊k/5⌋ numbered backups. |
| Checkpoint.KindsAdded | scripts/newsScrapper.py:121-136 | One outcome rewrites the temp file once if counted and never otherwise, and never writes the final file. |
| Checkpoint.TempPerDate | scripts/newsScrapper.py:121-123 | The temp file is written exactly once per counted date. |
| Checkpoint.LatestTempStep | scripts/newsScrapper.py:121-123 | A counted date leaves the temp file holding the new `all_data`; any other outcome leaves it as it was. |
| Checkpoint.TempHoldsAll | scripts/newsScrapper.py:121-123 | Once a date is counted, the temp file holds all of `all_data`; before that it was never written. |
| Checkpoint.HourlyOnDisk | scripts/newsScrapper.py:135 | An hourly path exists exactly when it existed before or that hourly backup was written. |
| Checkpoint.BackedHourly | scripts/newsScrapper.py:133-135 | Writing the temp file and a numbered backup does not change whether the hourly file exists. |
| Checkpoint.HourlyAdded | scripts/newsScrapper.py:132-137 | One outcome writes the hourly backup of bucket b exactly when it is counted in hour b and that file is absent. |
| Checkpoint.HourlyBackups | scripts/newsScrapper.py:132-137 | Each hour in which a date was counted gets one hourly backup unless its file pre-existed; no other hour gets one. |
| Checkpoint.ErrorBackupsAdded | scripts/newsScrapper.py:139-143 | One outcome writes an error backup exactly when its task raised while `all_data` was non-empty. |
| Checkpoint.NumberedBackupsAdded | scripts/newsScrapper.py:126-130 | One outcome writes one numbered backup when it brings the count to a multiple of 5, and none otherwise. |
| Checkpoint.ErrorBackupCount | scripts/newsScrapper.py:139-144 | There are as many error backups as tasks that raised after some date had been counted. |
| Checkpoint.FinalOnlyAtEnd | scripts/newsScrapper.py:147-149 | The loop itself never writes the final file; only the write after it does. |

## Left out

- The headless Chrome session is not modelled: options, `driver.get`, `time.sleep(5)`, `page_source`, `driver.quit()` and the `print` of the address. A page load is the input function `load`, which gives rows or an error.
- BeautifulSoup's parsing and CSS selection are not modelled. A row holds the results of the selectors the loop applies: `None` where `select_one` finds nothing, otherwise the element's text or title. A found element is always truthy, so `if span:` is a presence test.
- `ThreadPoolExecutor` and `as_completed` are not modelled. Completion order is an input. `ScrapeAll` runs every task first (`RunTasks`) and then consumes the outcomes in that order (`ProcessResults`), which gives the same values as consuming them one by one. Concurrent execution and the ten-worker limit are not modelled.
- pandas and `to_csv` are not modelled. A write is a log entry holding the snapshot kind and the records written. Column order and CSV serialisation are not modelled. A file rewritten twice appears twice in the log.
- `datetime.now()` is the clock carried by each completion. `os.path.exists` is membership in a set of paths. That set starts as arbitrary pre-existing files, and every write adds its path.
- An exception raised by `to_csv` or by `print` inside the `try` is not modelled: only `future.result()` raises.
- All `print` output is left out.
- `strptime` is modelled for ASCII digits only. CPython's regexes also accept other Unicode decimal digits.
- Calendar.DateKey and Text.Pad4: `%Y` is modelled as four zero-padded digits for every year; for years below 1000 CPython's output depends on the platform.
- Checkpoint.ProcessResults: two error backups taken in the same second go to the same path and overwrite each other on disk; the log keeps both writes.
- Three behaviours of the code that a reader might not expect are kept as the code has them:
  - a start date after the end date makes `generate_dates` return `[]` and raise nothing (scripts/newsScrapper.py:16);
  - a task that returns `[]` is neither counted nor saved, because `if data:` is false for an empty list (scripts/newsScrapper.py:116);
  - a data row whose time span is present but empty still yields a record, with Time `""`, because `if not time_td:` tests only whether the span was found (scripts/newsScrapper.py:57-59).
