# Hourly electricity cost reconciliation, modelled in Dafny

This project models the processing core of `data_processing.py`. The pipeline joins an hourly
spot-price file and an hourly household-consumption file into a per-hour, per-day cost report for
2024. It has five parts:

- **Number parsing** (`parse_finnish_float`): numbers written with a decimal comma (`5,5`) are
  read by replacing every comma with a dot and handing the text to Python's `float()`.
- **Two loaders**:
  - `read_csv` folds the `;`-separated price rows into a dictionary keyed by timestamp.
  - `read_consumption_csv` does the same for the consumption rows. It prefers the day-rate
    column, falls back to the night-rate column, and forces the year to 2024.
  - Both drop the header row and skip any row that fails to parse.
- **Reconciliation** (`process_data`): walks the days from 2024-01-01 while the day is before
  the earlier of 2025-01-01 and today.
  - Each day gets 24 hourly records: consumption, price, and cost = price × consumption / 100.
    A missing reading counts as 0.
  - Each day also gets its total cost and total consumption.
- **Flattening** (`save_processed_data`): the report becomes one row per (day, hour), in order.
- **File choice** (`__main__`): the consumption file with the latest modification time is
  chosen. An empty listing is an error.

Modules, one per file:

| file | module | models |
|---|---|---|
| `wrappers.dfy` | `Wrappers` | `Option` and `Result` |
| `locale.dfy` | `Locale` | `str.strip()`, the comma-to-dot replacement, `float()` on decimal numerals, and a formatter as the parser's partner |
| `calendar.dfy` | `Calendar` | Gregorian dates and leap years, date comparison, day numbers, `date + timedelta(days=1)` |
| `stamps.dfy` | `Stamps` | `strptime` for the two fixed layouts `%Y-%m-%dT%H:%M:%S` and `%d.%m. %H:%M:%S`, with their formatters |
| `loaders.dfy` | `Loaders` | `read_csv` and `read_consumption_csv`, as loops over the rows and as a fold (`Collect`) |
| `reconcile.dfy` | `Reconcile` | `process_data`, with today's date as a parameter |
| `report.dfy` | `Report` | the row loop of `save_processed_data` |
| `selector.dfy` | `Selector` | `max(consumption_files, key=os.path.getmtime)` and the `FileNotFoundError` for no files |
| `sample.dfy` | `Sample` | one price row and one consumption row followed to the first row of the saved report |

A file is given as the rows the CSV reader yields (`seq<seq<string>>`). Python's dictionaries
are modelled as follows:

- The loaders' dictionaries are `map<Timestamp, real>`.
- The result of `process_data` is a sequence of day entries in insertion order. Its dates are
  distinct and increasing (`Reconcile.DatesIncrease`), so the sequence carries the same content
  as the dictionary. It also carries the order in which `save_processed_data` iterates it.

Three facts about the code shape the model:

- **Numbers.** `parse_finnish_float` turns every comma into a dot and hands the text to
  `float()`, which accepts surrounding whitespace, a sign, whole numbers, `5.` and `.5` as well
  as `digits.digits`. So `parse_finnish_float` accepts `5,` and `,5` as well as
  `digits,digits`. `Locale.ParseFloat` reads the decimal numerals that `float()` accepts (see
  "Left out"), and `Locale.ParseFinnishFloat` reads the comma form.
- **Year.** The code fixes the year at 2024, both in `read_consumption_csv` and in
  `process_data` (data_processing.py:38, 58). The model uses `Calendar.ProcessingYear == 2024`.
- **Timestamps.** The code parses and keys on minutes and seconds as well as hours.
  `process_data` looks up only `hh:00:00`, so a reading stamped off the hour never reaches the
  report.

## Model

| member | source | states |
|---|---|---|
| `Locale.ParseFinnishFloat` | data_processing.py:12-13 | no contract of its own; `Locale.ParseFinnishDigits`, `Locale.FormatFinnishRoundTrip`, `Locale.FormatFinnishCanonical`, `Locale.NonNumeralRejected`, `Locale.SeparatorRejected` and `Locale.ParseStripped` state what it accepts and the value it gives |
| `Locale.ParseFloat` | data_processing.py:13 | no contract of its own; `Locale.StripNumeral` states that a numeral with a digit or a dot at both ends reads as `Locale.ParseUnsigned` reads it, `Locale.SignedParse` that a leading `-` negates the reading, and `Locale.SeparatorRejected`, `Locale.NonNumeralRejected` and `Locale.ParseStripped` (through `Locale.ParseFinnishFloat`) which texts it rejects and that surrounding whitespace leaves the reading unchanged |
| `Locale.Strip` | data_processing.py:39-40 | what `strip()` leaves is a contiguous slice of the text; `Locale.StripEnds`, `Locale.StripRemovesOnlySpace`, `Locale.StripEmptyIffBlank` and `Locale.StripIdempotent` state that only surrounding whitespace is removed |
| `Locale.CommaToDot` | data_processing.py:13 | `replace(',', '.')` keeps the length, turns every comma into a dot, keeps every other character, and leaves no comma |
| `Locale.StripEmptyIffBlank` | data_processing.py:39-44 | `strip()` gives the empty (false) string exactly when every character is whitespace |
| `Locale.StripRemovesOnlySpace` | data_processing.py:39-40 | every character `strip()` removes is whitespace |
| `Locale.StripIdempotent` | data_processing.py:39-40 | stripping twice is stripping once |
| `Locale.StripCommaToDot` | data_processing.py:12-13 | replacing commas and stripping commute |
| `Locale.ParseStripped` | data_processing.py:39-45 | a column without an information separator (U+001C to U+001F) reads as the same number stripped or not, and a column that strips to nothing reads no number |
| `Locale.SeparatorRejected` | data_processing.py:12-13 | an information separator (U+001C to U+001F) anywhere in the text makes the conversion fail, although `strip()` would remove it at either end |
| `Locale.NumeralHasNoSeparator` | data_processing.py:12-13 | an accepted unsigned numeral holds no information separator |
| `Locale.ParseFinnishDigits` | data_processing.py:12-13 | `digits,digits` reads as the whole part plus the fraction digits divided by 10 to the power of their count |
| `Locale.FormatFinnishCanonical` | data_processing.py:12-13 | the other direction of the round trip: a numeral `whole,frac` whose whole part has no leading zero is exactly the rendering, with as many decimals as `frac` has digits, of the value it reads as |
| `Locale.FormatFinnishRoundTrip` | data_processing.py:12-13 | for every integer n and k ≥ 0, n / 10^k written with a decimal comma and k decimals (negative numbers included) reads back as exactly n / 10^k |
| `Locale.NonNumeralRejected` | data_processing.py:12-13 | a character that is not a digit, whitespace, sign, comma or dot, anywhere in the text, makes the model's decimal reading fail (see `Locale.ParseFloat` under Left out for the forms `float()` accepts beyond it) |
| `Calendar.NextDay` | data_processing.py:84 | `+ timedelta(days=1)` gives a valid date, later than the given one, whose day number is one more |
| `Calendar.NothingBetween` | data_processing.py:84 | no valid date lies strictly between a date and its next day |
| `Calendar.Earlier` | data_processing.py:59 | `min` of two dates is one of them and neither is before it |
| `Calendar.BeforeIffOrdinalLess` | data_processing.py:61 | date comparison agrees with the order of day numbers |
| `Calendar.Before` | data_processing.py:61 | no contract of its own; `Calendar.BeforeIffOrdinalLess` states that it agrees with day-number order, and `Reconcile.BeforeEndIff` that the loop test holds for exactly the first `Reconcile.WindowLength` dates |
| `Stamps.ParsePriceStamp` | data_processing.py:23 | an accepted price timestamp is a valid date and time |
| `Stamps.PriceStampRoundTrip` | data_processing.py:23 | every valid timestamp written as `YYYY-MM-DDTHH:MM:SS` parses back to itself |
| `Stamps.PriceStampCanonical` | data_processing.py:23 | every accepted price timestamp is the canonical rendering of its value, so distinct texts give distinct keys |
| `Stamps.ParseDayMonthStamp` | data_processing.py:37 | an accepted `DD.MM. HH:MM:SS` is valid in the year supplied for it and carries that year |
| `Stamps.ConsumptionStamp` | data_processing.py:37-38 | an accepted consumption timestamp is a valid 2024 date and time |
| `Stamps.ConsumptionStampAsWritten` | data_processing.py:37-38 | a consumption timestamp read against 1900 and moved to 2024 is a valid 2024 date and time, and never 29 February |
| `Stamps.ReplaceYear` | data_processing.py:38 | no contract of its own; `Stamps.ConsumptionStampAsWritten` states that the moved timestamp is a valid 2024 date and time, and `Stamps.AsWrittenDropsLeapDay` that reading against 1900 loses exactly the 29 February stamps before the move; `Stamps.MoveFromDefaultYear` that the move itself never fails |
| `Stamps.MoveFromDefaultYear` | data_processing.py:38 | moving any valid 1900 timestamp to 2024 succeeds and changes only the year |
| `Stamps.ConsumptionStampCanonical` | data_processing.py:37-38 | every accepted consumption timestamp is the canonical rendering of its value, so distinct texts give distinct keys |
| `Stamps.ConsumptionStampRoundTrip` | data_processing.py:37-38 | every valid 2024 timestamp written as `DD.MM. HH:MM:SS` parses back to itself |
| `Stamps.AsWrittenDropsLeapDay` | data_processing.py:37-38 | parsing against `strptime`'s default year 1900 and then moving to 2024 gives the intended timestamp for every row except those dated 29 February, which are lost |
| `Stamps.LeapDayRowRejected` | data_processing.py:37-38 | `29.02. 13:00:00` reads as 2024-02-29 13:00 when validated in 2024, and is rejected as written |
| `Loaders.Collect` | data_processing.py:21-24 | no contract of its own; `Loaders.CollectKeys`, `Loaders.CollectLastWins` and `Loaders.CollectSkips` state which keys the loop stores and which value each keeps |
| `Loaders.Store` | data_processing.py:50 | no contract of its own: `data[timestamp] = value` (also at line 24) for a row with a reading, nothing for a skipped row; `Loaders.CollectLastWins` and `Loaders.StoreWithoutLeapDays` state its effect |
| `Loaders.CollectKeys` | data_processing.py:21-24 | a timestamp is a key of the loaded dictionary exactly when some data row yields a reading under it |
| `Loaders.CollectLastWins` | data_processing.py:21-24 | the value under a key is the one from the last row yielding that key |
| `Loaders.CollectSkips` | data_processing.py:22-26 | a row that yields nothing can be removed without changing the dictionary, wherever it stands |
| `Loaders.PriceRow` | data_processing.py:22-26 | a price row yields a reading exactly when it has at least 4 columns, a timestamp that parses in column 0 and a number that parses in column 3, and the reading is those two values |
| `Loaders.PriceRowReads` | data_processing.py:23-24 | a row with any valid timestamp in column 0 and any Finnish decimal in column 3 yields exactly that timestamp and value, whatever the other columns hold |
| `Loaders.PriceRowSource` | data_processing.py:23 | a row that yields a reading holds the canonical rendering of its key in column 0 |
| `Loaders.ReadPrices` | data_processing.py:15-27 | a file with no rows fails as `next(reader)` does; otherwise the result is the fold of every row after the header, so the header never contributes |
| `Loaders.ConsumptionRow` | data_processing.py:36-51 | a consumption row yields a reading only with at least 3 columns and a timestamp that parses in column 0 as written (against 1900, then moved to 2024), so its key lies in 2024 and is never 29 February |
| `Loaders.RateReading` | data_processing.py:39-48 | no contract of its own; `Loaders.DayRateFirst`, `Loaders.NightRateSecond` and `Loaders.BothRatesBlank` state the choice between the day-rate and night-rate columns |
| `Loaders.IntendedConsumptionRow` | data_processing.py:36-51 | the same row with its timestamp validated in 2024: a reading only with at least 3 columns and a 2024 timestamp in column 0 |
| `Loaders.ConsumptionRowDropsLeapDay` | data_processing.py:37-38 | a row yields as written exactly what it yields as intended, except that a reading dated 29 February is lost |
| `Loaders.WithoutLeapDays` | data_processing.py:37-38 | a dictionary without its 29 February keys keeps every other key, with its value |
| `Loaders.StoreWithoutLeapDays` | data_processing.py:50 | storing a reading and then dropping 29 February equals dropping it first and storing any reading not dated 29 February |
| `Loaders.CollectDropsLeapDays` | data_processing.py:35-50 | the consumption dictionary as written is the intended dictionary with its 29 February keys removed, every other key keeping its value |
| `Loaders.DayRateFirst` | data_processing.py:39-43 | a non-blank day-rate column decides the reading: the night-rate column can be replaced by anything, the reading is the stripped day-rate column's number, and a day-rate column without an information separator reads as it stands |
| `Loaders.NightRateSecond` | data_processing.py:39-45 | with a blank day-rate column, the stripped night-rate column decides the reading, and so does the unstripped one when it holds no information separator |
| `Loaders.BothRatesBlank` | data_processing.py:39-48 | a row with both rate columns blank is skipped, as written and as intended |
| `Loaders.ReadConsumption` | data_processing.py:29-54 | a file with no rows fails; otherwise the result is the fold of every row after the header, each read as written |
| `Loaders.ConsumptionKeysInYear` | data_processing.py:37-50 | every key of the consumption dictionary is a valid timestamp in 2024 and not 29 February, whatever the rows hold |
| `Reconcile.Get` | data_processing.py:67-68 | no contract of its own; `Reconcile.HourAt` states the stored value for a key and 0 for a missing one |
| `Reconcile.HourLabel` | data_processing.py:71 | the label has five characters; `Reconcile.HourLabelReadsBack` and `Reconcile.HourLabelsAscending` state that it reads back as its hour and sorts in hour order |
| `Reconcile.HourAt` | data_processing.py:66-75 | an hour's record has the label of its hour; its price and consumption are the stored values when that hour's timestamp is a key, and 0 otherwise, and then the cost is 0 as well; 100 × cost = price × consumption |
| `Reconcile.HourLabelReadsBack` | data_processing.py:71 | the label of hour h reads back as h and ends in `:00` |
| `Reconcile.HourLabelsAscending` | data_processing.py:65-71 | the labels of hours g < h compare g's before h's as strings |
| `Reconcile.SumsAppend` | data_processing.py:76-77 | each record adds its cost and its consumption to the running totals |
| `Reconcile.SumCost` | data_processing.py:76-82 | no contract of its own; `Reconcile.SumsAppend` and `Reconcile.IdleHoursSumToZero` state it, and `Reconcile.ReconcileDay` that `daily_total_cost` ends as this sum over the 24 records |
| `Reconcile.SumConsumption` | data_processing.py:76-82 | no contract of its own; `Reconcile.SumsAppend` and `Reconcile.IdleHoursSumToZero` state it, and `Reconcile.ReconcileDay` that `daily_total_consumption` ends as this sum over the 24 records |
| `Reconcile.HoursUpTo` | data_processing.py:65-75 | the first n hours of a day give n records |
| `Reconcile.HoursUpToAt` | data_processing.py:65-75 | record h of a day is the record of hour h |
| `Reconcile.ReconcileDay` | data_processing.py:62-83 | the inner loop gives the records of hours 0 to 23 in order, and totals equal to the sums of their costs and consumptions |
| `Reconcile.IdleHoursSumToZero` | data_processing.py:76-77 | records with zero consumption and cost add nothing to the totals |
| `Reconcile.IdleDay` | data_processing.py:67-77 | a day with no consumption reading has zero total cost and consumption, whatever the prices |
| `Reconcile.YearSpan` | data_processing.py:58-59 | 2024-01-01 and 2025-01-01 are 366 days apart |
| `Reconcile.DateAt` | data_processing.py:84 | the i-th date visited is valid and i days after 2024-01-01 |
| `Reconcile.DateBeforeYearEnd` | data_processing.py:84 | every date of 2024 visited has a next day, which is the next date visited |
| `Reconcile.WindowEnd` | data_processing.py:59 | no contract of its own; `Calendar.Earlier` states that `min` gives one of 2025-01-01 and today, and `Reconcile.WindowCovers` states the dates it bounds |
| `Reconcile.WindowLength` | data_processing.py:59-61 | the loop visits at most 366 dates |
| `Reconcile.BeforeEndIff` | data_processing.py:61 | the loop test `current_date < end_date` holds exactly for the first `WindowLength` dates |
| `Reconcile.DatesIncrease` | data_processing.py:84 | the dates visited strictly increase, so they are distinct keys |
| `Reconcile.WindowEmpty` | data_processing.py:58-61 | nothing is visited exactly when today is not after 2024-01-01 |
| `Reconcile.WindowFullYear` | data_processing.py:58-61 | from 2025-01-01 on, all 366 days of 2024 are visited |
| `Reconcile.WindowCovers` | data_processing.py:58-84 | a date is visited exactly when it is on or after 2024-01-01 and before both today and 2025-01-01 |
| `Reconcile.WindowIndex` | data_processing.py:58-84 | a date of 2024 before today is visited at position equal to its distance from 2024-01-01 |
| `Reconcile.WindowDate` | data_processing.py:58-84 | every date visited is in 2024 and before today |
| `Reconcile.ReportGrows` | data_processing.py:79-84 | adding the entry of the next date keeps the report a correct prefix |
| `Reconcile.ProcessData` | data_processing.py:56-86 | the result has one entry per date of the window, in order, each with that date's 24 records and their totals |
| `Report.DayRows` | data_processing.py:98-105 | a day gives as many rows as it has records |
| `Report.FlattenReport` | data_processing.py:97-105 | the nested loops emit the rows of each day's records, day by day, then hour by hour |
| `Report.Flattened` | data_processing.py:97-105 | no contract of its own; `Report.FlattenedLength`, `Report.FlattenedAt` and `Report.SavedRow` state the length and every row |
| `Report.DayRowsAt` | data_processing.py:98-105 | row h of a day is the row of its record h |
| `Report.RowOf` | data_processing.py:99-105 | no contract of its own; `Report.DayRowsAt`, `Report.FlattenedAt` and `Report.SavedRow` state that each written row carries the date, label, consumption, price and cost of its hour record |
| `Report.FlattenedLength` | data_processing.py:97-98 | with 24 records a day, there are 24 rows per day |
| `Report.FlattenedAt` | data_processing.py:97-105 | row 24i + h is hour h of day i |
| `Report.SavedRow` | data_processing.py:97-105 | for a report of `process_data`, row 24i + h holds the i-th date, the label of hour h, the price and consumption stored for that hour, and a cost with 100 · cost = price · consumption (`Report.CostMatches`) |
| `Report.SavedRowIs` | data_processing.py:97-105 | for a report of `process_data`, row 24i + h is the row written from the record of hour h on the i-th date |
| `Report.RowOfHour` | data_processing.py:99-105 | a row written from an hour's record holds its date, its label, the stored-or-zero price and consumption, and a cost with 100 · cost = price · consumption |
| `Selector.NewestFile` | data_processing.py:114-120 | no files gives `FileNotFoundError`; otherwise the path is that of the first file with the largest modification time |
| `Selector.NewestUnique` | data_processing.py:120 | only one position is both maximal and first among the maximal, so the choice is determined |
| `Sample.OneDecimal` | data_processing.py:12-13 | a one-digit whole part, a comma and one fraction digit `a,b` read as a + b/10 |
| `Sample.PriceLineReads` | data_processing.py:21-24 | `2024-01-01T00:00:00;zone;x;5,5` yields 5.5 at 2024-01-01 00:00 |
| `Sample.ConsumptionLineReads` | data_processing.py:37-50 | `01.01. 00:00:00;2,0;` yields 2.0 at 2024-01-01 00:00 |
| `Sample.SampleHour` | data_processing.py:66-75 | with those readings, hour 0 of 2024-01-01 is `00:00`, consumption 2.0, price 5.5, cost 0.11 |
| `Sample.FirstSavedRow` | data_processing.py:97-105 | with files holding those two rows, the first saved row is `2024-01-01, 00:00, 2.0, 5.5, 0.11` |

## Left out

- `detect_encoding` (data_processing.py:7-10) is left out. It delegates to the statistical library `chardet`, which is not part of this model. Files enter the model already decoded and split into rows.
- File opening and `csv.reader` tokenisation are left out. So are `os.makedirs`, `os.path.join` and the `csv.DictWriter` output. These are I/O.
- The `print` logging and the `'Yhteensä'` message filter are left out. They change only the log, not the data.
- The `__main__` wiring (data_processing.py:110-124) is not modelled as one operation. Its pieces are modelled: `Selector.NewestFile`, `Loaders.ReadPrices`, `Loaders.ReadConsumption`, `Reconcile.ProcessData` and `Report.FlattenReport`.
- `glob.glob` and `os.path.getmtime` become an input list of (path, modification time) pairs, in the order `glob` returns them.
- `date.today()` becomes the parameter `today` of `Reconcile.ProcessData`.
- `Locale.ParseFloat` reads only decimal numerals: surrounding whitespace, an optional sign, and `digits`, `digits.digits`, `digits.` or `.digits`. It rejects forms `float()` also accepts: exponents, `_` digit separators, `inf`/`nan`, and non-ASCII digits. A rejected numeral skips its row, just as a `ValueError` does.
- `Stamps.ParsePriceStamp` matches the `T` of `%Y-%m-%dT%H:%M:%S` case-sensitively and accepts only ASCII digits. `strptime` matches literals case-insensitively (`2024-01-01t00:00:00` parses) and its digit fields accept non-ASCII digits; both are left out. `Stamps.ParseDayMonthStamp` likewise accepts only ASCII digits.
- Numbers are exact `real`s rather than IEEE doubles, so the conversion does no rounding and neither does `cost = price * cons / 100` or the daily sums.
- `Reconcile.Get` returns `0.0` for a missing key where `dict.get(k, 0)` returns the integer 0. The value is the same; the report's text (`0` versus `0.0`) is not modelled.
- `Report.FlattenReport` yields rows as values. The writer's text for dates and floats is not modelled.
- `Stamps.ParsePriceStamp` accepts only the zero-padded fixed-width layout. `strptime` also accepts single-digit month, day, hour, minute and second fields and a space-padded day (`2024-01- 1T00:00:00`), which are left out.
- `Stamps.ParseDayMonthStamp` accepts only the zero-padded fixed-width layout with exactly one space. `strptime` also accepts single-digit fields, a space-padded day (` 1.01. 00:00:00`) and any run of whitespace where the format has its space.
- `Loaders.ReadPrices` and `Loaders.ReadConsumption` return a `map`. The insertion order of the Python dictionary is left out; `process_data` only looks keys up.
- A timestamp keeps minutes and seconds, as `datetime` does. The microsecond field is always 0 here and is not modelled.
- A missing file raises `FileNotFoundError`, which ends the program. Only the empty listing (data_processing.py:116-117) is modelled, as `Failure(Selector.NoConsumptionFile)`. An empty file, on which `next(reader)` raises `StopIteration`, is modelled as `Failure(MissingHeader)`.

## Findings

| source | as written | input that shows it | evidently intended | confidence | as-written member | corrected member |
|---|---|---|---|---|---|---|
| data_processing.py:37-38 | `strptime(row[0], '%d.%m. %H:%M:%S')` has no year in its format, so it validates the day against the default year 1900. 1900 is not a leap year, so 29 February raises `ValueError` before `.replace(year=2024)` runs, and the row is skipped. As a result, every hour of 2024-02-29 reports consumption 0 and cost 0. | a consumption row `29.02. 13:00:00;1,5;` | the fields are read as a 2024 date, giving 2024-02-29 13:00 with 1.5 kWh | not executed | `Stamps.AsWrittenDropsLeapDay` | `Stamps.ConsumptionStamp` |

The as-written reading is `Stamps.ConsumptionStampAsWritten`. `Stamps.AsWrittenDropsLeapDay` proves that it is the intended reading with exactly the 29 February rows removed, and `Stamps.LeapDayRowRejected` shows one such row. The loader reads as written: `Loaders.ConsumptionRow` and `Loaders.ReadConsumption` use `Stamps.ConsumptionStampAsWritten`. The corrected reading is `Stamps.ConsumptionStamp`, which validates the fields in 2024; `Stamps.ConsumptionStampRoundTrip` proves it reads back every valid 2024 timestamp, 29 February included. `Loaders.IntendedConsumptionRow` loads a row with it, and `Loaders.CollectDropsLeapDays` proves that the dictionary as written is the intended dictionary without its 29 February keys.
