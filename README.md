# Bus-line timetable expansion, modelled in Dafny

The system turns a compact bus timetable into a day-by-day schedule for one month. The timetable is a spreadsheet with:

- one row per line, month, day type and direction;
- the day types `Hafta İçi` (weekday), `Cumartesi` (Saturday) and `Pazar` (Sunday);
- the directions `G` and `D`;
- departure hours in the columns after the first four.

`generate_schedule(excel_path, output_path, year)` does the following:

1. It checks that the timetable names exactly one line (`Hat No`) and one month (`Ay`).
2. It lists every date of that month in the given year.
3. It classifies each date as a weekday, a Saturday or a Sunday.
4. For each date it emits two rows, `G` then `D`. Each row holds:
   - the line;
   - the date as `YYYY-MM-DD`;
   - the direction;
   - the hours of the matching timetable rows, flattened row after row, with empty cells dropped and timestamps reduced to their time of day (when the hour columns are not all date-time columns; see "## Left out");
   - empty strings that pad the row.
5. It names the columns `Hat No`, `Tarih`, `Yön`, `Saat1`, `Saat2`, … and builds the output table.

The same routine appears twice in the repository, in `app.py` and in `Untitled-1.py`. The model cites either copy.

Modules:

- `Wrappers` holds `Option` and `Result`.
- `Calendar` holds Python's proleptic Gregorian `datetime` arithmetic:
  - dates are (year, month, day) triples;
  - `toordinal`, `weekday()` and `timedelta` addition are modelled and proved consistent with one another;
  - the month's date list is built from the first day and the last day, exactly as the routine builds it.
- `Format` holds `strftime('%Y-%m-%d')` and the decimal numerals in the column names, with their round trips.
- `Sheet` holds the timetable as the routine reads it: cells, rows, `unique()`, `flatten()` and the clean-up of the hour cells.
- `Schedule` holds the routine itself:
  - `Generate` is the specification, written stage by stage;
  - `GenerateSchedule` runs the nested loops over dates and directions and is proved equal to `Generate`;
  - lemmas state what the result is.
- `RunWidth` covers the table width. The width as written breaks the table build when a later row is wider than the first row (see Findings). This module also holds the run-wide width that fixes it.

Errors become `Err` values of `Schedule.Error`:

- `AmbiguousLineOrMonth` is the `ValueError` for several lines or months.
- `MonthNotInteger` and `DateOutOfRange` are the errors `datetime(year, month, 1)` raises. `DateOutOfRange` also covers `datetime(year + 1, 1, 1)` failing for December 9999 (app.py:29).
- `ColumnCountMismatch` is the error `pd.DataFrame` raises when the widest row is not exactly as wide as the header.

## Model

| member | source | states |
|---|---|---|
| Schedule.Generate | app.py:19-56 | The run succeeds only if validation succeeds. A validation error is returned unchanged. After a successful validation, the only possible failure is the table build's column-count error. |
| Schedule.GenerateSchedule | app.py:19-56 | The routine's own control flow gives exactly the specification `Generate`: checks, date list, the nested loops, the table build. |
| Schedule.ExpandRows | app.py:33-54 | The loop over the dates appends, for each date in order, that date's two rows. The result is `ScheduleRows` of the whole date list. |
| Schedule.DirectionRows | Untitled-1.py:41-60 | The loop over `["G", "D"]` emits the `G` row and then the `D` row of one date. |
| Schedule.DirectionRow | app.py:42-54 | One pass of the inner loop: filter, flatten, clean and pad. The row it assembles is the row of that date and direction. |
| Schedule.Validate | Untitled-1.py:9-24 | Succeeds only on a non-empty table with an integer month whose date range exists. It returns the first row's line and month. |
| Schedule.RejectsAmbiguousTable | app.py:21-24 | The routine fails with the line-or-month error iff the table is empty or some row's `Hat No` or `Ay` differs from the first row's. |
| Schedule.RejectsInvalidMonth | app.py:26-31 | For a single-line, single-month table, there are two error cases. A non-integer month fails. An integer month fails with a date error iff the year is outside 1..9999, or the month is outside 1..12, or the month is December 9999. |
| Calendar.MonthDates | app.py:27-32 | The date list exists under exactly those conditions. It has one entry per day of the month, and entry i is day i+1, a valid `datetime` date. |
| Calendar.Ordinal | app.py:32 | `toordinal()`: every date `datetime` accepts has an ordinal of at least 1. |
| Calendar.NextDay | Untitled-1.py:27 | The next day is a valid date whose ordinal is one larger. |
| Calendar.PrevDay | app.py:28-31 | `- timedelta(days=1)`: the day before a valid date is a valid date whose next day is that date. |
| Calendar.AddDays | app.py:32 | `start_date + timedelta(days=i)` is a valid date whose ordinal is i larger. |
| Calendar.DayOfWeek | app.py:35-39 | `weekday()` is always one of 0..6. |
| Calendar.MonthDatesConsecutive | Untitled-1.py:20-27 | The dates run from the 1st to the month's last day. Each is the day after the previous one. The day after the last is the first of the next month, or of the next January. |
| Calendar.MonthDatesAscending | Untitled-1.py:27 | Later entries of the date list have larger ordinals, so no date repeats. |
| Calendar.AddDaysIsTimedelta | app.py:32 | Adding n days gives the unique valid date whose ordinal is n larger. |
| Calendar.OrdinalInjective | app.py:32 | Distinct valid dates have distinct ordinals. |
| Calendar.DayOfWeekAddDays | app.py:35 | Moving n days ahead moves the weekday n places ahead, modulo 7. |
| Calendar.DayOfWeekNextDay | Untitled-1.py:33 | The next day has the next weekday, and Sunday wraps to Monday. |
| Calendar.FirstDayIsMonday | app.py:35 | The ordinal's anchor 0001-01-01 has ordinal 1 and is weekday 0, Monday, as in `datetime`. |
| Calendar.DaysInMonth | Untitled-1.py:21-24 | A month has 28 to 31 days. February has 29 in leap years and 28 otherwise. April, June, September and November have 30. The other seven months have 31. |
| Schedule.DayTypeOf | app.py:35-40 | Monday to Friday are weekdays, Saturday is Saturday and Sunday is Sunday. Each holds in both directions, so the three cases are exhaustive and exclusive. |
| Schedule.LabelInjective | Untitled-1.py:33-38 | The three labels differ, so a timetable row's label selects one day type. |
| Schedule.KeyEquals | app.py:43-46 | The mask's `==` holds iff both cells are equal and present. A missing cell (NaN) matches nothing, not even another missing cell. |
| Schedule.Matches | Untitled-1.py:44-47 | A row that passes the mask has a present line and present month, day type and direction cells. |
| Schedule.Matching | app.py:42-47 | Every selected row is a table row that passes all four filters, and the selection is no longer than the table. |
| Schedule.MatchingComplete | Untitled-1.py:43-48 | Every table row that passes all four filters is selected. |
| Schedule.MatchingAppend | app.py:42-47 | The selection keeps table order and multiplicity. Selecting from two tables laid end to end gives the first table's selection followed by the second's. |
| Schedule.MatchingSingle | app.py:42-47 | A one-row table is selected whole iff its row passes all four filters, and otherwise nothing is selected. |
| Schedule.Hours | app.py:48-52 | Every hour is a present value. No matching row gives no hours. |
| Schedule.HoursOfMatchingRows | app.py:48-52 | The hours are each matching row's cleaned cells, one row after another. No matching row gives no hours. |
| Schedule.HoursWithinDeclared | Untitled-1.py:50-56 | With at most one matching row of the declared width, there are no more hours than declared columns. |
| Sheet.TimeOfDay | app.py:50 | A timestamp becomes its time of day. Any other present value is kept unchanged. The result is always a present value. |
| Sheet.Normalize | app.py:50 | The cleaned list is no longer than its input. It holds only present values. It is empty iff every input cell is missing. |
| Sheet.NormalizeAppend | Untitled-1.py:52-54 | Cleaning works cell by cell, so it distributes over concatenation. |
| Sheet.NormalizePosition | Untitled-1.py:54 | Every present cell lands, reduced to its time of day, at the position given by the number of present cells before it. |
| Sheet.Flatten | app.py:49 | Flattening gives no cells iff no selected row has an hour cell. |
| Sheet.FlattenLength | app.py:49 | Flattening rows of one width w gives rows × w cells. |
| Sheet.DistinctCount | app.py:21-23 | `len(unique())` is 0 exactly for an empty column. |
| Sheet.DistinctCountOne | Untitled-1.py:9-13 | `len(unique()) == 1` iff the column is non-empty and constant. |
| Schedule.PadHours | app.py:53-54 | The padded hours have `max(declared, own)` cells. The hours are an unchanged prefix, followed only by empty strings. |
| Schedule.Row | Untitled-1.py:59-60 | A row is the line, the formatted date and the direction, then the padded hours. |
| Schedule.ScheduleRows | app.py:33-54 | `new_data` has two rows per date. |
| Schedule.ScheduleRowsAt | app.py:34-54 | Row k belongs to date k/2, in direction `G` for even k and `D` for odd k. |
| Schedule.RunRows | app.py:33-54 | A valid run has two rows per day of the month. For each row k, day k/2+1 of the month is a valid date, and the row has at least its three key cells. |
| Schedule.RunRowsAt | Untitled-1.py:31-60 | Row k of a valid run is the row of day k/2+1 in direction `G` for even k and `D` for odd k. |
| Schedule.RowsInDateOrder | Untitled-1.py:31-60 | The output has two rows per day, in ascending date order, `G` before `D`. Every row starts with the line, the date as `YYYY-MM-DD` and its direction. |
| Schedule.NoRepeatedDateDirection | app.py:34-54 | No two output rows share both date and direction. |
| Schedule.RowWidth | app.py:53-54 | Row k starts with the line, its date as `YYYY-MM-DD` and its direction. It has 3 + max(declared, own hours) cells. Its hours sit unchanged after the key cells, followed only by empty strings. |
| Schedule.UniformWidth | app.py:49-56 | Take a table with one cell per declared column that passes the three checks. Suppose at most one row matches each day type and each direction `G`, `D`. Then the routine succeeds: the table has the header `Hat No, Tarih, Yön, Saat1..Saat<declared>`, its rows are `new_data` unchanged, and every row has exactly 3 + declared cells. |
| Schedule.FailsOnWiderLaterRow | app.py:55-56 | With the header taken from the first row, the table build fails iff some row is wider than the first. Otherwise the header is sized by the first row. |
| Schedule.ColumnNames | Untitled-1.py:63 | The header is `Hat No`, `Tarih`, `Yön`, then `Saat1` … `Saat<n>`. |
| Schedule.ColumnNamesDistinct | app.py:55 | No two column names are equal. |
| Schedule.Frame | Untitled-1.py:64 | Building the table succeeds iff no row is longer than the header and, when there are rows, some row is exactly as wide as the header. Otherwise it fails with the column-count error. On success the header is kept and every row is as wide as it. A shorter row keeps its cells and is filled with missing values. |
| Schedule.MaxWidth | app.py:56 | The width pandas gives a list of rows: at least every row's width and, for a non-empty list, equal to some row's width. |
| Format.FormatDate | app.py:54 | The date string has 10 characters, with `-` at positions 4 and 7. |
| Format.FormatDateRoundTrip | Untitled-1.py:60 | Reading the `YYYY-MM-DD` string back gives the date. |
| Format.FormatDateInjective | app.py:54 | Distinct dates are written as distinct strings. |
| Format.ParseDecimal | Untitled-1.py:63 | The numeral in `Saat<i>` reads back as i. |
| RunWidth.PadAll | app.py:54 | Each row is padded to the common width, its cells an unchanged prefix, followed only by empty strings. |
| RunWidth.RunWideFitsEveryRow | app.py:53-56 | With one width for the whole run, a valid run always builds its table. The header has at least the declared hour columns. It is exactly as wide as the widest row, so it covers every row. Each row keeps its cells, then empty strings. |
| RunWidth.SecondMatchingRowBreaksTable | app.py:53-56 | The routine as written fails on a two-row weekday timetable for June 2025. The run-wide version succeeds on the same input. |

## Left out

- The Flask request handler `index` (app.py:62-117) is not modelled. Neither are the upload, zip and cleanup plumbing or the `app.run` entry point. They are web I/O around the routine.
- The folder creation at app.py:11-14 is left out, because it is file-system I/O.
- Reading the spreadsheet (`read_excel`) and writing the result (`to_excel`) are left out. The model takes the table as a value and returns the output table.
- The `print` and the top-level call in Untitled-1.py:68-71 are left out, because they are console I/O and a usage example.
- The timetable's four key columns are taken to be the first four columns, as `iloc[:, 4:]` assumes. A spreadsheet whose named columns are placed elsewhere is not modelled.
- Cell values are integers, strings and times of day. Floating-point cells, and pandas' equality between `1` and `1.0`, are not modelled. A month read as a float therefore counts as non-integer, and a line number is compared by exact value.
- A time of day is kept as its four components. Nothing is proved about its range, because the routine only copies it.
- Format.FormatDate: the year is written as four zero-filled digits. Some C libraries write years below 1000 without leading zeros. Such years are far outside any timetable.
- Sheet.Flatten: it keeps each cell's kind, so `Normalize` reduces every timestamp to its time of day. When every hour column of the spreadsheet is a date-time column, `.values` at app.py:49 gives numpy `datetime64` values instead. For those, the `isinstance(s, datetime)` test at app.py:50 fails, so the routine keeps the full date and time. The model does not distinguish that block type and reduces those cells too. It covers hour columns of mixed or non-date-time kinds, where `.values` gives `Timestamp` objects.
- Schedule.UniformWidth: it assumes every timetable row has one cell per declared column. That is how `read_excel` builds the table, but the model does not derive it.

## Findings

| source | as written | input that shows it | evidently intended | confidence | as-written member | corrected member |
|---|---|---|---|---|---|---|
| app.py:53-55 (also Untitled-1.py:59-64) | Each row is padded to `max(declared columns, own hours)`, and the header is sized from the first row only. When two timetable rows match one day type and direction, a later row can be wider than the first. `pd.DataFrame` then refuses the table. | A June timetable for line 42 with one declared hour column and two weekday `G` rows (08:00 and 09:00), year 2025. 1 June 2025 is a Sunday, so row 0 has 4 cells. Monday's `G` row has 5 cells, so the build fails. | One width for the whole run: the widest row, at least the declared count. Every row is padded to it. The routine's own `max(..., len(saatler))` shows it expects rows with more hours than columns. | medium, not executed | RunWidth.SecondMatchingRowBreaksTable | RunWidth.RunWideFitsEveryRow |

The routine's own `max(len(df_saatler.columns[4:]), len(saatler))` (app.py:53) expects rows with more hours than declared columns. The header built from `new_data[0]` alone (app.py:55) cannot hold such a row when it comes after the first. `Schedule.Generate` models the code as written, and `RunWidth.GenerateRunWide` models the run-wide width.
