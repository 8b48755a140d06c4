# Work-schedule and overtime engine — a Dafny model

This project models the schedule and overtime engine of `tools/google_sheets_tool.py`. The engine keeps one
spreadsheet worksheet. Its first row is a header and every later row records one day in seven columns:

1. the date (`YYYY-MM-DD`, the key);
2. the weekday name;
3. the workday flag ("是" or "否");
4. the standard off time (`18:00:00` by default);
5. the actual off time;
6. the day's overtime in hours;
7. the running total of overtime.

Four tools work on the worksheet. Two of them, the schedule update and the clock-out, go through one row locator:

- **Row locator** (`_find_or_create_row`). It finds a date's row, or inserts a default row in date order before the
  first later date.
- **Update schedule** (`update_schedule_tool`). It locates or creates the day's row and sets its workday flag.
- **Clock out** (`clock_out_tool`). It locates or creates today's row, records today's off time, computes the day's overtime against the standard
  off time, re-reads and sums the overtime column, and writes the total. It then counts the planned workdays still
  ahead and advises an off time that spreads the remaining 29-hour budget over those days.
- **Populate month** (`populate_month_schedule_tool`). It does not use the locator. It reads the set of texts in
  column 1 once and appends a default row for every day of the month whose text is not in that set.
- **Daily suggestion** (`get_daily_suggestion_tool`). It does not use the locator either: it searches column 1 for
  today's text and inserts nothing when the text is missing. It only reads the sheet. It spreads the remaining budget over
  the future workdays plus today.

The worksheet is the class `Sheets.Sheet`, whose field `rows` is a sequence of rows of text cells. Its methods
mirror the four gspread calls the engine makes:

- `insert_row` is `InsertRow`;
- `update_cell` is `UpdateCell`;
- `append_rows` is `AppendRows`;
- `col_values`, `find` and `cell` are read-only functions over `rows`.

Each tool is a method on the sheet, proved equal to a function on the table value. The lemmas state what the tools
promise about those functions. Today's date and the wall clock are parameters. The outcome of a tool is a
datatype, not a localized message.

The modules are:

- `Wrappers`: `Option` and `Result`;
- `Numerals`: zero-padded digit fields;
- `Calendar`: Gregorian dates, `weekday()`, and `strftime`/`strptime` for `%Y-%m-%d`;
- `TimeOfDay`: `%H:%M:%S` and the overtime computation;
- `Decimals`: `:.2f` and `float()`;
- `Sheets`: the worksheet;
- `Locator`: `_find_or_create_row`;
- `Workdays`: the future-workday count;
- `Budget`: the 29-hour budget and the advice;
- `Schedule`, `ClockOut`, `Populate` and `Suggestion`: the four tools.

The model follows the code, also where it departs from what the code's names and messages suggest:

- The source speaks of a monthly total: the sum is held in `monthly_total_overtime` (lines 121 and 241), and the
  reports say 本月还有 and 本月累计加班 (lines 147 and 155). The code restricts nothing to the month.
- The running total in column 7 is the sum of column 6 over every data row of the sheet (lines 120-121). It is
  not restricted to the current month.
- The future-workday count runs over every later row (lines 133-135), not only over the current month.
- The clock-out tool writes column 5 before the standard time can fail to parse (lines 111 and 114), so a bad
  standard time leaves column 5 written and column 6 untouched (`ClockOutRejectsBadTime`). Columns 5 and 6 are
  both written before a bad overtime cell can fail (lines 118 and 121; `ClockOutRejectsBadCell`). Those writes
  stay in place on the error paths.
- In the clock-out advice, the branch "workdays left but no budget left" cannot be reached:
  `ClockOutAdvice` ensures it is never chosen. The same holds for the "leave on time" branch of the daily
  suggestion (`DailyPace`).
- The suggested hour is not wrapped at midnight (`SuggestionPastMidnight`).

## Model

| member | source | states |
|---|---|---|
| Numerals.PaddedValue | tools/google_sheets_tool.py:102 | a zero-padded field of the right width reads back as the number written |
| Numerals.PaddedOfValue | tools/google_sheets_tool.py:44 | a digit field is the zero-padded text of its own value, so parsing then formatting a field gives the field back |
| Numerals.NumeralValue | tools/google_sheets_tool.py:118 | the unpadded integer part of a `:.2f` text reads back as its number |
| Calendar.DaysInMonth | tools/google_sheets_tool.py:179 | `calendar.monthrange(year, month)[1]` is between 28 and 31: 29 in February exactly in leap years, and 30 exactly in April, June, September and November |
| Calendar.Weekday | tools/google_sheets_tool.py:217 | `weekday()` of a valid date is between 0 and 6, which indexes the seven weekday names and is compared with 5 |
| Calendar.WeekdayAdvances | tools/google_sheets_tool.py:62-64 | `weekday()` is 0 (Monday) on 0001-01-01 and goes up by one, modulo 7, from each day to the next |
| Calendar.NextDayOrdinal | tools/google_sheets_tool.py:62 | the day after a valid date is valid, and its ordinal is one more |
| Calendar.FormatDate | tools/google_sheets_tool.py:102 | `strftime("%Y-%m-%d")` is ten characters with dashes at positions 4 and 7 |
| Calendar.ParseDate | tools/google_sheets_tool.py:44 | `strptime(s, "%Y-%m-%d")` accepts only the text of a valid date, ten characters long |
| Calendar.ParseDateCanonical | tools/google_sheets_tool.py:44 | a text `strptime` accepts is exactly the `%Y-%m-%d` text of the date it parses to |
| Calendar.ParseFormatDate | tools/google_sheets_tool.py:44 | parsing the text that `strftime` writes gives back the same date |
| Calendar.ParseDateInjective | tools/google_sheets_tool.py:53-54 | two keys that parse to the same date are the same text |
| TimeOfDay.FormatTime | tools/google_sheets_tool.py:110 | `strftime("%H:%M:%S")` is eight characters with colons at positions 2 and 5 |
| TimeOfDay.ParseTime | tools/google_sheets_tool.py:114 | an accepted `%H:%M:%S` text is a second of the day below 86400 |
| TimeOfDay.ParseTimeCanonical | tools/google_sheets_tool.py:114 | a text `strptime` accepts is exactly the `%H:%M:%S` text of the valid time it parses to, so no hour past 23 and no unpadded field is accepted |
| TimeOfDay.ParseFormatTime | tools/google_sheets_tool.py:110-114 | the off time as written parses back to the same second of the day |
| TimeOfDay.OvertimeMeaning | tools/google_sheets_tool.py:115-117 | overtime is never negative; after the standard time it is the microsecond difference in hours; at or before it, it is 0 |
| TimeOfDay.OvertimeExample | tools/google_sheets_tool.py:113-117 | the default "18:00:00" is second 64800, and leaving at 19:30 gives 1.5 hours |
| Decimals.RoundHalfEven | tools/google_sheets_tool.py:118 | the rounded integer is within one half of the value |
| Decimals.Format2 | tools/google_sheets_tool.py:118 | a `:.2f` text has at least four characters |
| Decimals.Format2Shape | tools/google_sheets_tool.py:118 | a `:.2f` text starts with a minus sign exactly for a negative value; then come at least one digit of integer part, a point and exactly two decimals |
| Decimals.Format2LooksDecimal | tools/google_sheets_tool.py:241 | the suggestion's filter accepts the `:.2f` text of a value exactly when the value is not negative |
| Decimals.ParseFormat2 | tools/google_sheets_tool.py:118-121 | `float()` of a `:.2f` text is the value rounded to cents, which is within 0.005 of the value |
| Decimals.CentsClose | tools/google_sheets_tool.py:118 | rounding to cents moves the value by at most 0.005 |
| Decimals.LooksDecimalParses | tools/google_sheets_tool.py:241 | every cell passing the suggestion's filter with ASCII digits is a number `float()` accepts, and it is not negative |
| Decimals.SumDecimalsNonNegative | tools/google_sheets_tool.py:241 | the suggestion's filtered sum is never negative |
| Decimals.SumDecimalsSkips | tools/google_sheets_tool.py:241 | a cell the suggestion's filter rejects adds nothing and the sum goes on: blanking that cell leaves the sum unchanged |
| Decimals.SumsAgree | tools/google_sheets_tool.py:120-121 | on a column of blanks and plain decimals, the clock-out sum succeeds and equals the suggestion's filtered sum |
| Decimals.TotalAfterWrite | tools/google_sheets_tool.py:118-121 | writing one cell changes the sum by the new cell value minus the old one |
| Decimals.AcceptedAfterWrite | tools/google_sheets_tool.py:118-121 | writing a number into a column `float()` fully accepts keeps it fully accepted |
| Decimals.BlankCells | tools/google_sheets_tool.py:121 | blank cells are skipped: they add nothing and never raise |
| Decimals.BlankTail | tools/google_sheets_tool.py:120-121 | trailing blank cells change neither the sum nor the error |
| Sheets.ColumnConcat | tools/google_sheets_tool.py:202 | appending rows appends their cells to every column |
| Sheets.TrimBlank | tools/google_sheets_tool.py:47 | `col_values` is a prefix of the column that ends in a non-blank cell; everything dropped is blank |
| Sheets.ColValues | tools/google_sheets_tool.py:47 | `col_values(c)` agrees with column c up to its length, and every row past it is blank in column c |
| Sheets.FindRow | tools/google_sheets_tool.py:36-41 | `find(key, in_column=c)` gives the first row holding key in column c, and none exactly when no row holds it |
| Sheets.FindFrom | tools/google_sheets_tool.py:36 | a search that starts at row i after rows without key finds the first row holding key |
| Sheets.PadTo | tools/google_sheets_tool.py:87 | padding a row with blanks changes no cell |
| Sheets.SetCell | tools/google_sheets_tool.py:87 | `update_cell(r, c, v)` makes cell (r, c) equal to v and leaves every other cell and the row count as they were |
| Sheets.ColumnAfterSet | tools/google_sheets_tool.py:111-122 | a cell write changes only position r of its own column and no other column |
| Sheets.FindRowByColumn | tools/google_sheets_tool.py:36 | `find` depends only on the searched column |
| Sheets.SetCellTwice | tools/google_sheets_tool.py:87 | writing the same value into the same cell twice is the same as writing it once |
| Sheets.InsertRowAt | tools/google_sheets_tool.py:68 | `insert_row(row, index)` puts row at position index, and removing it gives back the old table |
| Sheets.Sheet.constructor | tools/google_sheets_tool.py:20-27 | the worksheet starts with the given rows |
| Sheets.Sheet.InsertRow | tools/google_sheets_tool.py:68 | the new table is the old one with the row inserted at index |
| Sheets.Sheet.UpdateCell | tools/google_sheets_tool.py:87 | the new table is the old one with that single cell written |
| Sheets.Sheet.AppendRows | tools/google_sheets_tool.py:202 | the new rows are added after the old ones |
| Locator.DefaultRow | tools/google_sheets_tool.py:62-65 | a new day's row holds the date, its weekday name, "是" exactly on Monday to Friday and "否" exactly at the weekend, then "18:00:00"; columns 5 to 7 are blank |
| Locator.InsertIndexFrom | tools/google_sheets_tool.py:51-59 | the scan stops at the first later row whose date parses and is after the target, or appends; no row it skipped was later |
| Locator.InsertIndex | tools/google_sheets_tool.py:50-59 | the insertion row is the first data row after the header whose date is later than the target, or the end of the column |
| Locator.ScanInsertIndex | tools/google_sheets_tool.py:50-59 | the loop over `col_values(1)[1:]` finds that insertion row |
| Locator.LocateOrCreate | tools/google_sheets_tool.py:30-71 | fails exactly when the key is absent and does not parse; a found key leaves the table unchanged; a missing key inserts exactly one row, the default record of its date, at the row number the scan of lines 50-59 finds, with every other row kept in order |
| Locator.FindOrCreateRow | tools/google_sheets_tool.py:30-71 | the method returns the located row and leaves the table the locator describes; on a bad date it writes nothing |
| Locator.LocatedRowHoldsKey | tools/google_sheets_tool.py:36-71 | afterwards the returned row is the first row whose column 1 holds the key |
| Locator.LocateIdempotent | tools/google_sheets_tool.py:36-41 | locating the same key again finds that row and changes nothing, so no duplicate is ever created |
| Locator.LocateAddsOneKey | tools/google_sheets_tool.py:30-71 | column 1 gains exactly the key when it was missing, and nothing otherwise |
| Locator.InsertedColumn | tools/google_sheets_tool.py:68 | inserting a row adds exactly its cell to each column, as multisets |
| Locator.LocateKeepsAscending | tools/google_sheets_tool.py:47-68 | a table whose parsing dates ascend still ascends after a row is located or created |
| Locator.KeysBeforeInsertPoint | tools/google_sheets_tool.py:51-59 | every parsing date above the insertion row is before the target |
| Locator.EarlierKey | tools/google_sheets_tool.py:53-54 | a different key that parses and is not later than the target is strictly earlier |
| Locator.KeysAfterInsertPoint | tools/google_sheets_tool.py:51-59 | in an ascending table every parsing date from the insertion row on is after the target, and inserting at row 1 means no data row parses |
| Locator.InsertKeepsAscending | tools/google_sheets_tool.py:68 | inserting a date between the earlier and the later dates keeps the order |
| Locator.DateAtInserted | tools/google_sheets_tool.py:68 | after an insertion, the rows above keep their dates and the rows below shift down by one |
| Locator.LocateAllAscending | tools/google_sheets_tool.py:30-71 | any sequence of locates keeps an ascending table ascending |
| Workdays.IndexOf | tools/google_sheets_tool.py:128-130 | `all_dates.index(today_str)` is the first position holding the key, and none exactly when the key is absent |
| Workdays.CountFutureWorkdays | tools/google_sheets_tool.py:124-135 | the counting loop computes the number of "是" flags strictly after today's first position |
| Workdays.CountRangeOccurrences | tools/google_sheets_tool.py:132-135 | the count is the number of "是" entries among the flags in the range, and flags past the end of the flag column count as absent |
| Workdays.CountRangeBound | tools/google_sheets_tool.py:132-135 | there is at most one workday per later row |
| Workdays.CountRangeLocal | tools/google_sheets_tool.py:132-135 | only the flags inside the range decide the count |
| Workdays.FutureWorkdaysAfterToday | tools/google_sheets_tool.py:128-135 | the count is at most the number of rows after today, and flags of today, of earlier rows and past the date column change nothing |
| Workdays.IndexOfFindRow | tools/google_sheets_tool.py:128-130 | for a non-blank key, its first position in `col_values(1)` is the row `find` returns, counted from 0 |
| Budget.SuggestedOffTime | tools/google_sheets_tool.py:143-146 | the suggested time is 18:00 or later, with a minute between 0 and 59 |
| Budget.SuggestedOffTimeMeaning | tools/google_sheets_tool.py:143-146 | the suggestion is 18:00 plus the average remaining overtime per day, truncated to the whole minute |
| Budget.SuggestionStaysWithinBudget | tools/google_sheets_tool.py:137-147 | leaving at the suggested time on every remaining day stays within the remaining budget, and one more minute a day would exceed it |
| Budget.SuggestionExample | tools/google_sheets_tool.py:143-146 | with 28 hours used and one day left, the suggestion is 19:00 |
| Budget.SuggestionPastMidnight | tools/google_sheets_tool.py:144-147 | with the whole budget left and one day, the suggestion is 47:00: the hour is not wrapped |
| Budget.ClockOutAdvice | tools/google_sheets_tool.py:137-151 | a warning exactly when the total reaches 29 hours; otherwise a pace exactly when workdays are left, with average × days = remaining budget and the suggested off time `SuggestedOffTime(29 − total, days)`; otherwise "no workdays left"; "budget used" never occurs |
| Budget.DailyPace | tools/google_sheets_tool.py:257-275 | "budget full" exactly when the total reaches 29 hours; otherwise a suggestion over the future workdays plus today; "on time" never occurs |
| Budget.AdviceAgree | tools/google_sheets_tool.py:137-151 | both tools agree on when the budget is exhausted, and the daily suggestion is never later than the clock-out pace |
| Schedule.Flag | tools/google_sheets_tool.py:85 | the token is "是" exactly for a workday and "否" exactly for a rest day |
| Schedule.UpdateSchedule | tools/google_sheets_tool.py:75-92 | the method's result and new table are those of locating the date and writing its flag into column 3 |
| Schedule.UpdateScheduleEffect | tools/google_sheets_tool.py:84-87 | fails exactly on an absent, unparsable date, and then writes nothing; otherwise the date's row holds the flag, no other cell changes, and an existing date keeps every other row |
| Schedule.UpdateScheduleIdempotent | tools/google_sheets_tool.py:84-87 | repeating the same update changes nothing more |
| ClockOut.LocateToday | tools/google_sheets_tool.py:102-103 | today's key always parses, so locating it succeeds and names a row of the table |
| ClockOut.ClockOutTool | tools/google_sheets_tool.py:96-160 | the method's result and new table are those of the clock-out run on the old table |
| ClockOut.ClockOutRefusal | tools/google_sheets_tool.py:105-107 | a day whose flag is not "是" (blank included) is refused with nothing written beyond the located row; an existing row leaves the table unchanged |
| ClockOut.SetCellOutside | tools/google_sheets_tool.py:111-122 | a write into columns 5 to 7 of a row changes nothing outside them |
| ClockOut.SameOutsideTrans | tools/google_sheets_tool.py:111-122 | agreeing outside columns 5 to 7 of a row carries over a chain of tables |
| ClockOut.ClockOutFrame | tools/google_sheets_tool.py:111-122 | clocking out changes only columns 5 to 7 of today's row, on every path |
| ClockOut.ClockOutRecorded | tools/google_sheets_tool.py:109-122 | a recorded clock-out parsed the standard time, found no cell `float()` rejects in column 6 after today's overtime was written, and wrote the off time to column 5, the never-negative overtime in `:.2f` to column 6 and the total to column 7 |
| ClockOut.ClockOutRejectsBadCell | tools/google_sheets_tool.py:111-121 | when column 6, with today's overtime written, holds a cell `float()` rejects, the tool fails with that cell's error, and the table keeps the off time and overtime writes but gets no total |
| ClockOut.ClockOutRejectsBadTime | tools/google_sheets_tool.py:111-114 | on a day flagged "是" whose standard time does not parse, the tool fails with that text (the `except` at line 158); the table keeps the off time written at line 111 and nothing else changes |
| ClockOut.DataCellsSum | tools/google_sheets_tool.py:120-121 | summing `col_values(6)[1:]` is summing the whole column below the header, blanks included |
| ClockOut.TrimmedSum | tools/google_sheets_tool.py:120-121 | dropping the trailing blank cells `col_values` drops keeps both the data sum and the first rejected cell |
| ClockOut.ClockOutTotalIncludesToday | tools/google_sheets_tool.py:118-122 | when every overtime cell parses, the total is the old column sum with today's old cell replaced by today's rounded overtime |
| ClockOut.SumAfterOvertime | tools/google_sheets_tool.py:111-121 | after the off time and an overtime value are written to row r, an accepted overtime column stays accepted and its sum changes by the rounded overtime minus the row's old value |
| ClockOut.ClockOutCountsLaterRows | tools/google_sheets_tool.py:124-151 | the workdays ahead are the "是" flags in the rows after today's row, and the advice is computed from the total and that count |
| ClockOut.FutureAfterWrites | tools/google_sheets_tool.py:122-135 | after the three writes of the clock-out, the future workdays are the "是" flags after today's row in the table as it was before |
| ClockOut.UntouchedColumn | tools/google_sheets_tool.py:111-122 | the clock-out writes leave columns 1 to 4 exactly as they were |
| ClockOut.TodayIsFound | tools/google_sheets_tool.py:102-103 | after locating, `find` of today's key gives the located row, and the key is not blank |
| Populate.Day | tools/google_sheets_tool.py:183 | `date(year, month, day)` is a valid date for every day of the month |
| Populate.MissingDayNumbers | tools/google_sheets_tool.py:182-196 | the listed days lie between 1 and the day reached |
| Populate.MissingDays | tools/google_sheets_tool.py:182-196 | one default row per listed day, in the same order |
| Populate.MissingDaysStep | tools/google_sheets_tool.py:182-196 | one more day adds its default row exactly when its text is missing |
| Populate.MissingDayNumbersStep | tools/google_sheets_tool.py:182-196 | one more day is listed exactly when it is missing |
| Populate.CollectMissingDays | tools/google_sheets_tool.py:180-196 | the loop collects the default rows of the days missing from column 1, in day order |
| Populate.PopulateMonth | tools/google_sheets_tool.py:165-208 | the method's result and new table are those of the populate run on the old table |
| Populate.MissingDayNumbersSound | tools/google_sheets_tool.py:186-188 | every collected day was missing from column 1 |
| Populate.MissingDayNumbersIncrease | tools/google_sheets_tool.py:182 | the collected days strictly increase, so none is added twice |
| Populate.MissingDayNumbersComplete | tools/google_sheets_tool.py:182-196 | every missing day of the month is collected |
| Populate.MissingDayNumbersExactly | tools/google_sheets_tool.py:177-196 | exactly the missing days, each once, in day order |
| Populate.MissingDaysAll | tools/google_sheets_tool.py:182-196 | with no day present, every day of the month is added, in order |
| Populate.MissingDaysNone | tools/google_sheets_tool.py:198-199 | with every day present, nothing is collected |
| Populate.PopulateAppendsOnly | tools/google_sheets_tool.py:198-204 | old rows are never changed or moved, the reported count is the number of rows appended, and a bad month or a full month writes nothing |
| Populate.PopulateCompletes | tools/google_sheets_tool.py:177-202 | after a run every day of the month has its text in column 1 |
| Populate.DayPresentAfter | tools/google_sheets_tool.py:177-202 | one given day is present after a run, whether it was there before or was appended |
| Populate.TextInColumn | tools/google_sheets_tool.py:177 | a non-blank column-1 cell is in `set(col_values(1))` |
| Populate.PopulateTwice | tools/google_sheets_tool.py:198-199 | a second run for the same month adds nothing and reports the month as filled |
| Populate.PopulateKeepsAscending | tools/google_sheets_tool.py:202 | appending keeps date order when every existing date is before the month |
| Populate.PopulateCanBreakOrder | tools/google_sheets_tool.py:202 | `append_rows` ignores date order: with a later date above and the first of the month missing, the result is not in date order |
| Populate.PopulateJuneAfterJuly | tools/google_sheets_tool.py:177-202 | populating June 2024 on a sheet holding 2024-07-01 leaves the table out of date order |
| Populate.AppendDaysAscending | tools/google_sheets_tool.py:182-202 | appending increasing days of the month after earlier dates keeps the table ascending |
| Populate.PopulateJune2024 | tools/google_sheets_tool.py:179-204 | June 2024 on a header-only sheet adds 30 rows: Saturday the 1st as a rest day and Monday the 3rd as a workday |
| Populate.JuneAllMissing | tools/google_sheets_tool.py:177-188 | no day of June 2024 is present on a sheet holding only a non-date header |
| Suggestion.GetDailySuggestion | tools/google_sheets_tool.py:209-277 | the method's answer is that of the suggestion function on the sheet it reads; it has no `modifies` and writes nothing |
| Suggestion.SuggestionCases | tools/google_sheets_tool.py:215-233 | weekend exactly on Saturday and Sunday, whatever the sheet holds; an unset plan exactly when a weekday's date is missing; a rest day exactly when the first row with that date is not flagged "是"; a suggestion exactly when it is |
| Suggestion.FirstRowOf | tools/google_sheets_tool.py:225-227 | `find` on column 1 fails exactly when the key is not in `col_values(1)`, and otherwise returns the one first row holding the key |
| Suggestion.SuggestionPace | tools/google_sheets_tool.py:238-275 | on a planned workday the sum is never negative; the future workdays are the "是" flags after today's row; the advice is the daily pace over them plus today, at 18:00 or later, and never "on time" |
| Suggestion.SuggestionReadsColumns | tools/google_sheets_tool.py:219-243 | the answer depends only on columns 1, 3 and 6 |
| Suggestion.SuggestionTotalMatchesClockOut | tools/google_sheets_tool.py:240-241 | on a column of blanks and plain decimals, the suggestion's sum is the sum the clock-out tool reads |
| Suggestion.PlainDataCells | tools/google_sheets_tool.py:240 | when every data row holds a blank or a plain decimal in column 6, so does `col_values(6)[1:]` |
| Suggestion.LocateKeepsPlain | tools/google_sheets_tool.py:30-71 | with a header in column 1, locating or creating a row keeps column 6 plain: the new row goes below the header with a blank column 6 |
| Suggestion.InsertKeepsPlain | tools/google_sheets_tool.py:65-68 | inserting a row with a blank column 6 below the header keeps column 6 plain |
| Suggestion.WriteKeepsPlain | tools/google_sheets_tool.py:111-122 | a write outside column 6 leaves column 6, and so its data cells, unchanged |
| Suggestion.OvertimeWriteKeepsPlain | tools/google_sheets_tool.py:118-121 | writing a non-negative overtime in `:.2f` keeps column 6 plain, and the clock-out's strict sum then succeeds and equals the suggestion's filtered sum |
| Suggestion.ClockOutKeepsPlain | tools/google_sheets_tool.py:109-122 | from a plain column 6 the clock-out fails only on an unreadable standard time, keeps the column plain, and its total is the filtered sum the suggestion reads back |
| Suggestion.PlannedRow | tools/google_sheets_tool.py:225-270 | on a weekday whose first row is flagged "是", the answer is the pace from the filtered sum and the later workdays |
| Suggestion.SuggestionAfterWrites | tools/google_sheets_tool.py:111-122 | after the clock-out's writes to today's planned row, the suggestion is planned and computed from the table as written |
| Suggestion.SuggestionAfterClockOutAt | tools/google_sheets_tool.py:225-270 | right after a recorded clock-out on a weekday, the suggestion is planned with the same total and the same count of later workdays the clock-out reported |
| Suggestion.ClockOutThenSuggestion | tools/google_sheets_tool.py:96-160 | on a sheet with a header in column 1 and a plain column 6, the clock-out fails only on the standard time and keeps column 6 plain, and on a weekday the suggestion then reports the clock-out's total and later workdays |

## Left out

- Credentials, the gspread client and `_get_worksheet` (lines 11-27) are left out. The worksheet is a value in
  memory, and network failures are not modelled.
- `api/index.py` and the agent wiring are not part of this model.
- `date.today()` and `datetime.now()` are parameters. `clock_out_tool` reads the clock four times: `date.today()`
  at line 102, `datetime.now()` at line 109 and `date.today()` twice at line 116. Here all four reads see the same
  instant, so they cannot straddle midnight.
- Python floats are exact reals. `:.2f` is decimal rounding, half to even, on the exact value. Binary
  representation error is not modelled.
- `float()` accepts the forms the cells can hold: an optional sign, digits, at most one dot and digits. Exponents,
  `inf`, `nan`, underscores and surrounding whitespace are left out.
- `strptime` accepts only zero-padded fields of ASCII digits here (`2024-06-01`, `18:00:00`). The unpadded forms
  Python also accepts are left out, as are years outside 1 to 9999. So are non-ASCII decimal digits. Python's
  `_strptime` builds its patterns without `re.ASCII`, so `\d` in `%Y`, and in the second digit of `%d`, `%H`, `%M`
  and `%S`, also matches digits such as fullwidth `２`, which `int()` then reads: `２０２４-06-01` and `18:0０:00` parse
  at lines 44, 53 and 114.
- Calendar.ParseDateCanonical, Calendar.ParseDateInjective, TimeOfDay.ParseTimeCanonical and the strict order of
  Locator.LocateKeepsAscending hold for the model's ASCII-only parsers, not for Python's. In the source, a key
  written with non-ASCII digits parses to a date that may already have a row. `find` does not match it, so the
  locator inserts a second row for that date, holding the key text verbatim (line 65).
- TimeOfDay.ParseTime rejects a time text with a non-ASCII digit, which `strptime` accepts (see above).
- Decimals.LooksDecimal: the digits `str.isdigit()` accepts are ASCII `0`-`9` only. Python's `isdigit` also accepts
  other Unicode digits such as `²`, which `float()` rejects; the daily suggestion then returns its error text
  (lines 275-277). Those digits and that error path are not modelled, so Decimals.LooksDecimalParses holds here but
  not for every string the source's filter lets through.
- Calendar.ParseDate: it rejects date texts with non-ASCII digits, which `strptime` accepts (see above). Its contract covers accepted texts. That a malformed text is rejected follows from its body
  and is not restated.
- Exceptions become `Result` errors with the offending text: `BadDate`, `BadTime`, `BadNumber` and `BadMonth`.
  The localized messages, exception type names and tracebacks are left out.
- `BadMonth` covers both a month outside 1 to 12 and a year outside 1 to 9999, which are the two ways
  `calendar.monthrange` and `date` reject their arguments.
- `value_input_option='USER_ENTERED'`: the spreadsheet's reinterpretation of entered text (dates and numbers turned
  into typed cells) is left out. Cells stay text.
- `append_rows`: the service's detection of where the table ends is left out. The rows go after the last row of
  the table.
- `.lower()` on the flag is left out because "是" has no case. The model compares with "是" directly.
- ClockOut.ClockOutTotalIncludesToday needs today's row below the header (row 2 or later). When column 1 is entirely
  blank, `col_values(1)` is empty, so the locator inserts today at row 1 whatever the other columns hold (line 50),
  and `col_values(6)[1:]` then skips that row.
- Suggestion.ClockOutThenSuggestion needs a non-blank header in column 1. Without one, the locator inserts today at
  row 1 and pushes the old first row, with whatever its column 6 holds, down among the data rows.
- Concurrency between tool calls and partial failures of the remote sheet are not modelled. Each call is atomic
  apart from the write order the model keeps.
