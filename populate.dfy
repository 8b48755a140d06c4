/** `populate_month_schedule_tool`: append a default row for every day of a
    month whose date is not yet in column 1. */
module Populate {
  import opened Wrappers
  import opened Calendar
  import opened Sheets
  import opened Locator

  /** The report: nothing was missing, or how many days were added. */
  datatype Filled = AlreadyFilled | Filled(count: nat)

  /** The month `calendar.monthrange` and `date` accept. */
  predicate MonthOk(year: int, month: int) {
    1 <= month <= 12 && 1 <= year <= 9999
  }

  /** The date of day d of the month. */
  function Day(year: int, month: int, d: int): (e: Date)
    requires MonthOk(year, month) && 1 <= d <= DaysInMonth(year, month)
    ensures Valid(e)
  {
    Date(year, month, d)
  }

  /** The days 1 to n of the month whose text is not in existing, in
      increasing order. */
  function MissingDayNumbers(existing: set<string>, year: int, month: int, n: nat): (ds: seq<int>)
    requires MonthOk(year, month) && n <= DaysInMonth(year, month)
    ensures forall i :: 0 <= i < |ds| ==> 1 <= ds[i] <= n
  {
    if n == 0 then []
    else
      MissingDayNumbers(existing, year, month, n - 1)
      + (if FormatDate(Day(year, month, n)) in existing then [] else [n])
  }

  /** The default rows of the missing days up to day n, in day order. */
  function MissingDays(existing: set<string>, year: int, month: int, n: nat): (rs: seq<Row>)
    requires MonthOk(year, month) && n <= DaysInMonth(year, month)
    ensures var ds := MissingDayNumbers(existing, year, month, n);
      |rs| == |ds| && forall i :: 0 <= i < |ds| ==> rs[i] == DefaultRow(Day(year, month, ds[i]))
  {
    var ds := MissingDayNumbers(existing, year, month, n);
    seq(|ds|, i requires 0 <= i < |ds| => DefaultRow(Day(year, month, ds[i])))
  }

  /** One more day adds its default row when its text is missing. */
  lemma MissingDaysStep(existing: set<string>, year: int, month: int, n: nat)
    requires MonthOk(year, month) && 1 <= n <= DaysInMonth(year, month)
    ensures MissingDays(existing, year, month, n) == MissingDays(existing, year, month, n - 1)
      + (if FormatDate(Day(year, month, n)) in existing then [] else [DefaultRow(Day(year, month, n))])
  {
  }

  /** The loop of lines 182-196. */
  method CollectMissingDays(existing: set<string>, year: int, month: int) returns (newRows: seq<Row>)
    requires MonthOk(year, month)
    ensures newRows == MissingDays(existing, year, month, DaysInMonth(year, month))
  {
    var numDays := DaysInMonth(year, month);
    newRows := [];
    var day := 1;
    while day <= numDays
      invariant 1 <= day <= numDays + 1
      invariant newRows == MissingDays(existing, year, month, day - 1)
    {
      var target := Day(year, month, day);
      var text := FormatDate(target);
      MissingDaysStep(existing, year, month, day);
      if text !in existing {
        newRows := newRows + [DefaultRow(target)];
      }
      day := day + 1;
    }
  }

  /** The set of the texts in column 1, header included. */
  function ExistingDates(rows: seq<Row>): set<string> {
    set s | s in ColValues(rows, 1)
  }

  /** The tool on a table value. */
  function PopulateRun(rows: seq<Row>, year: int, month: int): Run<Filled> {
    if !MonthOk(year, month) then Run(Err(BadMonth(year, month)), rows)
    else
      var newRows := MissingDays(ExistingDates(rows), year, month, DaysInMonth(year, month));
      if |newRows| == 0 then Run(Ok(AlreadyFilled), rows)
      else Run(Ok(Filled(|newRows|)), rows + newRows)
  }

  /** `populate_month_schedule_tool(year, month)` on the worksheet. */
  method PopulateMonth(sheet: Sheet, year: int, month: int) returns (res: Result<Filled>)
    modifies sheet
    ensures res == PopulateRun(old(sheet.rows), year, month).outcome
    ensures sheet.rows == PopulateRun(old(sheet.rows), year, month).rows
  {
    if !MonthOk(year, month) {
      return Err(BadMonth(year, month));
    }
    var existing := ExistingDates(sheet.rows);
    var newRows := CollectMissingDays(existing, year, month);
    if |newRows| == 0 {
      return Ok(AlreadyFilled);
    }
    sheet.AppendRows(newRows);
    return Ok(Filled(|newRows|));
  }

  /** Day d of the month is a real day whose text is not in existing. */
  predicate Missing(existing: set<string>, year: int, month: int, d: int) {
    MonthOk(year, month) && 1 <= d <= DaysInMonth(year, month) && FormatDate(Day(year, month, d)) !in existing
  }

  /** One more day of the month is listed exactly when it is missing. */
  lemma MissingDayNumbersStep(existing: set<string>, year: int, month: int, n: nat)
    requires MonthOk(year, month) && 1 <= n <= DaysInMonth(year, month)
    ensures MissingDayNumbers(existing, year, month, n)
      == MissingDayNumbers(existing, year, month, n - 1) + (if Missing(existing, year, month, n) then [n] else [])
  {
  }

  /** Every listed day was missing. */
  lemma {:induction false} MissingDayNumbersSound(existing: set<string>, year: int, month: int, n: nat)
    requires MonthOk(year, month) && n <= DaysInMonth(year, month)
    ensures var ds := MissingDayNumbers(existing, year, month, n);
      forall i :: 0 <= i < |ds| ==> Missing(existing, year, month, ds[i])
  {
    if n > 0 {
      MissingDayNumbersSound(existing, year, month, n - 1);
      var prev := MissingDayNumbers(existing, year, month, n - 1);
      var ds := MissingDayNumbers(existing, year, month, n);
      MissingDayNumbersStep(existing, year, month, n);
      forall i | 0 <= i < |ds|
        ensures Missing(existing, year, month, ds[i])
      {
        if i < |prev| {
          assert ds[i] == prev[i];
        } else {
          assert ds == prev + [n];
        }
      }
    }
  }

  /** The days strictly increase. */
  predicate Increasing(ds: seq<int>) {
    forall i, j :: 0 <= i < j < |ds| ==> ds[i] < ds[j]
  }

  /** The listed days strictly increase, so no day is listed twice. */
  lemma {:induction false} MissingDayNumbersIncrease(existing: set<string>, year: int, month: int, n: nat)
    requires MonthOk(year, month) && n <= DaysInMonth(year, month)
    ensures Increasing(MissingDayNumbers(existing, year, month, n))
  {
    if n > 0 {
      MissingDayNumbersIncrease(existing, year, month, n - 1);
      var prev := MissingDayNumbers(existing, year, month, n - 1);
      var ds := MissingDayNumbers(existing, year, month, n);
      MissingDayNumbersStep(existing, year, month, n);
      forall i, j | 0 <= i < j < |ds|
        ensures ds[i] < ds[j]
      {
        assert ds[i] == prev[i];
        if j >= |prev| {
          assert ds == prev + [n];
        } else {
          assert ds[j] == prev[j];
        }
      }
    }
  }

  /** Every missing day up to n is listed. */
  lemma {:induction false} MissingDayNumbersComplete(existing: set<string>, year: int, month: int, n: nat)
    requires MonthOk(year, month) && n <= DaysInMonth(year, month)
    ensures var ds := MissingDayNumbers(existing, year, month, n);
      forall d :: 1 <= d <= n && Missing(existing, year, month, d) ==> d in ds
  {
    if n > 0 {
      MissingDayNumbersComplete(existing, year, month, n - 1);
      var ds := MissingDayNumbers(existing, year, month, n);
      var prev := MissingDayNumbers(existing, year, month, n - 1);
      MissingDayNumbersStep(existing, year, month, n);
      var extra := if Missing(existing, year, month, n) then [n] else [];
      assert ds == prev + extra;
      forall d | 1 <= d <= n && Missing(existing, year, month, d)
        ensures d in ds
      {
        if d < n {
          assert d in prev;
        } else {
          assert extra == [n];
        }
      }
    }
  }

  /** Exactly one row per missing day, in day order. */
  lemma MissingDayNumbersExactly(existing: set<string>, year: int, month: int, n: nat)
    requires MonthOk(year, month) && n <= DaysInMonth(year, month)
    ensures var ds := MissingDayNumbers(existing, year, month, n);
      (forall i :: 0 <= i < |ds| ==> Missing(existing, year, month, ds[i]))
      && Increasing(ds)
      && (forall d :: 1 <= d <= n && Missing(existing, year, month, d) ==> d in ds)
  {
    MissingDayNumbersSound(existing, year, month, n);
    MissingDayNumbersIncrease(existing, year, month, n);
    MissingDayNumbersComplete(existing, year, month, n);
  }

  /** With none of the days present, every day is listed in order. */
  lemma {:induction false} MissingDaysAll(existing: set<string>, year: int, month: int, n: nat)
    requires MonthOk(year, month) && n <= DaysInMonth(year, month)
    requires forall d :: 1 <= d <= n ==> Missing(existing, year, month, d)
    ensures var ds := MissingDayNumbers(existing, year, month, n);
      |ds| == n && forall i :: 0 <= i < n ==> ds[i] == i + 1
  {
    if n > 0 {
      MissingDaysAll(existing, year, month, n - 1);
      MissingDayNumbersStep(existing, year, month, n);
    }
  }

  /** With every day present, nothing is listed. */
  lemma {:induction false} MissingDaysNone(existing: set<string>, year: int, month: int, n: nat)
    requires MonthOk(year, month) && n <= DaysInMonth(year, month)
    requires forall d :: 1 <= d <= n ==> !Missing(existing, year, month, d)
    ensures MissingDayNumbers(existing, year, month, n) == []
  {
    if n > 0 {
      MissingDaysNone(existing, year, month, n - 1);
      MissingDayNumbersStep(existing, year, month, n);
    }
  }

  /** Existing rows are never changed or moved: the old table is a prefix
      of the new one, the reported count is the number of rows appended,
      and with nothing to add nothing is written. A bad month writes
      nothing either. */
  lemma PopulateAppendsOnly(rows: seq<Row>, year: int, month: int)
    ensures var run := PopulateRun(rows, year, month);
      |run.rows| >= |rows| && run.rows[..|rows|] == rows
    ensures var run := PopulateRun(rows, year, month);
      run.outcome.Err? <==> !MonthOk(year, month)
    ensures var run := PopulateRun(rows, year, month);
      run.outcome.Ok? && run.outcome.value.Filled? ==>
        run.outcome.value.count >= 1 && |run.rows| == |rows| + run.outcome.value.count
    ensures var run := PopulateRun(rows, year, month);
      !(run.outcome.Ok? && run.outcome.value.Filled?) ==> run.rows == rows
  {
  }

  /** After a successful run every day of the month has its text in
      column 1. */
  lemma PopulateCompletes(rows: seq<Row>, year: int, month: int)
    requires MonthOk(year, month)
    ensures forall d :: 1 <= d <= DaysInMonth(year, month) ==>
      !Missing(ExistingDates(PopulateRun(rows, year, month).rows), year, month, d)
  {
    var existing := ExistingDates(rows);
    var n := DaysInMonth(year, month);
    MissingDayNumbersComplete(existing, year, month, n);
    forall d | 1 <= d <= n
      ensures !Missing(ExistingDates(PopulateRun(rows, year, month).rows), year, month, d)
    {
      DayPresentAfter(rows, year, month, d);
    }
  }

  /** One day of the month is present after a run. */
  lemma DayPresentAfter(rows: seq<Row>, year: int, month: int, d: int)
    requires MonthOk(year, month) && 1 <= d <= DaysInMonth(year, month)
    requires var ds := MissingDayNumbers(ExistingDates(rows), year, month, DaysInMonth(year, month));
      Missing(ExistingDates(rows), year, month, d) ==> d in ds
    ensures FormatDate(Day(year, month, d)) in ExistingDates(PopulateRun(rows, year, month).rows)
  {
    var existing := ExistingDates(rows);
    var n := DaysInMonth(year, month);
    var ds := MissingDayNumbers(existing, year, month, n);
    var newRows := MissingDays(existing, year, month, n);
    var after := PopulateRun(rows, year, month).rows;
    var text := FormatDate(Day(year, month, d));
    assert after == rows + newRows;
    if text in existing {
      PresentStaysPresent(rows, newRows, text);
    } else {
      var j :| 0 <= j < |ds| && ds[j] == d;
      assert Cell(newRows[j], 1) == text;
      AppendedTextPresent(rows, newRows, j, text);
    }
  }

  /** Appending rows keeps every text of column 1 present. */
  lemma PresentStaysPresent(rows: seq<Row>, extra: seq<Row>, text: string)
    requires text in ExistingDates(rows) && text != ""
    ensures text in ExistingDates(rows + extra)
  {
    var col := ColValues(rows, 1);
    var i :| 0 <= i < |col| && col[i] == text;
    assert (rows + extra)[i] == rows[i];
    TextInColumn(rows + extra, i, text);
  }

  /** The key of an appended row is present after the append. */
  lemma AppendedTextPresent(rows: seq<Row>, extra: seq<Row>, j: nat, text: string)
    requires j < |extra| && Cell(extra[j], 1) == text && text != ""
    ensures text in ExistingDates(rows + extra)
  {
    assert (rows + extra)[|rows| + j] == extra[j];
    TextInColumn(rows + extra, |rows| + j, text);
  }

  lemma TextInColumn(rows: seq<Row>, i: nat, text: string)
    requires i < |rows| && Cell(rows[i], 1) == text && text != ""
    ensures text in ExistingDates(rows)
  {
    var col := ColValues(rows, 1);
    assert i < |col|;
    assert col[i] == text;
  }

  /** Running the tool again for the same month adds nothing. */
  lemma PopulateTwice(rows: seq<Row>, year: int, month: int)
    requires MonthOk(year, month)
    ensures var after := PopulateRun(rows, year, month).rows;
      PopulateRun(after, year, month) == Run(Ok(AlreadyFilled), after)
  {
    var after := PopulateRun(rows, year, month).rows;
    PopulateCompletes(rows, year, month);
    MissingDaysNone(ExistingDates(after), year, month, DaysInMonth(year, month));
  }

  /** The rows are appended at the end, so date order is kept only when every
      date already in the table comes before the month. */
  lemma PopulateKeepsAscending(rows: seq<Row>, year: int, month: int)
    requires MonthOk(year, month) && Ascending(rows)
    requires forall k :: 1 <= k < |rows| && DateAt(rows, k).Some? ==> Before(DateAt(rows, k).value, Date(year, month, 1))
    ensures Ascending(PopulateRun(rows, year, month).rows)
  {
    var n := DaysInMonth(year, month);
    var ds := MissingDayNumbers(ExistingDates(rows), year, month, n);
    var newRows := MissingDays(ExistingDates(rows), year, month, n);
    MissingDayNumbersIncrease(ExistingDates(rows), year, month, n);
    if |newRows| == 0 {
      assert PopulateRun(rows, year, month).rows == rows;
    } else {
      assert PopulateRun(rows, year, month).rows == rows + newRows;
      AppendDaysAscending(rows, year, month, ds, newRows);
    }
  }

  /** `append_rows` puts the new days at the bottom whatever dates are
      above them: when a row already holds a date after the first of the
      month and that first day is missing, the table leaves date order. */
  lemma PopulateCanBreakOrder(rows: seq<Row>, year: int, month: int, k: nat, e: Date)
    requires MonthOk(year, month) && 1 <= k < |rows| && DateAt(rows, k) == Some(e)
    requires Before(Date(year, month, 1), e)
    requires Missing(ExistingDates(rows), year, month, 1)
    ensures !Ascending(PopulateRun(rows, year, month).rows)
  {
    var existing := ExistingDates(rows);
    var n := DaysInMonth(year, month);
    var ds := MissingDayNumbers(existing, year, month, n);
    var newRows := MissingDays(existing, year, month, n);
    MissingDayNumbersComplete(existing, year, month, n);
    var j :| 0 <= j < |ds| && ds[j] == 1;
    var after := rows + newRows;
    assert PopulateRun(rows, year, month).rows == after;
    assert after[k] == rows[k];
    assert after[|rows| + j] == DefaultRow(Day(year, month, 1));
    ParseFormatDate(Day(year, month, 1));
    assert DateAt(after, |rows| + j) == Some(Date(year, month, 1));
    assert DateAt(after, k) == Some(e);
    assert !Before(e, Date(year, month, 1));
  }

  /** A sheet holding a header and 2024-07-01: populating June 2024 appends
      2024-06-01 below July, out of date order. */
  lemma PopulateJuneAfterJuly(header: Row)
    requires ParseDate(Cell(header, 1)).None?
    ensures !Ascending(PopulateRun([header, DefaultRow(Date(2024, 7, 1))], 2024, 6).rows)
  {
    var rows := [header, DefaultRow(Date(2024, 7, 1))];
    var june1, july1 := Date(2024, 6, 1), Date(2024, 7, 1);
    ParseFormatDate(june1);
    ParseFormatDate(july1);
    var col := ColValues(rows, 1);
    forall s | s in ExistingDates(rows)
      ensures s != FormatDate(june1)
    {
      var i :| 0 <= i < |col| && col[i] == s;
      assert s == Cell(rows[i], 1);
    }
    assert DateAt(rows, 1) == Some(july1);
    PopulateCanBreakOrder(rows, 2024, 6, 1, july1);
  }

  /** Appending the default rows of increasing days of the month after rows
      dated before the month keeps the table in date order. */
  lemma AppendDaysAscending(rows: seq<Row>, year: int, month: int, ds: seq<int>, newRows: seq<Row>)
    requires MonthOk(year, month) && Ascending(rows)
    requires forall k :: 1 <= k < |rows| && DateAt(rows, k).Some? ==> Before(DateAt(rows, k).value, Date(year, month, 1))
    requires forall k :: 0 <= k < |ds| ==> 1 <= ds[k] <= DaysInMonth(year, month)
    requires Increasing(ds)
    requires |newRows| == |ds| && forall k :: 0 <= k < |ds| ==> newRows[k] == DefaultRow(Day(year, month, ds[k]))
    ensures Ascending(rows + newRows)
  {
    var after := rows + newRows;
    forall i | |rows| <= i < |after|
      ensures DateAt(after, i) == Some(Day(year, month, ds[i - |rows|]))
    {
      assert after[i] == newRows[i - |rows|];
      ParseFormatDate(Day(year, month, ds[i - |rows|]));
    }
    forall i, j | 1 <= i < j < |after| && DateAt(after, i).Some? && DateAt(after, j).Some?
      ensures Before(DateAt(after, i).value, DateAt(after, j).value)
    {
      if j < |rows| {
        assert after[i] == rows[i] && after[j] == rows[j];
        assert DateAt(after, i) == DateAt(rows, i) && DateAt(after, j) == DateAt(rows, j);
      } else if i < |rows| {
        assert after[i] == rows[i];
        assert DateAt(after, i) == DateAt(rows, i);
        assert Before(DateAt(rows, i).value, Date(year, month, 1));
        assert DateAt(after, j).value == Date(year, month, ds[j - |rows|]);
      } else {
        var a, b := ds[i - |rows|], ds[j - |rows|];
        assert a < b;
        assert DateAt(after, i).value == Date(year, month, a);
        assert DateAt(after, j).value == Date(year, month, b);
      }
    }
  }

  /** June 2024 on a sheet holding only a header row whose first cell is not
      a date: 30 rows are added, the first for Saturday 2024-06-01, a rest
      day, and the third for Monday 2024-06-03, a workday. */
  lemma PopulateJune2024(header: Row)
    requires ParseDate(Cell(header, 1)).None?
    ensures var run := PopulateRun([header], 2024, 6);
      run.outcome == Ok(Filled(30)) && |run.rows| == 31
      && run.rows[1] == DefaultRow(Date(2024, 6, 1)) && Cell(run.rows[1], 3) == No
      && run.rows[3] == DefaultRow(Date(2024, 6, 3)) && Cell(run.rows[3], 3) == Yes
  {
    var existing := ExistingDates([header]);
    JuneAllMissing(header);
    MissingDaysAll(existing, 2024, 6, 30);
    var newRows := MissingDays(existing, 2024, 6, 30);
    assert newRows[0] == DefaultRow(Date(2024, 6, 1));
    assert newRows[2] == DefaultRow(Date(2024, 6, 3));
    JuneWeekdays();
  }

  /** No day of June 2024 is present on a sheet holding only such a header. */
  lemma JuneAllMissing(header: Row)
    requires ParseDate(Cell(header, 1)).None?
    ensures DaysInMonth(2024, 6) == 30
    ensures forall d :: 1 <= d <= 30 ==> Missing(ExistingDates([header]), 2024, 6, d)
  {
    var col := ColValues([header], 1);
    assert forall s :: s in ExistingDates([header]) ==> s == Cell(header, 1) by {
      forall s | s in ExistingDates([header])
        ensures s == Cell(header, 1)
      {
        var i :| 0 <= i < |col| && col[i] == s;
      }
    }
    forall d | 1 <= d <= 30
      ensures Missing(ExistingDates([header]), 2024, 6, d)
    {
      ParseFormatDate(Day(2024, 6, d));
    }
  }

  /** 2024-06-01 was a Saturday and 2024-06-03 a Monday. */
  lemma JuneWeekdays()
    ensures Weekday(Date(2024, 6, 1)) == 5 && Weekday(Date(2024, 6, 3)) == 0
  {
  }
}
