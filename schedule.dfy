/** `update_schedule_tool`: set the workday flag of one date, creating the
    date's row first when it is missing. */
module Schedule {
  import opened Wrappers
  import opened Calendar
  import opened Sheets
  import opened Locator

  /** The confirmation: which date now carries which flag. */
  datatype Updated = Updated(date: string, workday: bool)

  /** The column-3 token for a workday choice. */
  function Flag(isWorkday: bool): (s: string)
    ensures s == Yes <==> isWorkday
    ensures s == No <==> !isWorkday
  {
    if isWorkday then Yes else No
  }

  /** The tool on a table value. */
  function UpdateScheduleRun(rows: seq<Row>, target: string, isWorkday: bool): Run<Updated> {
    match LocateOrCreate(rows, target)
    case Err(e) => Run(Err(e), rows)
    case Ok(l) => Run(Ok(Updated(target, isWorkday)), SetCell(l.rows, l.row, 3, Flag(isWorkday)))
  }

  /** `update_schedule_tool(target_date, is_workday)` on the worksheet. */
  method UpdateSchedule(sheet: Sheet, target: string, isWorkday: bool) returns (res: Result<Updated>)
    modifies sheet
    ensures res == UpdateScheduleRun(old(sheet.rows), target, isWorkday).outcome
    ensures sheet.rows == UpdateScheduleRun(old(sheet.rows), target, isWorkday).rows
  {
    ghost var spec := UpdateScheduleRun(sheet.rows, target, isWorkday);
    ghost var located := LocateOrCreate(sheet.rows, target);
    var rowIndex := FindOrCreateRow(sheet, target);
    if rowIndex.Err? {
      return Err(rowIndex.error);
    }
    assert sheet.rows == located.value.rows;
    sheet.UpdateCell(rowIndex.value, 3, Flag(isWorkday));
    return Ok(Updated(target, isWorkday));
  }

  /** A successful update leaves the date's row, found by `find`, holding the
      chosen flag, and changes no other cell of the located table; a date
      already present keeps its row. An unknown text that is not a date is
      refused and the table is untouched. */
  lemma UpdateScheduleEffect(rows: seq<Row>, target: string, isWorkday: bool)
    ensures var run := UpdateScheduleRun(rows, target, isWorkday);
      run.outcome.Err? <==> FindRow(rows, 1, target).None? && ParseDate(target).None?
    ensures var run := UpdateScheduleRun(rows, target, isWorkday);
      run.outcome.Err? ==> run.rows == rows
    ensures var run := UpdateScheduleRun(rows, target, isWorkday);
      run.outcome.Ok? ==>
        var l := LocateOrCreate(rows, target).value;
        FindRow(run.rows, 1, target) == Some(l.row)
        && Cell(run.rows[l.row - 1], 3) == Flag(isWorkday)
        && |run.rows| == |l.rows|
        && (forall i, k :: 0 <= i < |l.rows| && 1 <= k && (i != l.row - 1 || k != 3) ==>
              Cell(run.rows[i], k) == Cell(l.rows[i], k))
        && (FindRow(rows, 1, target).Some? ==> l.rows == rows)
  {
    var run := UpdateScheduleRun(rows, target, isWorkday);
    if run.outcome.Ok? {
      var l := LocateOrCreate(rows, target).value;
      LocatedRowHoldsKey(rows, target);
      ColumnAfterSet(l.rows, l.row, 3, Flag(isWorkday), 1);
      FindRowByColumn(run.rows, l.rows, 1, target);
    }
  }

  /** Repeating the update with the same arguments changes nothing more. */
  lemma UpdateScheduleIdempotent(rows: seq<Row>, target: string, isWorkday: bool)
    ensures var once := UpdateScheduleRun(rows, target, isWorkday);
      UpdateScheduleRun(once.rows, target, isWorkday) == once
  {
    var once := UpdateScheduleRun(rows, target, isWorkday);
    if once.outcome.Ok? {
      var l := LocateOrCreate(rows, target).value;
      UpdateScheduleEffect(rows, target, isWorkday);
      assert LocateOrCreate(once.rows, target) == Ok(Located(l.row, once.rows));
      SetCellTwice(l.rows, l.row, 3, Flag(isWorkday));
    }
  }
}
