/** `clock_out_tool`: record today's off time and overtime, total the
    overtime column, and advise on the rest of the budget. */
module ClockOut {
  import opened Wrappers
  import opened Calendar
  import opened TimeOfDay
  import opened Decimals
  import opened Sheets
  import opened Locator
  import opened Workdays
  import opened Budget

  /** The report: a refusal on a day not planned as a workday, or what was
      recorded and the advice for the remaining workdays. */
  datatype Report =
    | NotWorkday(today: string)
    | Recorded(offTime: string, overtime: real, total: real, future: nat, advice: Advice)

  /** Today's row, which can always be located or created: the text of a
      valid date parses. */
  function LocateToday(rows: seq<Row>, today: Date): (l: Located)
    requires Valid(today)
    ensures LocateOrCreate(rows, FormatDate(today)) == Ok(l)
    ensures 1 <= l.row <= |l.rows|
  {
    ParseFormatDate(today);
    LocateOrCreate(rows, FormatDate(today)).value
  }

  /** The tool on a table value, for today's date and the current clock:
      locate or create today's row, then record the day in it. */
  function ClockOutRun(rows: seq<Row>, today: Date, now: Clock): Run<Report>
    requires Valid(today) && ValidClock(now)
  {
    var l := LocateToday(rows, today);
    ClockOutAt(l.rows, l.row, FormatDate(today), now)
  }

  /** The steps after today's row r is known. The writes happen in the
      source's order, so a later failure keeps the earlier writes: the off
      time is written before the standard time is parsed, and the overtime
      before the column is summed. */
  function ClockOutAt(rows: seq<Row>, r: nat, t: string, now: Clock): Run<Report>
    requires 1 <= r <= |rows| && ValidClock(now)
  {
    if Cell(rows[r - 1], 3) != Yes then Run(Ok(NotWorkday(t)), rows)
    else
      var offTime := FormatTime(now);
      var withOff := SetCell(rows, r, 5, offTime);
      var standardText := Cell(withOff[r - 1], 4);
      match ParseTime(standardText)
      case None => Run(Err(BadTime(standardText)), withOff)
      case Some(standard) =>
        var overtime := OvertimeHours(now, standard);
        var withOvertime := SetCell(withOff, r, 6, Format2(overtime));
        match SumFloats(DataCells(withOvertime, 6))
        case Err(e) => Run(Err(e), withOvertime)
        case Ok(total) =>
          var withTotal := SetCell(withOvertime, r, 7, Format2(total));
          var future := FutureWorkdays(ColValues(withTotal, 1), ColValues(withTotal, 3), t);
          Run(Ok(Recorded(offTime, overtime, total, future, ClockOutAdvice(total, future))), withTotal)
  }

  /** `clock_out_tool()` on the worksheet, with `date.today()` and
      `datetime.now()` passed in. */
  method ClockOutTool(sheet: Sheet, today: Date, now: Clock) returns (res: Result<Report>)
    requires Valid(today) && ValidClock(now)
    modifies sheet
    ensures res == ClockOutRun(old(sheet.rows), today, now).outcome
    ensures sheet.rows == ClockOutRun(old(sheet.rows), today, now).rows
  {
    var todayText := FormatDate(today);
    ghost var l := LocateToday(sheet.rows, today);
    var located := FindOrCreateRow(sheet, todayText);
    var rowIndex := located.value;
    assert rowIndex == l.row && sheet.rows == l.rows;
    ghost var spec := ClockOutAt(l.rows, l.row, todayText, now);
    if Cell(sheet.rows[rowIndex - 1], 3) != Yes {
      assert spec == Run(Ok(NotWorkday(todayText)), l.rows);
      return Ok(NotWorkday(todayText));
    }
    var offTime := FormatTime(now);
    sheet.UpdateCell(rowIndex, 5, offTime);
    var standardText := Cell(sheet.rows[rowIndex - 1], 4);
    var standard := ParseTime(standardText);
    if standard.None? {
      assert spec == Run(Err(BadTime(standardText)), sheet.rows);
      return Err(BadTime(standardText));
    }
    var overtime := OvertimeHours(now, standard.value);
    sheet.UpdateCell(rowIndex, 6, Format2(overtime));
    var sum := SumFloats(DataCells(sheet.rows, 6));
    if sum.Err? {
      assert spec == Run(Err(sum.error), sheet.rows);
      return Err(sum.error);
    }
    var total := sum.value;
    sheet.UpdateCell(rowIndex, 7, Format2(total));
    var future := CountFutureWorkdays(ColValues(sheet.rows, 1), ColValues(sheet.rows, 3), todayText);
    assert spec == Run(Ok(Recorded(offTime, overtime, total, future, ClockOutAdvice(total, future))), sheet.rows);
    return Ok(Recorded(offTime, overtime, total, future, ClockOutAdvice(total, future)));
  }

  /** On a day whose flag is blank or not "是" the tool refuses and writes
      nothing, although the row may just have been created; a row that
      already existed leaves the table as it was. */
  lemma ClockOutRefusal(rows: seq<Row>, today: Date, now: Clock)
    requires Valid(today) && ValidClock(now)
    requires var l := LocateToday(rows, today); Cell(l.rows[l.row - 1], 3) != Yes
    ensures ClockOutRun(rows, today, now) == Run(Ok(NotWorkday(FormatDate(today))), LocateToday(rows, today).rows)
    ensures FindRow(rows, 1, FormatDate(today)).Some? ==> ClockOutRun(rows, today, now).rows == rows
  {
  }

  /** Two tables of the same length that agree everywhere except on columns
      5 to 7 of row r. */
  ghost predicate SameOutside(a: seq<Row>, b: seq<Row>, r: nat) {
    |a| == |b|
    && forall i, k :: 0 <= i < |a| && 1 <= k && (i != r - 1 || k < 5 || k > 7) ==> Cell(a[i], k) == Cell(b[i], k)
  }

  lemma SetCellOutside(rows: seq<Row>, r: nat, c: nat, v: string)
    requires 1 <= r <= |rows| && 5 <= c <= 7
    ensures SameOutside(SetCell(rows, r, c, v), rows, r)
  {
  }

  lemma SameOutsideTrans(a: seq<Row>, b: seq<Row>, c: seq<Row>, r: nat)
    requires SameOutside(a, b, r) && SameOutside(b, c, r)
    ensures SameOutside(a, c, r)
  {
  }

  /** Whatever the outcome, the steps after locating change only columns 5
      to 7 of today's row. */
  lemma ClockOutFrame(rows: seq<Row>, r: nat, t: string, now: Clock)
    requires 1 <= r <= |rows| && ValidClock(now)
    ensures SameOutside(ClockOutAt(rows, r, t, now).rows, rows, r)
  {
    if Cell(rows[r - 1], 3) == Yes {
      var withOff := SetCell(rows, r, 5, FormatTime(now));
      SetCellOutside(rows, r, 5, FormatTime(now));
      match ParseTime(Cell(withOff[r - 1], 4))
      case None =>
      case Some(standard) =>
        var withOvertime := SetCell(withOff, r, 6, Format2(OvertimeHours(now, standard)));
        SetCellOutside(withOff, r, 6, Format2(OvertimeHours(now, standard)));
        SameOutsideTrans(withOvertime, withOff, rows, r);
        match SumFloats(DataCells(withOvertime, 6))
        case Err(_) =>
        case Ok(total) =>
          SetCellOutside(withOvertime, r, 7, Format2(total));
          SameOutsideTrans(SetCell(withOvertime, r, 7, Format2(total)), withOvertime, rows, r);
    }
  }

  /** On a planned workday the recorded values are in today's row: the off
      time, the overtime against the row's standard time (never negative)
      and the total, the last two as `:.2f` text. */
  lemma ClockOutRecorded(rows: seq<Row>, r: nat, t: string, now: Clock)
    requires 1 <= r <= |rows| && ValidClock(now)
    ensures var run := ClockOutAt(rows, r, t, now);
      run.outcome.Ok? && run.outcome.value.Recorded? ==>
        var rep := run.outcome.value;
        ParseTime(Cell(rows[r - 1], 4)).Some?
        && rep.offTime == FormatTime(now)
        && rep.overtime == OvertimeHours(now, ParseTime(Cell(rows[r - 1], 4)).value)
        && rep.overtime >= 0.0
        && Cell(run.rows[r - 1], 5) == FormatTime(now)
        && Cell(run.rows[r - 1], 6) == Format2(rep.overtime)
        && Cell(run.rows[r - 1], 7) == Format2(rep.total)
        && FirstRejected(DataCells(SetCell(SetCell(rows, r, 5, FormatTime(now)), r, 6, Format2(rep.overtime)), 6)).None?
  {
    if Cell(rows[r - 1], 3) == Yes {
      var withOff := SetCell(rows, r, 5, FormatTime(now));
      assert Cell(withOff[r - 1], 4) == Cell(rows[r - 1], 4);
      match ParseTime(Cell(withOff[r - 1], 4))
      case None =>
      case Some(standard) =>
        OvertimeMeaning(now, standard);
    }
  }

  /** On a planned workday whose standard time in column 4 does not parse,
      the tool fails with that text; the off time stays written and nothing
      else is. */
  lemma ClockOutRejectsBadTime(rows: seq<Row>, r: nat, t: string, now: Clock)
    requires 1 <= r <= |rows| && ValidClock(now)
    requires Cell(rows[r - 1], 3) == Yes && ParseTime(Cell(rows[r - 1], 4)).None?
    ensures ClockOutAt(rows, r, t, now) == Run(Err(BadTime(Cell(rows[r - 1], 4))), SetCell(rows, r, 5, FormatTime(now)))
  {
    var withOff := SetCell(rows, r, 5, FormatTime(now));
    assert Cell(withOff[r - 1], 4) == Cell(rows[r - 1], 4);
  }

  /** On a planned workday with a readable standard time, a column-6 cell
      the float conversion rejects, once today's overtime is written, ends
      the tool with that cell's error; the off time and the overtime stay
      written and the total is not. */
  lemma ClockOutRejectsBadCell(rows: seq<Row>, r: nat, t: string, now: Clock, bad: string)
    requires 1 <= r <= |rows| && ValidClock(now)
    requires Cell(rows[r - 1], 3) == Yes && ParseTime(Cell(rows[r - 1], 4)).Some?
    requires var overtime := OvertimeHours(now, ParseTime(Cell(rows[r - 1], 4)).value);
      FirstRejected(DataCells(SetCell(SetCell(rows, r, 5, FormatTime(now)), r, 6, Format2(overtime)), 6)) == Some(bad)
    ensures var overtime := OvertimeHours(now, ParseTime(Cell(rows[r - 1], 4)).value);
      var run := ClockOutAt(rows, r, t, now);
      run.outcome == Err(BadNumber(bad))
      && run.rows == SetCell(SetCell(rows, r, 5, FormatTime(now)), r, 6, Format2(overtime))
  {
    var withOff := SetCell(rows, r, 5, FormatTime(now));
    assert Cell(withOff[r - 1], 4) == Cell(rows[r - 1], 4);
    var standard := ParseTime(Cell(withOff[r - 1], 4)).value;
    var withOvertime := SetCell(withOff, r, 6, Format2(OvertimeHours(now, standard)));
    assert SumFloats(DataCells(withOvertime, 6)) == Err(BadNumber(bad));
    assert ClockOutAt(rows, r, t, now) == Run(Err(BadNumber(bad)), withOvertime);
  }

  /** The column sum, with the trailing blanks `col_values` drops, is the
      sum over every data cell of the column. */
  lemma DataCellsSum(rows: seq<Row>, c: nat)
    requires |rows| >= 1
    ensures Total(DataCells(rows, c)) == Total(Column(rows, c)[1..])
    ensures FirstRejected(DataCells(rows, c)) == FirstRejected(Column(rows, c)[1..])
  {
    TrimmedSum(Column(rows, c));
  }

  /** Dropping the trailing blanks of a column keeps its data sum. */
  lemma TrimmedSum(s: seq<string>)
    requires |s| >= 1
    ensures var t := TrimBlank(s);
      var data := if |t| == 0 then [] else t[1..];
      Total(data) == Total(s[1..]) && FirstRejected(data) == FirstRejected(s[1..])
  {
    var t := TrimBlank(s);
    if |t| >= 1 {
      assert s[1..] == t[1..] + s[|t|..];
      BlankTail(t[1..], s[|t|..]);
    } else {
      BlankCells(s[1..]);
    }
  }

  /** The total is read back after today's overtime is written: on a data
      row it is the sum of the column as it was, with today's old cell
      replaced by the value its new two-decimal text stands for. */
  lemma ClockOutTotalIncludesToday(rows: seq<Row>, r: nat, t: string, now: Clock)
    requires 2 <= r <= |rows| && ValidClock(now)
    requires Cell(rows[r - 1], 3) == Yes && ParseTime(Cell(rows[r - 1], 4)).Some?
    requires FirstRejected(Column(rows, 6)[1..]).None?
    ensures var old6 := Column(rows, 6)[1..];
      var overtime := OvertimeHours(now, ParseTime(Cell(rows[r - 1], 4)).value);
      var run := ClockOutAt(rows, r, t, now);
      run.outcome.Ok? && run.outcome.value.Recorded?
      && run.outcome.value.total == Total(old6) - CellValue(old6[r - 2]) + Rounded2(overtime)
  {
    var standard := ParseTime(Cell(rows[r - 1], 4)).value;
    var overtime := OvertimeHours(now, standard);
    var withOff := SetCell(rows, r, 5, FormatTime(now));
    assert Cell(withOff[r - 1], 4) == Cell(rows[r - 1], 4);
    SumAfterOvertime(rows, r, FormatTime(now), overtime);
  }

  /** Writing the off time and then an overtime value into row r leaves
      an accepted column 6 accepted, with that row's old value replaced by
      the two-decimal value written. */
  lemma SumAfterOvertime(rows: seq<Row>, r: nat, v5: string, overtime: real)
    requires 2 <= r <= |rows|
    requires FirstRejected(Column(rows, 6)[1..]).None?
    ensures var sum := SumFloats(DataCells(SetCell(SetCell(rows, r, 5, v5), r, 6, Format2(overtime)), 6));
      var old6 := Column(rows, 6)[1..];
      sum.Ok? && sum.value == Total(old6) - CellValue(old6[r - 2]) + Rounded2(overtime)
  {
    var withOff := SetCell(rows, r, 5, v5);
    var withOvertime := SetCell(withOff, r, 6, Format2(overtime));
    ColumnAfterSet(rows, r, 5, v5, 6);
    ColumnAfterSet(withOff, r, 6, Format2(overtime), 6);
    var old6 := Column(rows, 6)[1..];
    assert Column(withOvertime, 6)[1..] == old6[r - 2 := Format2(overtime)];
    var written := old6[r - 2 := Format2(overtime)];
    DataCellsSum(withOvertime, 6);
    ParseFormat2(overtime);
    SumAfterWrite(old6, r - 2, Format2(overtime), Rounded2(overtime));
    assert SumFloats(DataCells(withOvertime, 6)) == SumFloats(written);
  }

  /** Overwriting one accepted cell with the text of x changes the sum by
      x minus the old cell's value. */
  lemma SumAfterWrite(cells: seq<string>, k: nat, v: string, x: real)
    requires k < |cells| && FirstRejected(cells).None? && ParseFloat(v) == Some(x)
    ensures SumFloats(cells[k := v]).Ok?
    ensures SumFloats(cells[k := v]).value == Total(cells) - CellValue(cells[k]) + x
  {
    AcceptedAfterWrite(cells, k, v);
    TotalAfterWrite(cells, k, v);
    ParsedCellValue(v, x);
  }

  /** The advice counts the "是" flags of the rows after today's row, up to
      the end of the date column; flags of earlier rows do not count. */
  lemma ClockOutCountsLaterRows(rows: seq<Row>, r: nat, t: string, now: Clock)
    requires 1 <= r <= |rows| && ValidClock(now) && t != ""
    requires FindRow(rows, 1, t) == Some(r)
    ensures var run := ClockOutAt(rows, r, t, now);
      run.outcome.Ok? && run.outcome.value.Recorded? ==>
        run.outcome.value.future == CountRange(ColValues(rows, 3), r, |ColValues(rows, 1)|)
        && run.outcome.value.advice == ClockOutAdvice(run.outcome.value.total, run.outcome.value.future)
  {
    if Cell(rows[r - 1], 3) == Yes {
      var withOff := SetCell(rows, r, 5, FormatTime(now));
      match ParseTime(Cell(withOff[r - 1], 4))
      case None =>
      case Some(standard) =>
        var v6 := Format2(OvertimeHours(now, standard));
        var withOvertime := SetCell(withOff, r, 6, v6);
        match SumFloats(DataCells(withOvertime, 6))
        case Err(_) =>
        case Ok(total) =>
          FutureAfterWrites(rows, r, t, FormatTime(now), v6, Format2(total));
    }
  }

  /** After the three writes, the future workdays are the "是" flags of the
      rows after row r, read from the table as it was. */
  lemma FutureAfterWrites(rows: seq<Row>, r: nat, t: string, v5: string, v6: string, v7: string)
    requires 1 <= r <= |rows| && t != "" && FindRow(rows, 1, t) == Some(r)
    ensures var after := SetCell(SetCell(SetCell(rows, r, 5, v5), r, 6, v6), r, 7, v7);
      FutureWorkdays(ColValues(after, 1), ColValues(after, 3), t) == CountRange(ColValues(rows, 3), r, |ColValues(rows, 1)|)
  {
    var after := SetCell(SetCell(SetCell(rows, r, 5, v5), r, 6, v6), r, 7, v7);
    UntouchedColumn(rows, r, v5, v6, v7, 1);
    UntouchedColumn(rows, r, v5, v6, v7, 3);
    assert ColValues(after, 1) == ColValues(rows, 1);
    assert ColValues(after, 3) == ColValues(rows, 3);
    IndexOfFindRow(rows, t);
  }

  /** The three writes leave columns 1 to 4 as they were. */
  lemma UntouchedColumn(rows: seq<Row>, r: nat, v5: string, v6: string, v7: string, k: nat)
    requires 1 <= r <= |rows| && 1 <= k <= 4
    ensures Column(SetCell(SetCell(SetCell(rows, r, 5, v5), r, 6, v6), r, 7, v7), k) == Column(rows, k)
  {
    ColumnAfterSet(rows, r, 5, v5, k);
    ColumnAfterSet(SetCell(rows, r, 5, v5), r, 6, v6, k);
    ColumnAfterSet(SetCell(SetCell(rows, r, 5, v5), r, 6, v6), r, 7, v7, k);
  }

  /** Today's located row holds today's date and is the first that does, so
      the facts above apply to the whole tool. */
  lemma TodayIsFound(rows: seq<Row>, today: Date)
    requires Valid(today)
    ensures var l := LocateToday(rows, today);
      FindRow(l.rows, 1, FormatDate(today)) == Some(l.row) && FormatDate(today) != ""
  {
    var l := LocateToday(rows, today);
    LocatedRowHoldsKey(rows, FormatDate(today));
  }
}
