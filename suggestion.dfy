/** `get_daily_suggestion_tool`: a read-only look at today's plan and the
    off time that would spread the remaining overtime budget evenly. */
module Suggestion {
  import opened Wrappers
  import opened Calendar
  import opened Decimals
  import opened Sheets
  import opened Workdays
  import opened Budget
  import opened TimeOfDay
  import opened Locator
  import ClockOut

  /** The four answers of the tool. A planned workday carries the sum the
      advice was computed from and the count of later workdays. */
  datatype Suggestion =
    | Weekend
    | PlanNotSet
    | NotWorkday
    | Planned(total: real, future: nat, advice: DailyAdvice)

  /** The tool on a table value, for today's date. Saturday and Sunday are
      answered before the sheet is read; a date missing from column 1 is an
      unset plan (nothing is created); a flag other than "是", blank
      included, is a rest day. */
  function SuggestionFor(rows: seq<Row>, today: Date): Suggestion
    requires Valid(today)
  {
    var t := FormatDate(today);
    if Weekday(today) >= 5 then Weekend
    else match FindRow(rows, 1, t)
      case None => PlanNotSet
      case Some(r) =>
        if Cell(rows[r - 1], 3) != Yes then NotWorkday
        else
          var total := SumDecimals(DataCells(rows, 6));
          var future := FutureWorkdays(ColValues(rows, 1), ColValues(rows, 3), t);
          Planned(total, future, DailyPace(total, future))
  }

  /** `get_daily_suggestion_tool()` on the worksheet: it reads the sheet and
      changes nothing. */
  method GetDailySuggestion(sheet: Sheet, today: Date) returns (s: Suggestion)
    requires Valid(today)
    ensures s == SuggestionFor(sheet.rows, today)
  {
    if Weekday(today) >= 5 {
      return Weekend;
    }
    var todayText := FormatDate(today);
    var found := FindRow(sheet.rows, 1, todayText);
    if found.None? {
      return PlanNotSet;
    }
    if Cell(sheet.rows[found.value - 1], 3) != Yes {
      return NotWorkday;
    }
    var total := SumDecimals(DataCells(sheet.rows, 6));
    var future := CountFutureWorkdays(ColValues(sheet.rows, 1), ColValues(sheet.rows, 3), todayText);
    return Planned(total, future, DailyPace(total, future));
  }

  /** Row i, counted from 0, is the first row whose column-1 text is t. */
  predicate FirstWith(rows: seq<Row>, i: int, t: string) {
    0 <= i < |rows| && Cell(rows[i], 1) == t && forall k :: 0 <= k < i ==> Cell(rows[k], 1) != t
  }

  /** Which answer the tool gives: the weekend whatever the sheet holds,
      an unset plan exactly when a weekday's date is missing from column 1,
      a rest day exactly when its flag is not "是", and a suggestion
      exactly on a planned workday. */
  lemma SuggestionCases(rows: seq<Row>, today: Date)
    requires Valid(today)
    ensures SuggestionFor(rows, today).Weekend? <==> Weekday(today) >= 5
    ensures SuggestionFor(rows, today).PlanNotSet? <==>
      Weekday(today) < 5 && FormatDate(today) !in ColValues(rows, 1)
    ensures SuggestionFor(rows, today).NotWorkday? <==>
      Weekday(today) < 5 && exists i :: FirstWith(rows, i, FormatDate(today)) && Cell(rows[i], 3) != Yes
    ensures SuggestionFor(rows, today).Planned? <==>
      Weekday(today) < 5 && exists i :: FirstWith(rows, i, FormatDate(today)) && Cell(rows[i], 3) == Yes
  {
    var t := FormatDate(today);
    FirstRowOf(rows, t);
    if Weekday(today) >= 5 {
      assert SuggestionFor(rows, today) == Weekend;
    } else {
      match FindRow(rows, 1, t)
      case None =>
        assert SuggestionFor(rows, today) == PlanNotSet;
        assert forall i :: !FirstWith(rows, i, t);
      case Some(r) =>
        assert FirstWith(rows, r - 1, t);
        if Cell(rows[r - 1], 3) != Yes {
          assert SuggestionFor(rows, today) == NotWorkday;
        } else {
          assert SuggestionFor(rows, today).Planned?;
        }
    }
  }

  /** The search for a key in column 1 fails exactly when the key is not
      among `col_values(1)`, and otherwise names the only first row with it. */
  lemma FirstRowOf(rows: seq<Row>, t: string)
    requires t != ""
    ensures FindRow(rows, 1, t).None? <==> t !in ColValues(rows, 1)
    ensures FindRow(rows, 1, t).Some? ==>
      FirstWith(rows, FindRow(rows, 1, t).value - 1, t)
      && forall i :: FirstWith(rows, i, t) ==> i == FindRow(rows, 1, t).value - 1
  {
    var col := ColValues(rows, 1);
    match FindRow(rows, 1, t)
    case None =>
      assert t !in col;
    case Some(r) =>
      assert r - 1 < |col| && col[r - 1] == t;
      forall i | FirstWith(rows, i, t)
        ensures i == r - 1
      {
        assert Cell(rows[i], 1) == t && Cell(rows[r - 1], 1) == t;
      }
  }

  /** On a planned workday the sum is never negative, the later workdays
      are the "是" flags after today's first row, and the remaining budget
      is spread over them and today: a full budget means leaving at 18:00,
      otherwise the suggestion is at 18:00 or later, and "on time" is never
      the answer. */
  lemma SuggestionPace(rows: seq<Row>, today: Date)
    requires Valid(today) && SuggestionFor(rows, today).Planned?
    ensures var s := SuggestionFor(rows, today);
      s.total >= 0.0
      && FindRow(rows, 1, FormatDate(today)).Some?
      && s.future == CountRange(ColValues(rows, 3), FindRow(rows, 1, FormatDate(today)).value, |ColValues(rows, 1)|)
      && (s.advice.Full? <==> s.total >= Budget.Budget)
      && (s.advice.SuggestAt? <==> s.total < Budget.Budget)
      && s.advice == DailyPace(s.total, s.future)
      && (s.advice.SuggestAt? ==> s.advice.at.hour >= 18)
      && !s.advice.OnTime?
  {
    var t := FormatDate(today);
    var r := FindRow(rows, 1, t).value;
    var total := SumDecimals(DataCells(rows, 6));
    var future := FutureWorkdays(ColValues(rows, 1), ColValues(rows, 3), t);
    assert SuggestionFor(rows, today) == Planned(total, future, DailyPace(total, future));
    SumDecimalsNonNegative(DataCells(rows, 6));
    IndexOfFindRow(rows, t);
    assert future == CountRange(ColValues(rows, 3), r, |ColValues(rows, 1)|);
  }

  /** The answer depends on columns 1, 3 and 6 only: tables that agree on
      those columns get the same answer. */
  lemma SuggestionReadsColumns(rows: seq<Row>, other: seq<Row>, today: Date)
    requires Valid(today)
    requires Column(rows, 1) == Column(other, 1)
    requires Column(rows, 3) == Column(other, 3)
    requires Column(rows, 6) == Column(other, 6)
    ensures SuggestionFor(rows, today) == SuggestionFor(other, today)
  {
    var t := FormatDate(today);
    FindRowByColumn(rows, other, 1, t);
    match FindRow(rows, 1, t)
    case None =>
    case Some(r) =>
      assert Column(rows, 3)[r - 1] == Column(other, 3)[r - 1];
  }

  /** When column 6 holds only blanks and plain decimals, the suggestion's
      sum is the sum the clock-out tool would read. */
  lemma SuggestionTotalMatchesClockOut(rows: seq<Row>, today: Date)
    requires Valid(today) && SuggestionFor(rows, today).Planned?
    requires forall i :: 0 <= i < |DataCells(rows, 6)| ==>
      DataCells(rows, 6)[i] == "" || LooksDecimal(DataCells(rows, 6)[i])
    ensures SumFloats(DataCells(rows, 6)) == Ok(SuggestionFor(rows, today).total)
  {
    SumsAgree(DataCells(rows, 6));
  }

  /** A blank cell, or one the suggestion's filter takes. */
  predicate PlainCell(v: string) {
    v == "" || LooksDecimal(v)
  }

  /** Every data row holds a blank or a plain decimal in column 6. */
  predicate PlainOvertime(rows: seq<Row>) {
    forall i :: 1 <= i < |rows| ==> PlainCell(Cell(rows[i], 6))
  }

  /** What `col_values(6)[1:]` returns from such a table is plain too. */
  lemma PlainDataCells(rows: seq<Row>)
    requires PlainOvertime(rows)
    ensures forall i :: 0 <= i < |DataCells(rows, 6)| ==> PlainCell(DataCells(rows, 6)[i])
  {
    forall i | 0 <= i < |DataCells(rows, 6)|
      ensures PlainCell(DataCells(rows, 6)[i])
    {
      assert DataCells(rows, 6)[i] == Cell(rows[i + 1], 6);
    }
  }

  /** The locator keeps column 6 plain as long as column 1 has its header:
      the new row goes in below the header and its column 6 is blank.
      (When column 1 is entirely blank the row goes in at row 1 and the old
      first row, with whatever its column 6 holds, becomes a data row.) */
  lemma LocateKeepsPlain(rows: seq<Row>, t: string)
    requires |rows| >= 1 && Cell(rows[0], 1) != "" && PlainOvertime(rows)
    requires LocateOrCreate(rows, t).Ok?
    ensures PlainOvertime(LocateOrCreate(rows, t).value.rows)
  {
    if FindRow(rows, 1, t).None? {
      var d := ParseDate(t).value;
      var index := InsertIndex(ColValues(rows, 1), d);
      assert |ColValues(rows, 1)| >= 1;
      assert LocateOrCreate(rows, t) == Ok(Located(index, InsertRowAt(rows, index, DefaultRow(d))));
      InsertKeepsPlain(rows, index, DefaultRow(d));
    }
  }

  /** A row with a blank column 6 inserted below the header keeps column 6
      plain: the rows it pushes down were data rows already. */
  lemma InsertKeepsPlain(rows: seq<Row>, index: nat, row: Row)
    requires 2 <= index <= |rows| + 1 && PlainOvertime(rows) && Cell(row, 6) == ""
    ensures PlainOvertime(InsertRowAt(rows, index, row))
  {
    var p := index - 1;
    var u := InsertRowAt(rows, index, row);
    var rest := u[..p] + u[p + 1..];
    assert rest == rows;
    forall i | 1 <= i < |u|
      ensures PlainCell(Cell(u[i], 6))
    {
      if i < p {
        assert rest[i] == u[i];
      } else if i > p {
        assert rest[i - 1] == u[p + 1..][i - 1 - p] == u[i];
      }
    }
  }

  /** A write outside column 6 leaves column 6, and so its plainness and
      its data cells, as they were. */
  lemma WriteKeepsPlain(rows: seq<Row>, r: nat, c: nat, v: string)
    requires 1 <= r <= |rows| && 1 <= c && c != 6 && PlainOvertime(rows)
    ensures PlainOvertime(SetCell(rows, r, c, v))
    ensures DataCells(SetCell(rows, r, c, v), 6) == DataCells(rows, 6)
  {
    ColumnAfterSet(rows, r, c, v, 6);
  }

  /** Writing a non-negative overtime in `:.2f` keeps column 6 plain, so
      the clock-out's strict sum succeeds and equals the filtered sum. */
  lemma OvertimeWriteKeepsPlain(rows: seq<Row>, r: nat, overtime: real)
    requires 1 <= r <= |rows| && PlainOvertime(rows) && overtime >= 0.0
    ensures PlainOvertime(SetCell(rows, r, 6, Format2(overtime)))
    ensures var cells := DataCells(SetCell(rows, r, 6, Format2(overtime)), 6);
      SumFloats(cells) == Ok(SumDecimals(cells))
  {
    Format2LooksDecimal(overtime);
    var w := SetCell(rows, r, 6, Format2(overtime));
    assert PlainOvertime(w);
    PlainDataCells(w);
    SumsAgree(DataCells(w, 6));
  }

  /** From a plain column 6 the clock-out cannot fail on a cell: its only
      error is an unreadable standard time. It leaves the column plain, and
      a recorded total is what the suggestion's filtered sum reads back. */
  lemma ClockOutKeepsPlain(rows: seq<Row>, r: nat, t: string, now: Clock)
    requires 1 <= r <= |rows| && ValidClock(now) && PlainOvertime(rows)
    ensures var run := ClockOut.ClockOutAt(rows, r, t, now);
      PlainOvertime(run.rows)
      && (run.outcome.Err? ==> run.outcome.error.BadTime?)
      && (run.outcome.Ok? && run.outcome.value.Recorded? ==>
            SumDecimals(DataCells(run.rows, 6)) == run.outcome.value.total)
  {
    if Cell(rows[r - 1], 3) != Yes {
      assert ClockOut.ClockOutAt(rows, r, t, now) == Run(Ok(ClockOut.NotWorkday(t)), rows);
    } else {
      var withOff := SetCell(rows, r, 5, FormatTime(now));
      WriteKeepsPlain(rows, r, 5, FormatTime(now));
      var standardText := Cell(withOff[r - 1], 4);
      match ParseTime(standardText)
      case None =>
        assert ClockOut.ClockOutAt(rows, r, t, now) == Run(Err(BadTime(standardText)), withOff);
      case Some(standard) =>
        var overtime := OvertimeHours(now, standard);
        OvertimeMeaning(now, standard);
        OvertimeWriteKeepsPlain(withOff, r, overtime);
        var withOvertime := SetCell(withOff, r, 6, Format2(overtime));
        var total := SumDecimals(DataCells(withOvertime, 6));
        var withTotal := SetCell(withOvertime, r, 7, Format2(total));
        WriteKeepsPlain(withOvertime, r, 7, Format2(total));
        var future := FutureWorkdays(ColValues(withTotal, 1), ColValues(withTotal, 3), t);
        assert ClockOut.ClockOutAt(rows, r, t, now)
          == Run(Ok(ClockOut.Recorded(FormatTime(now), overtime, total, future, ClockOutAdvice(total, future))), withTotal);
    }
  }

  /** Asked right after a recorded clock-out, on a weekday, the suggestion
      finds today's row planned and reads the very total and count of later
      workdays the clock-out reported. */
  lemma SuggestionAfterClockOutAt(rows: seq<Row>, r: nat, now: Clock, today: Date)
    requires Valid(today) && ValidClock(now) && Weekday(today) < 5
    requires 1 <= r <= |rows| && FindRow(rows, 1, FormatDate(today)) == Some(r)
    requires PlainOvertime(rows)
    ensures var run := ClockOut.ClockOutAt(rows, r, FormatDate(today), now);
      run.outcome.Ok? && run.outcome.value.Recorded? ==>
        var rep := run.outcome.value;
        SuggestionFor(run.rows, today) == Planned(rep.total, rep.future, DailyPace(rep.total, rep.future))
  {
    var t := FormatDate(today);
    if Cell(rows[r - 1], 3) == Yes {
      var withOff := SetCell(rows, r, 5, FormatTime(now));
      WriteKeepsPlain(rows, r, 5, FormatTime(now));
      assert Cell(withOff[r - 1], 4) == Cell(rows[r - 1], 4);
      match ParseTime(Cell(withOff[r - 1], 4))
      case None =>
      case Some(standard) =>
        var overtime := OvertimeHours(now, standard);
        OvertimeMeaning(now, standard);
        OvertimeWriteKeepsPlain(withOff, r, overtime);
        var withOvertime := SetCell(withOff, r, 6, Format2(overtime));
        var total := SumDecimals(DataCells(withOvertime, 6));
        var withTotal := SetCell(withOvertime, r, 7, Format2(total));
        WriteKeepsPlain(withOvertime, r, 7, Format2(total));
        var future := FutureWorkdays(ColValues(withTotal, 1), ColValues(withTotal, 3), t);
        assert ClockOut.ClockOutAt(rows, r, t, now)
          == Run(Ok(ClockOut.Recorded(FormatTime(now), overtime, total, future, ClockOutAdvice(total, future))), withTotal);
        SuggestionAfterWrites(rows, r, today, FormatTime(now), Format2(overtime), Format2(total));
    }
  }

  /** After writes to columns 5 to 7 of today's planned row, the suggestion
      is planned and computed from the table as written. */
  lemma SuggestionAfterWrites(rows: seq<Row>, r: nat, today: Date, v5: string, v6: string, v7: string)
    requires Valid(today) && Weekday(today) < 5
    requires 1 <= r <= |rows| && FindRow(rows, 1, FormatDate(today)) == Some(r) && Cell(rows[r - 1], 3) == Yes
    ensures var w := SetCell(SetCell(SetCell(rows, r, 5, v5), r, 6, v6), r, 7, v7);
      var total := SumDecimals(DataCells(w, 6));
      var future := FutureWorkdays(ColValues(w, 1), ColValues(w, 3), FormatDate(today));
      SuggestionFor(w, today) == Planned(total, future, DailyPace(total, future))
  {
    var w1 := SetCell(rows, r, 5, v5);
    var w2 := SetCell(w1, r, 6, v6);
    var w := SetCell(w2, r, 7, v7);
    assert Cell(w1[r - 1], 3) == Yes;
    assert Cell(w2[r - 1], 3) == Yes;
    assert Cell(w[r - 1], 3) == Yes;
    ClockOut.UntouchedColumn(rows, r, v5, v6, v7, 1);
    FindRowByColumn(w, rows, 1, FormatDate(today));
    PlannedRow(w, r, today);
  }

  /** On a weekday whose first row in column 1 is flagged "是", the answer
      is the pace computed from columns 1, 3 and 6. */
  lemma PlannedRow(rows: seq<Row>, r: nat, today: Date)
    requires Valid(today) && Weekday(today) < 5
    requires 1 <= r <= |rows| && FindRow(rows, 1, FormatDate(today)) == Some(r) && Cell(rows[r - 1], 3) == Yes
    ensures var total := SumDecimals(DataCells(rows, 6));
      var future := FutureWorkdays(ColValues(rows, 1), ColValues(rows, 3), FormatDate(today));
      SuggestionFor(rows, today) == Planned(total, future, DailyPace(total, future))
  {
  }

  /** The whole clock-out followed by the suggestion on the same day: on a
      sheet whose column 1 has its header and whose column 6 is plain, the
      clock-out can fail only on the standard time, keeps column 6 plain,
      and a recorded total is the total the suggestion then reports. */
  lemma ClockOutThenSuggestion(rows: seq<Row>, today: Date, now: Clock)
    requires Valid(today) && ValidClock(now)
    requires |rows| >= 1 && Cell(rows[0], 1) != "" && PlainOvertime(rows)
    ensures var run := ClockOut.ClockOutRun(rows, today, now);
      PlainOvertime(run.rows)
      && (run.outcome.Err? ==> run.outcome.error.BadTime?)
      && (run.outcome.Ok? && run.outcome.value.Recorded? && Weekday(today) < 5 ==>
            var rep := run.outcome.value;
            SuggestionFor(run.rows, today) == Planned(rep.total, rep.future, DailyPace(rep.total, rep.future)))
  {
    var l := ClockOut.LocateToday(rows, today);
    LocateKeepsPlain(rows, FormatDate(today));
    ClockOut.TodayIsFound(rows, today);
    ClockOutKeepsPlain(l.rows, l.row, FormatDate(today), now);
    if Weekday(today) < 5 {
      SuggestionAfterClockOutAt(l.rows, l.row, now, today);
    }
  }
}
