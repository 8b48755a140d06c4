/** The row locator: find a date's row, or insert a default row for it
    where it keeps column 1 in date order. */
module Locator {
  import opened Wrappers
  import opened Calendar
  import opened TimeOfDay
  import opened Sheets

  /** The record a day starts with: date, weekday name, workday token
      ("是" Monday to Friday, "否" at the weekend) and the standard off time;
      the overtime columns 5 to 7 stay blank. */
  function DefaultRow(d: Date): (row: Row)
    requires Valid(d)
    ensures |row| == 4
    ensures Cell(row, 1) == FormatDate(d) && Cell(row, 2) == WeekdayName(d)
    ensures Cell(row, 3) == Yes <==> Weekday(d) < 5
    ensures Cell(row, 3) == No <==> Weekday(d) >= 5
    ensures Cell(row, 4) == StandardOffTime
    ensures forall c :: c >= 5 ==> Cell(row, c) == ""
  {
    [FormatDate(d), WeekdayName(d), if Weekday(d) < 5 then Yes else No, StandardOffTime]
  }

  /** The cell holds a date that parses and is strictly later than target. */
  predicate LaterThan(s: string, target: Date) {
    match ParseDate(s)
    case Some(d) => Before(target, d)
    case None => false
  }

  /** The insertion row number the scan finds, starting at row number i:
      the first row from i on whose date parses and is later than target,
      or one past the last row of the column. Unparseable cells are skipped. */
  function InsertIndexFrom(dates: seq<string>, target: Date, i: nat): (r: nat)
    requires 2 <= i
    ensures r == |dates| + 1 || (i <= r <= |dates| && LaterThan(dates[r - 1], target))
    ensures forall j :: i - 1 <= j < r - 1 && j < |dates| ==> !LaterThan(dates[j], target)
    decreases |dates| + 1 - i
  {
    if i > |dates| then |dates| + 1
    else if LaterThan(dates[i - 1], target) then i
    else InsertIndexFrom(dates, target, i + 1)
  }

  /** The scan of lines 50-59, over the data rows (row numbers 2 on). */
  function InsertIndex(dates: seq<string>, target: Date): (r: nat)
    ensures r == |dates| + 1 || (2 <= r <= |dates| && LaterThan(dates[r - 1], target))
    ensures forall j :: 1 <= j < r - 1 && j < |dates| ==> !LaterThan(dates[j], target)
  {
    InsertIndexFrom(dates, target, 2)
  }

  /** Where a date's row is, and the table it is in. */
  datatype Located = Located(row: nat, rows: seq<Row>)

  /** `_find_or_create_row` on a table value: an exact match in column 1
      wins; otherwise the target must parse as a date, and its default row
      goes in before the first later date. */
  function LocateOrCreate(rows: seq<Row>, target: string): (r: Result<Located>)
    ensures r.Err? <==> FindRow(rows, 1, target).None? && ParseDate(target).None?
    ensures r.Err? ==> r.error == BadDate(target)
    ensures r.Ok? ==> 1 <= r.value.row <= |r.value.rows|
    ensures r.Ok? && FindRow(rows, 1, target).Some? ==> r.value.rows == rows
    ensures r.Ok? && FindRow(rows, 1, target).None? ==>
      var d := ParseDate(target).value;
      |r.value.rows| == |rows| + 1
      && r.value.row == InsertIndex(ColValues(rows, 1), d)
      && r.value.rows[r.value.row - 1] == DefaultRow(d)
      && r.value.rows[..r.value.row - 1] + r.value.rows[r.value.row..] == rows
  {
    match FindRow(rows, 1, target)
    case Some(n) => Ok(Located(n, rows))
    case None =>
      match ParseDate(target)
      case None => Err(BadDate(target))
      case Some(d) =>
        var index := InsertIndex(ColValues(rows, 1), d);
        Ok(Located(index, InsertRowAt(rows, index, DefaultRow(d))))
  }

  /** `_find_or_create_row(worksheet, target)`: the row number of target's
      row, creating that row in place when column 1 lacks it. */
  method FindOrCreateRow(sheet: Sheet, target: string) returns (res: Result<nat>)
    modifies sheet
    ensures LocateOrCreate(old(sheet.rows), target).Ok? ==>
      res == Ok(LocateOrCreate(old(sheet.rows), target).value.row)
      && sheet.rows == LocateOrCreate(old(sheet.rows), target).value.rows
    ensures LocateOrCreate(old(sheet.rows), target).Err? ==>
      res == Err(LocateOrCreate(old(sheet.rows), target).error) && sheet.rows == old(sheet.rows)
  {
    ghost var spec := LocateOrCreate(sheet.rows, target);
    var found := FindRow(sheet.rows, 1, target);
    if found.Some? {
      assert spec == Ok(Located(found.value, sheet.rows));
      return Ok(found.value);
    }
    var parsed := ParseDate(target);
    if parsed.None? {
      assert spec == Err(BadDate(target));
      return Err(BadDate(target));
    }
    var targetDate := parsed.value;
    var insertIndex := ScanInsertIndex(ColValues(sheet.rows, 1), targetDate);
    assert spec == Ok(Located(insertIndex, InsertRowAt(sheet.rows, insertIndex, DefaultRow(targetDate))));
    sheet.InsertRow(DefaultRow(targetDate), insertIndex);
    return Ok(insertIndex);
  }

  /** The loop of lines 50-59 over `col_values(1)`: the row number before
      which the new date goes. */
  method ScanInsertIndex(allDates: seq<string>, targetDate: Date) returns (insertIndex: nat)
    ensures insertIndex == InsertIndex(allDates, targetDate)
  {
    insertIndex := |allDates| + 1;
    var i := 2;
    while i <= |allDates|
      invariant 2 <= i
      invariant InsertIndexFrom(allDates, targetDate, i) == InsertIndex(allDates, targetDate)
      invariant insertIndex == |allDates| + 1
      decreases |allDates| + 1 - i
    {
      if LaterThan(allDates[i - 1], targetDate) {
        insertIndex := i;
        break;
      }
      i := i + 1;
    }
  }

  /** The date in column 1 of row index i (0-based), if it parses. */
  function DateAt(rows: seq<Row>, i: nat): Option<Date>
    requires i < |rows|
  {
    ParseDate(Cell(rows[i], 1))
  }

  /** The data rows whose keys parse are in strictly increasing date order;
      rows whose key does not parse are ignored, and so is the header. */
  predicate Ascending(rows: seq<Row>) {
    forall i, j :: 1 <= i < j < |rows| && DateAt(rows, i).Some? && DateAt(rows, j).Some? ==>
      Before(DateAt(rows, i).value, DateAt(rows, j).value)
  }

  /** The row a successful locate names carries the target key, and it is
      the first row in column 1 that does. */
  lemma LocatedRowHoldsKey(rows: seq<Row>, t: string)
    requires LocateOrCreate(rows, t).Ok?
    ensures 1 <= LocateOrCreate(rows, t).value.row <= |LocateOrCreate(rows, t).value.rows|
    ensures FindRow(LocateOrCreate(rows, t).value.rows, 1, t) == Some(LocateOrCreate(rows, t).value.row)
  {
    match FindRow(rows, 1, t)
    case Some(n) =>
    case None =>
      var d := ParseDate(t).value;
      var index := InsertIndex(ColValues(rows, 1), d);
      ParseDateCanonical(t);
      assert LocateOrCreate(rows, t) == Ok(Located(index, InsertRowAt(rows, index, DefaultRow(d))));
      InsertedRowFound(rows, index, DefaultRow(d), t);
  }

  /** A row inserted with a key no row had is the first row holding it. */
  lemma InsertedRowFound(rows: seq<Row>, index: nat, row: Row, t: string)
    requires 1 <= index <= |rows| + 1 && FindRow(rows, 1, t).None? && Cell(row, 1) == t
    ensures FindRow(InsertRowAt(rows, index, row), 1, t) == Some(index)
  {
    var grown := InsertRowAt(rows, index, row);
    assert forall i :: 0 <= i < index - 1 ==> grown[i] == rows[i];
    assert grown[index - 1] == row;
  }

  /** Locating the same key again finds the same row and changes nothing:
      calling twice creates at most one row. */
  lemma LocateIdempotent(rows: seq<Row>, t: string)
    requires LocateOrCreate(rows, t).Ok?
    ensures LocateOrCreate(LocateOrCreate(rows, t).value.rows, t) == LocateOrCreate(rows, t)
  {
    LocatedRowHoldsKey(rows, t);
  }

  /** Column 1 gains exactly one copy of the target when it was absent and
      nothing otherwise; no other key is added, lost or duplicated. */
  lemma LocateAddsOneKey(rows: seq<Row>, t: string)
    requires LocateOrCreate(rows, t).Ok?
    ensures multiset(Column(LocateOrCreate(rows, t).value.rows, 1))
      == multiset(Column(rows, 1)) + (if FindRow(rows, 1, t).None? then multiset{t} else multiset{})
  {
    if FindRow(rows, 1, t).None? {
      var d := ParseDate(t).value;
      var index := InsertIndex(ColValues(rows, 1), d);
      ParseDateCanonical(t);
      InsertedColumn(rows, index, DefaultRow(d), 1);
    }
  }

  /** Inserting a row adds its cell to the column and changes no other. */
  lemma InsertedColumn(rows: seq<Row>, index: nat, row: Row, c: nat)
    requires 1 <= index <= |rows| + 1
    ensures multiset(Column(InsertRowAt(rows, index, row), c)) == multiset(Column(rows, c)) + multiset{Cell(row, c)}
  {
    var p := index - 1;
    var before, after := rows[..p], rows[p..];
    assert InsertRowAt(rows, index, row) == before + [row] + after;
    ColumnConcat(before + [row], after, c);
    ColumnConcat(before, [row], c);
    assert Column([row], c) == [Cell(row, c)];
    assert rows == before + after;
    ColumnConcat(before, after, c);
  }

  /** Inserting the target's row keeps the date keys ascending. */
  lemma LocateKeepsAscending(rows: seq<Row>, t: string)
    requires Ascending(rows) && LocateOrCreate(rows, t).Ok?
    ensures Ascending(LocateOrCreate(rows, t).value.rows)
  {
    if FindRow(rows, 1, t).None? {
      var d := ParseDate(t).value;
      var index := InsertIndex(ColValues(rows, 1), d);
      KeysBeforeInsertPoint(rows, t, d);
      KeysAfterInsertPoint(rows, d);
      ParseDateCanonical(t);
      assert ParseDate(Cell(DefaultRow(d), 1)) == Some(d);
      InsertKeepsAscending(rows, index, DefaultRow(d), d);
    }
  }

  /** The scan stops at no row before a date earlier than the target, and
      an absent target has no equal date before it. */
  lemma KeysBeforeInsertPoint(rows: seq<Row>, t: string, d: Date)
    requires FindRow(rows, 1, t).None? && ParseDate(t) == Some(d)
    ensures forall k :: 1 <= k < InsertIndex(ColValues(rows, 1), d) - 1 && DateAt(rows, k).Some? ==>
      Before(DateAt(rows, k).value, d)
  {
    var dates := ColValues(rows, 1);
    var p := InsertIndex(dates, d) - 1;
    forall k | 1 <= k < p && DateAt(rows, k).Some?
      ensures Before(DateAt(rows, k).value, d)
    {
      assert dates[k] == Cell(rows[k], 1);
      EarlierKey(dates[k], t, d);
    }
  }

  /** A key that parses, differs from the target's text and is not later
      than the target is earlier than it. */
  lemma EarlierKey(s: string, t: string, d: Date)
    requires ParseDate(t) == Some(d) && s != t && ParseDate(s).Some? && !LaterThan(s, d)
    ensures Before(ParseDate(s).value, d)
  {
    var e := ParseDate(s).value;
    ParseDateCanonical(s);
    ParseDateCanonical(t);
    assert e != d;
  }

  /** From the insertion point on, every date is later than the target. */
  lemma KeysAfterInsertPoint(rows: seq<Row>, d: Date)
    requires Ascending(rows)
    ensures forall k :: InsertIndex(ColValues(rows, 1), d) - 1 <= k < |rows| && DateAt(rows, k).Some? ==>
      Before(d, DateAt(rows, k).value)
    ensures InsertIndex(ColValues(rows, 1), d) == 1 ==> forall k :: 0 <= k < |rows| ==> DateAt(rows, k).None?
  {
    var dates := ColValues(rows, 1);
    var p := InsertIndex(dates, d) - 1;
    forall k | p <= k < |rows| && DateAt(rows, k).Some?
      ensures Before(d, DateAt(rows, k).value)
    {
      AfterInsertPoint(rows, d, k);
    }
    forall k | 0 <= k < |rows|
      ensures p == 0 ==> DateAt(rows, k).None?
    {
      if p == 0 {
        BlankKey(rows, k);
      }
    }
  }

  /** One row from the insertion point on holds a later date, if any. */
  lemma AfterInsertPoint(rows: seq<Row>, d: Date, k: nat)
    requires Ascending(rows)
    requires InsertIndex(ColValues(rows, 1), d) - 1 <= k < |rows| && DateAt(rows, k).Some?
    ensures Before(d, DateAt(rows, k).value)
  {
    var p := InsertIndex(ColValues(rows, 1), d) - 1;
    KeyInColumn(rows, k);
    InsertPointLater(rows, d);
    if k > p {
      AscendingAt(rows, p, k);
    }
  }

  /** A row whose key parses lies within `col_values(1)`. */
  lemma KeyInColumn(rows: seq<Row>, k: nat)
    requires k < |rows| && DateAt(rows, k).Some?
    ensures k < |ColValues(rows, 1)|
  {
    assert |Cell(rows[k], 1)| == 10;
  }

  /** The row the scan stops at, when it stops inside the column, holds a
      date later than the target. */
  lemma InsertPointLater(rows: seq<Row>, d: Date)
    ensures var p := InsertIndex(ColValues(rows, 1), d) - 1;
      p < |ColValues(rows, 1)| ==> 1 <= p < |rows| && DateAt(rows, p).Some? && Before(d, DateAt(rows, p).value)
  {
    var dates := ColValues(rows, 1);
    var p := InsertIndex(dates, d) - 1;
    if p < |dates| {
      assert dates[p] == Cell(rows[p], 1);
      assert LaterThan(dates[p], d);
    }
  }

  /** One instance of the ascending order. */
  lemma AscendingAt(rows: seq<Row>, i: nat, j: nat)
    requires Ascending(rows) && 1 <= i < j < |rows| && DateAt(rows, i).Some? && DateAt(rows, j).Some?
    ensures Before(DateAt(rows, i).value, DateAt(rows, j).value)
  {
  }

  /** A row past the end of `col_values(1)` has a blank key, which is no date. */
  lemma BlankKey(rows: seq<Row>, k: nat)
    requires k < |rows| && |ColValues(rows, 1)| <= k
    ensures DateAt(rows, k).None?
  {
    assert Cell(rows[k], 1) == "";
  }

  /** A row whose date falls between its neighbours keeps the keys ascending. */
  lemma InsertKeepsAscending(rows: seq<Row>, index: nat, row: Row, d: Date)
    requires 1 <= index <= |rows| + 1 && Ascending(rows) && ParseDate(Cell(row, 1)) == Some(d)
    requires forall k :: 1 <= k < index - 1 && DateAt(rows, k).Some? ==> Before(DateAt(rows, k).value, d)
    requires forall k :: index - 1 <= k < |rows| && DateAt(rows, k).Some? ==> Before(d, DateAt(rows, k).value)
    requires index == 1 ==> forall k :: 0 <= k < |rows| ==> DateAt(rows, k).None?
    ensures Ascending(InsertRowAt(rows, index, row))
  {
    var g := InsertRowAt(rows, index, row);
    var p := index - 1;
    forall i, j | 1 <= i < j < |g| && DateAt(g, i).Some? && DateAt(g, j).Some?
      ensures Before(DateAt(g, i).value, DateAt(g, j).value)
    {
      DateAtInserted(rows, index, row, i);
      DateAtInserted(rows, index, row, j);
      if j < p || i > p {
        var i', j' := if i < p then i else i - 1, if j < p then j else j - 1;
        assert DateAt(rows, i').Some? && DateAt(rows, j').Some?;
        assert 1 <= i' < j';
      } else if i < p < j {
        assert Before(DateAt(rows, i).value, d);
      }
    }
  }

  lemma DateAtInserted(rows: seq<Row>, index: nat, row: Row, k: nat)
    requires 1 <= index <= |rows| + 1 && k <= |rows|
    ensures DateAt(InsertRowAt(rows, index, row), k)
      == if k < index - 1 then DateAt(rows, k)
         else if k == index - 1 then ParseDate(Cell(row, 1))
         else DateAt(rows, k - 1)
  {
    var g := InsertRowAt(rows, index, row);
    assert g == rows[..index - 1] + [row] + rows[index - 1..];
    if k < index - 1 {
      assert g[k] == rows[k];
    } else if k > index - 1 {
      assert g[k] == rows[k - 1];
    }
  }

  /** Locating each of a list of dates in turn, skipping those that fail. */
  function LocateAll(rows: seq<Row>, ts: seq<string>): seq<Row>
    decreases |ts|
  {
    if |ts| == 0 then rows
    else match LocateOrCreate(rows, ts[0])
      case Ok(l) => LocateAll(l.rows, ts[1..])
      case Err(_) => LocateAll(rows, ts[1..])
  }

  /** However out of order the dates come, the date keys stay ascending. */
  lemma {:induction false} LocateAllAscending(rows: seq<Row>, ts: seq<string>)
    requires Ascending(rows)
    ensures Ascending(LocateAll(rows, ts))
    decreases |ts|
  {
    if |ts| > 0 {
      match LocateOrCreate(rows, ts[0])
      case Ok(l) =>
        LocateKeepsAscending(rows, ts[0]);
        LocateAllAscending(l.rows, ts[1..]);
      case Err(_) =>
        LocateAllAscending(rows, ts[1..]);
    }
  }
}
