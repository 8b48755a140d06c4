/** The worksheet as an in-memory table: row 1 is the header, column 1 holds
    the date keys, and row and column numbers start at 1 as in gspread. */
module Sheets {
  import opened Wrappers

  type Row = seq<string>

  /** The two workday tokens of column 3. */
  const Yes: string := "是"
  const No: string := "否"

  /** `worksheet.cell(r, c).value`, with an empty or missing cell read as "". */
  function Cell(row: Row, c: nat): string {
    if 1 <= c <= |row| then row[c - 1] else ""
  }

  /** Column c of every row, blanks included. */
  function Column(rows: seq<Row>, c: nat): (col: seq<string>)
    ensures |col| == |rows|
    ensures forall i :: 0 <= i < |rows| ==> col[i] == Cell(rows[i], c)
  {
    seq(|rows|, i requires 0 <= i < |rows| => Cell(rows[i], c))
  }

  lemma ColumnConcat(a: seq<Row>, b: seq<Row>, c: nat)
    ensures Column(a + b, c) == Column(a, c) + Column(b, c)
  {
    assert forall i :: 0 <= i < |a + b| ==> Column(a + b, c)[i] == (Column(a, c) + Column(b, c))[i];
  }

  /** Drop trailing blank cells, as the Sheets API does for a column read. */
  function TrimBlank(s: seq<string>): (t: seq<string>)
    ensures |t| <= |s| && t == s[..|t|]
    ensures forall i :: |t| <= i < |s| ==> s[i] == ""
    ensures |t| > 0 ==> t[|t| - 1] != ""
  {
    if |s| == 0 then []
    else if s[|s| - 1] == "" then TrimBlank(s[..|s| - 1])
    else s
  }

  /** `worksheet.col_values(c)`: index 0 is the header cell. */
  function ColValues(rows: seq<Row>, c: nat): (col: seq<string>)
    ensures |col| <= |rows|
    ensures forall i :: 0 <= i < |col| ==> col[i] == Cell(rows[i], c)
    ensures forall i :: |col| <= i < |rows| ==> Cell(rows[i], c) == ""
  {
    TrimBlank(Column(rows, c))
  }

  /** `col_values(c)[1:]`: the data cells of column c. */
  function DataCells(rows: seq<Row>, c: nat): seq<string> {
    var col := ColValues(rows, c);
    if |col| == 0 then [] else col[1..]
  }

  /** `worksheet.find(key, in_column=c)`: the number of the first row whose
      cell in column c is exactly key. */
  function FindRow(rows: seq<Row>, c: nat, key: string): (r: Option<nat>)
    ensures r.Some? ==> 1 <= r.value <= |rows| && Cell(rows[r.value - 1], c) == key
    ensures r.Some? ==> forall i :: 0 <= i < r.value - 1 ==> Cell(rows[i], c) != key
    ensures r.None? ==> forall i :: 0 <= i < |rows| ==> Cell(rows[i], c) != key
  {
    FindFrom(rows, c, key, 0)
  }

  function FindFrom(rows: seq<Row>, c: nat, key: string, i: nat): (r: Option<nat>)
    requires i <= |rows|
    requires forall k :: 0 <= k < i ==> Cell(rows[k], c) != key
    ensures r.Some? ==> i < r.value <= |rows| && Cell(rows[r.value - 1], c) == key
    ensures r.Some? ==> forall k :: 0 <= k < r.value - 1 ==> Cell(rows[k], c) != key
    ensures r.None? ==> forall k :: 0 <= k < |rows| ==> Cell(rows[k], c) != key
    decreases |rows| - i
  {
    if i == |rows| then None
    else if Cell(rows[i], c) == key then Some(i + 1)
    else FindFrom(rows, c, key, i + 1)
  }

  /** The row extended with blank cells up to column c. */
  function PadTo(row: Row, c: nat): (p: Row)
    ensures |p| >= c && |p| >= |row|
    ensures forall k :: 1 <= k ==> Cell(p, k) == Cell(row, k)
  {
    if |row| >= c then row else row + seq(c - |row|, _ => "")
  }

  /** The table after `update_cell(r, c, v)`. */
  function SetCell(rows: seq<Row>, r: nat, c: nat, v: string): (t: seq<Row>)
    requires 1 <= r <= |rows| && 1 <= c
    ensures |t| == |rows|
    ensures forall i, k :: 0 <= i < |rows| && 1 <= k ==>
      Cell(t[i], k) == if i == r - 1 && k == c then v else Cell(rows[i], k)
  {
    rows[r - 1 := PadTo(rows[r - 1], c)[c - 1 := v]]
  }

  /** A write to one cell changes column c at that row and no other column. */
  lemma ColumnAfterSet(rows: seq<Row>, r: nat, c: nat, v: string, k: nat)
    requires 1 <= r <= |rows| && 1 <= c && 1 <= k
    ensures Column(SetCell(rows, r, c, v), k) == if k == c then Column(rows, k)[r - 1 := v] else Column(rows, k)
  {
  }

  /** `find` only looks at the column it searches. */
  lemma FindRowByColumn(a: seq<Row>, b: seq<Row>, c: nat, key: string)
    requires Column(a, c) == Column(b, c)
    ensures FindRow(a, c, key) == FindRow(b, c, key)
  {
    assert |a| == |b|;
    assert forall i :: 0 <= i < |a| ==> Cell(a[i], c) == Cell(b[i], c) by {
      forall i | 0 <= i < |a|
        ensures Cell(a[i], c) == Cell(b[i], c)
      {
        assert Column(a, c)[i] == Column(b, c)[i];
      }
    }
  }

  /** Writing the same value into the same cell twice is one write. */
  lemma SetCellTwice(rows: seq<Row>, r: nat, c: nat, v: string)
    requires 1 <= r <= |rows| && 1 <= c
    ensures SetCell(SetCell(rows, r, c, v), r, c, v) == SetCell(rows, r, c, v)
  {
    var once := SetCell(rows, r, c, v);
    assert |once[r - 1]| >= c;
    assert PadTo(once[r - 1], c) == once[r - 1];
    assert once[r - 1][c - 1] == v;
    assert once[r - 1][c - 1 := v] == once[r - 1];
    assert once[r - 1 := once[r - 1]] == once;
  }

  /** The table after `insert_row(row, index)`: rows from index on move down. */
  function InsertRowAt(rows: seq<Row>, index: nat, row: Row): (t: seq<Row>)
    requires 1 <= index <= |rows| + 1
    ensures |t| == |rows| + 1 && t[index - 1] == row
    ensures t[..index - 1] + t[index..] == rows
  {
    rows[..index - 1] + [row] + rows[index - 1..]
  }

  /** What a tool returns, with the table as the tool leaves it. */
  datatype Run<T> = Run(outcome: Result<T>, rows: seq<Row>)

  /** The remote worksheet. Only the calls the engine makes are modelled;
      each one changes the table in place. */
  class Sheet {
    var rows: seq<Row>

    constructor (initial: seq<Row>)
      ensures rows == initial
    {
      rows := initial;
    }

    /** `worksheet.insert_row(row, index=index)`. */
    method InsertRow(row: Row, index: nat)
      requires 1 <= index <= |rows| + 1
      modifies this
      ensures rows == InsertRowAt(old(rows), index, row)
    {
      rows := InsertRowAt(rows, index, row);
    }

    /** `worksheet.update_cell(r, c, v)`. */
    method UpdateCell(r: nat, c: nat, v: string)
      requires 1 <= r <= |rows| && 1 <= c
      modifies this
      ensures rows == SetCell(old(rows), r, c, v)
    {
      rows := SetCell(rows, r, c, v);
    }

    /** `worksheet.append_rows(newRows)`. */
    method AppendRows(newRows: seq<Row>)
      modifies this
      ensures rows == old(rows) + newRows
    {
      rows := rows + newRows;
    }
  }
}
