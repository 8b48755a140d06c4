/** Counting the planned workdays that are still ahead: the rows after
    today's first row in column 1 whose column-3 flag is "是". */
module Workdays {
  import opened Wrappers
  import opened Sheets

  /** `dates.index(key)` when `key in dates`: the first position holding key. */
  function IndexOf(dates: seq<string>, key: string): (r: Option<nat>)
    ensures r.Some? ==> r.value < |dates| && dates[r.value] == key
    ensures r.Some? ==> forall i :: 0 <= i < r.value ==> dates[i] != key
    ensures r.None? <==> key !in dates
  {
    if |dates| == 0 then None
    else if dates[0] == key then Some(0)
    else match IndexOf(dates[1..], key)
      case Some(k) => Some(k + 1)
      case None => None
  }

  /** The flag at position i counts: it exists (the flag column may be shorter
      than the date column) and it is "是". */
  predicate IsYesAt(flags: seq<string>, i: int) {
    0 <= i < |flags| && flags[i] == Yes
  }

  /** The number of positions i with a <= i < b that hold a "是" flag. */
  function CountRange(flags: seq<string>, a: nat, b: nat): nat
    decreases b
  {
    if b <= a then 0
    else CountRange(flags, a, b - 1) + (if IsYesAt(flags, b - 1) then 1 else 0)
  }

  /** The workdays after today: zero when today is not in the date column,
      otherwise the "是" flags strictly after today's first position. */
  function FutureWorkdays(dates: seq<string>, flags: seq<string>, today: string): nat {
    match IndexOf(dates, today)
    case None => 0
    case Some(k) => CountRange(flags, k + 1, |dates|)
  }

  /** The counting loop of the clock-out and suggestion tools. */
  method CountFutureWorkdays(dates: seq<string>, flags: seq<string>, today: string) returns (n: nat)
    ensures n == FutureWorkdays(dates, flags, today)
  {
    n := 0;
    var todayIndex := IndexOf(dates, today);
    if todayIndex.Some? {
      var i := todayIndex.value + 1;
      while i < |dates|
        invariant todayIndex.value + 1 <= i <= |dates|
        invariant n == CountRange(flags, todayIndex.value + 1, i)
      {
        if i < |flags| && flags[i] == Yes {
          n := n + 1;
        }
        i := i + 1;
      }
    }
  }

  /** The count is the number of "是" entries among the flags in [a, b). */
  lemma {:induction false} CountRangeOccurrences(flags: seq<string>, a: nat, b: nat)
    requires a <= b
    ensures CountRange(flags, a, b) == multiset(flags[Min(a, |flags|)..Min(b, |flags|)])[Yes]
    decreases b
  {
    if b > a {
      CountRangeOccurrences(flags, a, b - 1);
      var lo, hi := Min(a, |flags|), Min(b - 1, |flags|);
      if b - 1 < |flags| {
        assert flags[lo..hi + 1] == flags[lo..hi] + [flags[b - 1]];
      } else {
        assert Min(b, |flags|) == hi;
      }
    } else {
      assert flags[Min(a, |flags|)..Min(b, |flags|)] == [];
    }
  }

  function Min(x: nat, y: nat): nat { if x <= y then x else y }

  /** At most one workday per later row of the date column. */
  lemma {:induction false} CountRangeBound(flags: seq<string>, a: nat, b: nat)
    ensures CountRange(flags, a, b) <= if b <= a then 0 else b - a
    decreases b
  {
    if b > a {
      CountRangeBound(flags, a, b - 1);
    }
  }

  /** Only the flags after today's position matter: flags of today and of
      earlier rows, and flags past the end of the date column, change nothing. */
  lemma {:induction false} CountRangeLocal(flags: seq<string>, other: seq<string>, a: nat, b: nat)
    requires forall i :: a <= i < b ==> (IsYesAt(flags, i) <==> IsYesAt(other, i))
    ensures CountRange(flags, a, b) == CountRange(other, a, b)
    decreases b
  {
    if b > a {
      CountRangeLocal(flags, other, a, b - 1);
    }
  }

  /** The future-workday count is bounded by the rows after today, and only
      the flags of those rows decide it. */
  lemma FutureWorkdaysAfterToday(dates: seq<string>, flags: seq<string>, other: seq<string>, today: string, k: nat)
    requires IndexOf(dates, today) == Some(k)
    requires forall i :: k < i < |dates| ==> (IsYesAt(flags, i) <==> IsYesAt(other, i))
    ensures FutureWorkdays(dates, flags, today) <= |dates| - k - 1
    ensures FutureWorkdays(dates, flags, today) == FutureWorkdays(dates, other, today)
  {
    CountRangeBound(flags, k + 1, |dates|);
    CountRangeLocal(flags, other, k + 1, |dates|);
  }

  /** For a non-blank key, its first position in `col_values(1)` is the row
      `find` returns, counted from 0. */
  lemma IndexOfFindRow(rows: seq<Row>, key: string)
    requires key != ""
    ensures IndexOf(ColValues(rows, 1), key) == match FindRow(rows, 1, key)
      case Some(n) => Some(n - 1)
      case None => None
  {
    var col := ColValues(rows, 1);
    match FindRow(rows, 1, key)
    case Some(n) =>
      var m := n - 1;
      assert m < |col|;
      assert col[m] == key;
      var j := IndexOf(col, key).value;
      assert col[j] == Cell(rows[j], 1);
      assert j == m;
    case None =>
      assert key !in col;
  }
}
