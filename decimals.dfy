/** The numbers kept in the overtime columns: `f"{x:.2f}"` on the way in,
    `float(v)` and the `isdigit` filter on the way out, and the column sums. */
module Decimals {
  import opened Wrappers
  import opened Numerals

  /** Round to the nearest integer, ties to the even neighbour. */
  function RoundHalfEven(x: real): (n: int)
    ensures (n as real - x) <= 0.5 && (x - n as real) <= 0.5
  {
    var f := x.Floor;
    var frac := x - f as real;
    if frac > 0.5 then f + 1
    else if frac < 0.5 then f
    else if f % 2 == 0 then f else f + 1
  }

  function Abs(x: real): real { if x < 0.0 then -x else x }

  /** Hundredths in the magnitude of x after rounding to two places. */
  function Cents(x: real): nat {
    var c := RoundHalfEven(Abs(x) * 100.0);
    if c < 0 then 0 else c
  }

  /** `f"{x:.2f}"`: sign, integer part, point, two decimals. */
  function Format2(x: real): (s: string)
    ensures |s| >= 4
  {
    var c := Cents(x);
    (if x < 0.0 then "-" else "") + (Numeral(c / 100) + "." + Padded(c % 100, 2))
  }

  /** The text `:.2f` writes: a minus sign exactly for a negative value,
      then at least one digit of integer part, a point and exactly two
      decimals. */
  lemma Format2Shape(x: real)
    ensures var s := Format2(x);
      (s[0] == '-') == (x < 0.0)
      && s[|s| - 3] == '.' && IsDigit(s[|s| - 2]) && IsDigit(s[|s| - 1])
      && AllDigits(s[(if x < 0.0 then 1 else 0)..|s| - 3])
  {
    var c := Cents(x);
    var a, b := Numeral(c / 100), Padded(c % 100, 2);
    var sign := if x < 0.0 then "-" else "";
    var s := sign + (a + "." + b);
    assert Format2(x) == s;
    AllDigitsAt(a);
    AllDigitsAt(b);
    assert s[|s| - 3] == '.' && s[|s| - 2] == b[0] && s[|s| - 1] == b[1];
    assert s[|sign|..|s| - 3] == a;
    assert x >= 0.0 ==> s[0] == a[0];
  }

  /** The value a two-decimal string stands for. */
  function Rounded2(x: real): real {
    if x < 0.0 then -(Cents(x) as real / 100.0) else Cents(x) as real / 100.0
  }

  /** Position of the first '.' in s, or |s| when there is none. */
  function FirstDot(s: string): (k: nat)
    ensures k <= |s|
    ensures forall i :: 0 <= i < k ==> s[i] != '.'
    ensures k < |s| ==> s[k] == '.'
  {
    if |s| == 0 then 0 else if s[0] == '.' then 0 else 1 + FirstDot(s[1..])
  }

  /** The value of the digits after a decimal point. */
  function Fraction(s: string): (f: real)
    ensures 0.0 <= f <= 1.0
  {
    if |s| == 0 then 0.0 else (DigitValue(s[0]) as real + Fraction(s[1..])) / 10.0
  }

  lemma TwoPlaces(n: nat)
    requires n < 100
    ensures Fraction(Padded(n, 2)) == n as real / 100.0
  {
    var s := Padded(n, 2);
    assert s[0] == DigitChar(n / 10 % 10) && s[1] == DigitChar(n % 10);
    assert s[1..] == [s[1]] && s[1..][1..] == "";
    assert Fraction(s[1..]) == DigitValue(s[1]) as real / 10.0;
  }

  /** Digits with at most one point and at least one digit, no sign. */
  function ParseUnsigned(s: string): (r: Option<real>)
    ensures r.Some? ==> r.value >= 0.0
  {
    var k := FirstDot(s);
    if k == |s| then Number(s, "") else Number(s[..k], s[k + 1..])
  }

  /** The number with integer digits ip and fraction digits fp. */
  function Number(ip: string, fp: string): (r: Option<real>)
    ensures r.Some? ==> r.value >= 0.0
  {
    if AllDigits(ip) && AllDigits(fp) && |ip| + |fp| >= 1 then
      Some(ValueOf(ip) as real + Fraction(fp))
    else None
  }

  /** `float(v)` on plain decimal notation with an optional sign; None where
      float raises ValueError. */
  function ParseFloat(s: string): Option<real> {
    if |s| > 0 && s[0] == '-' then
      match ParseUnsigned(s[1..])
      case Some(v) => Some(-v)
      case None => None
    else if |s| > 0 && s[0] == '+' then ParseUnsigned(s[1..])
    else ParseUnsigned(s)
  }

  lemma {:induction false} FirstDotNumeral(a: string, b: string)
    requires AllDigits(a)
    ensures FirstDot(a + "." + b) == |a|
  {
    if |a| > 0 {
      assert (a + "." + b)[1..] == a[1..] + "." + b;
      AllDigitsAt(a);
      AllDigitsSlice(a, 1, |a|);
      FirstDotNumeral(a[1..], b);
    }
  }

  lemma UnsignedTwoPlaces(c: nat)
    ensures IsDigit((Numeral(c / 100) + "." + Padded(c % 100, 2))[0])
    ensures ParseUnsigned(Numeral(c / 100) + "." + Padded(c % 100, 2)) == Some(c as real / 100.0)
  {
    var a, b := Numeral(c / 100), Padded(c % 100, 2);
    var s := a + "." + b;
    AllDigitsAt(a);
    assert IsDigit(s[0]);
    FirstDotNumeral(a, b);
    assert s[..|a|] == a;
    assert s[|a| + 1..] == b;
    NumeralValue(c / 100);
    TwoPlaces(c % 100);
    assert (c / 100) as real + (c % 100) as real / 100.0 == c as real / 100.0;
  }

  /** A value written with `:.2f` reads back as its rounding to hundredths,
      which is within half a hundredth of it. */
  lemma ParseFormat2(x: real)
    ensures ParseFloat(Format2(x)) == Some(Rounded2(x))
    ensures Abs(Rounded2(x) - x) <= 0.005
  {
    CentsClose(x);
    var c := Cents(x);
    var body := Numeral(c / 100) + "." + Padded(c % 100, 2);
    UnsignedTwoPlaces(c);
    SignedParse(body);
    var v := c as real / 100.0;
    assert ParseUnsigned(body) == Some(v);
    if x < 0.0 {
      assert Format2(x) == "-" + body;
      assert ParseFloat("-" + body) == Some(-v);
      assert Rounded2(x) == -v;
    } else {
      assert Format2(x) == body;
      assert ParseFloat(body) == Some(v);
      assert Rounded2(x) == v;
    }
  }

  lemma SignedParse(body: string)
    requires |body| > 0 && IsDigit(body[0]) && ParseUnsigned(body).Some?
    ensures ParseFloat(body) == ParseUnsigned(body)
    ensures ParseFloat("-" + body) == Some(-ParseUnsigned(body).value)
  {
    assert ("-" + body)[1..] == body;
  }

  lemma CentsClose(x: real)
    ensures Abs(Rounded2(x) - x) <= 0.005
  {
    var y := Abs(x) * 100.0;
    var n := RoundHalfEven(y);
    assert n >= 0 by {
      assert y >= 0.0;
    }
    assert Cents(x) == n;
    var r := n as real / 100.0;
    assert r * 100.0 == n as real;
    assert -0.5 <= n as real - y <= 0.5;
    assert -0.005 <= r - Abs(x) <= 0.005;
  }

  /** `v.replace('.', '', 1)`. */
  function RemoveFirstDot(s: string): string {
    var k := FirstDot(s);
    if k < |s| then s[..k] + s[k + 1..] else s
  }

  /** The filter of the daily suggestion: `v and v.replace('.', '', 1).isdigit()`,
      with `isdigit` on ASCII digits only. */
  predicate LooksDecimal(s: string) {
    var t := RemoveFirstDot(s);
    |s| > 0 && |t| > 0 && AllDigits(t)
  }

  /** Whatever passes the filter on ASCII digits is a number float
      accepts, and not a negative one. */
  lemma LooksDecimalParses(s: string)
    requires LooksDecimal(s)
    ensures ParseFloat(s).Some? && ParseFloat(s).value >= 0.0
  {
    var k := FirstDot(s);
    var t := RemoveFirstDot(s);
    AllDigitsAt(t);
    assert IsDigit(t[0]);
    if k < |s| {
      assert t[..k] == s[..k] && t[k..] == s[k + 1..];
      AllDigitsSlice(t, 0, k);
      AllDigitsSlice(t, k, |t|);
    } else {
      assert s[..k] == s;
    }
    assert s[0] != '-' && s[0] != '+';
  }

  /** The contribution of one cell: blank cells and cells float rejects
      count as zero. */
  function CellValue(s: string): real {
    if s == "" then 0.0
    else match ParseFloat(s)
    case Some(v) => v
    case None => 0.0
  }

  /** Sum of CellValue over the cells. */
  function Total(cells: seq<string>): real {
    if |cells| == 0 then 0.0 else CellValue(cells[0]) + Total(cells[1..])
  }

  /** A cell float accepts stands for the value float gives it. */
  lemma ParsedCellValue(v: string, x: real)
    requires ParseFloat(v) == Some(x)
    ensures CellValue(v) == x
  {
  }

  /** The first non-blank cell float rejects, if any. */
  function FirstRejected(cells: seq<string>): Option<string> {
    if |cells| == 0 then None
    else if cells[0] != "" && ParseFloat(cells[0]).None? then Some(cells[0])
    else FirstRejected(cells[1..])
  }

  /** `sum(float(v) for v in cells if v)`: blank cells are skipped and the
      first cell float rejects raises, which is the error here. */
  function SumFloats(cells: seq<string>): Result<real> {
    match FirstRejected(cells)
    case Some(bad) => Err(BadNumber(bad))
    case None => Ok(Total(cells))
  }

  /** `sum(float(v) for v in cells if v and v.replace('.', '', 1).isdigit())`. */
  function SumDecimals(cells: seq<string>): real {
    if |cells| == 0 then 0.0
    else (if LooksDecimal(cells[0]) then CellValue(cells[0]) else 0.0) + SumDecimals(cells[1..])
  }

  /** A cell the filter rejects contributes nothing and the sum goes on:
      blanking it leaves the sum as it was. */
  lemma {:induction false} SumDecimalsSkips(cells: seq<string>, k: nat)
    requires k < |cells| && !LooksDecimal(cells[k])
    ensures SumDecimals(cells[k := ""]) == SumDecimals(cells)
  {
    assert !LooksDecimal("");
    if k > 0 {
      assert cells[k := ""][1..] == cells[1..][k - 1 := ""];
      SumDecimalsSkips(cells[1..], k - 1);
    } else {
      assert cells[k := ""][1..] == cells[1..];
    }
  }

  /** The suggestion's filter accepts a value the clock-out wrote exactly
      when the value is not negative: the minus sign is what it rejects. */
  lemma Format2LooksDecimal(x: real)
    ensures LooksDecimal(Format2(x)) <==> x >= 0.0
  {
    var c := Cents(x);
    var a, b := Numeral(c / 100), Padded(c % 100, 2);
    if x >= 0.0 {
      assert Format2(x) == a + "." + b;
      DigitsPointDigits(a, b);
    } else {
      assert Format2(x) == "-" + (a + "." + b);
      SignNotDecimal(a + "." + b);
    }
  }

  /** Digits, a point and digits pass the filter. */
  lemma DigitsPointDigits(a: string, b: string)
    requires AllDigits(a) && AllDigits(b) && |a| >= 1
    ensures LooksDecimal(a + "." + b)
  {
    var s := a + "." + b;
    FirstDotNumeral(a, b);
    assert s[..|a|] == a && s[|a| + 1..] == b;
    assert RemoveFirstDot(s) == a + b;
    AllDigitsAt(a);
    AllDigitsAt(b);
    AllDigitsAt(a + b);
  }

  /** A leading minus sign fails the filter. */
  lemma SignNotDecimal(body: string)
    ensures !LooksDecimal("-" + body)
  {
    var s := "-" + body;
    var t := RemoveFirstDot(s);
    assert FirstDot(s) > 0;
    assert t[0] == '-';
    AllDigitsAt(t);
  }

  /** The filtered sum never goes negative. */
  lemma {:induction false} SumDecimalsNonNegative(cells: seq<string>)
    ensures SumDecimals(cells) >= 0.0
  {
    if |cells| > 0 {
      if LooksDecimal(cells[0]) {
        LooksDecimalParses(cells[0]);
      }
      SumDecimalsNonNegative(cells[1..]);
    }
  }

  /** On a column holding only blanks and plain decimals the clock-out sum
      and the suggestion sum agree. */
  lemma {:induction false} SumsAgree(cells: seq<string>)
    requires forall i :: 0 <= i < |cells| ==> cells[i] == "" || LooksDecimal(cells[i])
    ensures SumFloats(cells) == Ok(SumDecimals(cells))
  {
    if |cells| > 0 {
      SumsAgree(cells[1..]);
      var c := cells[0];
      if c != "" {
        LooksDecimalParses(c);
      } else {
        assert !LooksDecimal(c);
      }
    }
  }

  /** Writing a number into one cell changes the total by exactly the
      difference between the new and the old value. */
  lemma {:induction false} TotalAfterWrite(cells: seq<string>, k: nat, v: string)
    requires k < |cells|
    ensures Total(cells[k := v]) == Total(cells) - CellValue(cells[k]) + CellValue(v)
  {
    if k > 0 {
      assert cells[k := v][1..] == cells[1..][k - 1 := v];
      TotalAfterWrite(cells[1..], k - 1, v);
    } else {
      assert cells[k := v][1..] == cells[1..];
    }
  }

  /** Writing a number into one cell of a summable column keeps it summable. */
  lemma {:induction false} AcceptedAfterWrite(cells: seq<string>, k: nat, v: string)
    requires k < |cells| && FirstRejected(cells).None? && ParseFloat(v).Some?
    ensures FirstRejected(cells[k := v]).None?
  {
    if k > 0 {
      assert cells[k := v][1..] == cells[1..][k - 1 := v];
      AcceptedAfterWrite(cells[1..], k - 1, v);
    } else {
      assert cells[k := v][1..] == cells[1..];
    }
  }

  /** Blank cells add nothing and are never rejected. */
  lemma {:induction false} BlankCells(b: seq<string>)
    requires forall i :: 0 <= i < |b| ==> b[i] == ""
    ensures Total(b) == 0.0 && FirstRejected(b).None?
  {
    if |b| > 0 {
      BlankCells(b[1..]);
    }
  }

  /** Trailing blank cells change neither the sum nor its error. */
  lemma {:induction false} BlankTail(t: seq<string>, b: seq<string>)
    requires forall i :: 0 <= i < |b| ==> b[i] == ""
    ensures Total(t + b) == Total(t) && FirstRejected(t + b) == FirstRejected(t)
  {
    if |t| == 0 {
      assert t + b == b;
      BlankCells(b);
    } else {
      assert (t + b)[1..] == t[1..] + b;
      BlankTail(t[1..], b);
    }
  }
}
