/** The proleptic Gregorian calendar as Python's `datetime.date` and
    `calendar.monthrange` see it, and the `%Y-%m-%d` text form of a date. */
module Calendar {
  import opened Wrappers
  import opened Numerals

  datatype Date = Date(year: int, month: int, day: int)

  predicate IsLeap(y: int) {
    y % 4 == 0 && (y % 100 != 0 || y % 400 == 0)
  }

  /** Second component of `calendar.monthrange(y, m)`. */
  function DaysInMonth(y: int, m: int): (n: int)
    requires 1 <= m <= 12
    ensures 28 <= n <= 31
    ensures m == 2 ==> (n == 29 <==> IsLeap(y))
    ensures m != 2 ==> (n == 30 <==> m in {4, 6, 9, 11})
  {
    if m == 2 then (if IsLeap(y) then 29 else 28)
    else if m == 4 || m == 6 || m == 9 || m == 11 then 30
    else 31
  }

  /** A date `datetime.date` accepts: years 1 to 9999 and a day that exists. */
  predicate Valid(d: Date) {
    1 <= d.year <= 9999 && 1 <= d.month <= 12 && 1 <= d.day <= DaysInMonth(d.year, d.month)
  }

  /** Strict chronological order, as `<` on `datetime.date`. */
  predicate Before(a: Date, b: Date) {
    a.year < b.year
    || (a.year == b.year && a.month < b.month)
    || (a.year == b.year && a.month == b.month && a.day < b.day)
  }

  function DaysBeforeYear(y: int): int
    requires y >= 1
  {
    var p := y - 1;
    p * 365 + p / 4 - p / 100 + p / 400
  }

  function DaysBeforeMonth(y: int, m: int): int
    requires 1 <= m <= 12
  {
    var table := [0, 31, 59, 90, 120, 151, 181, 212, 243, 273, 304, 334];
    table[m - 1] + (if m > 2 && IsLeap(y) then 1 else 0)
  }

  /** `date.toordinal()`: 0001-01-01 is day 1. */
  function Ordinal(d: Date): int
    requires Valid(d)
  {
    DaysBeforeYear(d.year) + DaysBeforeMonth(d.year, d.month) + d.day
  }

  /** `date.weekday()`: Monday is 0, Sunday is 6. */
  function Weekday(d: Date): (w: int)
    requires Valid(d)
    ensures 0 <= w < 7
  {
    WeekdayOfOrdinal(Ordinal(d))
  }

  function WeekdayOfOrdinal(n: int): int {
    (n + 6) % 7
  }

  /** The calendar day after d. */
  function NextDay(d: Date): Date
    requires Valid(d)
  {
    if d.day < DaysInMonth(d.year, d.month) then Date(d.year, d.month, d.day + 1)
    else if d.month < 12 then Date(d.year, d.month + 1, 1)
    else Date(d.year + 1, 1, 1)
  }

  lemma YearLength(y: int)
    requires y >= 1
    ensures DaysBeforeYear(y + 1) == DaysBeforeYear(y) + (if IsLeap(y) then 366 else 365)
  {
    var p := y - 1;
    StepBy4(y);
    StepBy100(y);
    StepBy400(y);
    assert DaysBeforeYear(y + 1) == y * 365 + y / 4 - y / 100 + y / 400;
    assert DaysBeforeYear(y) == p * 365 + p / 4 - p / 100 + p / 400;
  }

  /** Counting multiples of 4, 100 and 400 up to y: one more than up to
      y - 1 exactly when the divisor divides y. */
  lemma StepBy4(y: int)
    ensures y / 4 == (y - 1) / 4 + (if y % 4 == 0 then 1 else 0)
  {
  }

  lemma StepBy100(y: int)
    ensures y / 100 == (y - 1) / 100 + (if y % 100 == 0 then 1 else 0)
  {
  }

  lemma StepBy400(y: int)
    ensures y / 400 == (y - 1) / 400 + (if y % 400 == 0 then 1 else 0)
  {
  }

  /** The ordinal numbering has no gaps: the next day is one day later. */
  lemma NextDayOrdinal(d: Date)
    requires Valid(d) && d.year < 9999
    ensures Valid(NextDay(d)) && Ordinal(NextDay(d)) == Ordinal(d) + 1
  {
    if d.day == DaysInMonth(d.year, d.month) && d.month == 12 {
      YearLength(d.year);
    }
  }

  /** Weekdays advance by one per day from Monday 0001-01-01, which pins
      `Weekday` down completely. */
  lemma WeekdayAdvances(d: Date)
    requires Valid(d) && d.year < 9999
    ensures Weekday(Date(1, 1, 1)) == 0
    ensures Valid(NextDay(d)) && Weekday(NextDay(d)) == (Weekday(d) + 1) % 7
  {
    WeekdayEpoch();
    NextDayOrdinal(d);
    var o := Ordinal(d);
    assert Ordinal(NextDay(d)) == o + 1;
    ModSeven(o + 6);
  }

  lemma WeekdayEpoch()
    ensures Weekday(Date(1, 1, 1)) == 0
  {
  }

  lemma ModSeven(x: int)
    ensures WeekdayOfOrdinal(x - 5) == (WeekdayOfOrdinal(x - 6) + 1) % 7
  {
  }

  /** `strftime("%Y-%m-%d")` for four-digit years. */
  function FormatDate(d: Date): (s: string)
    requires Valid(d)
    ensures |s| == 10 && s[4] == '-' && s[7] == '-'
  {
    Padded(d.year, 4) + "-" + Padded(d.month, 2) + "-" + Padded(d.day, 2)
  }

  /** `datetime.strptime(s, "%Y-%m-%d").date()` restricted to zero-padded
      fields: None where strptime raises ValueError. Only the text of a
      valid date parses, and a text that parses has ten characters. */
  function ParseDate(s: string): (r: Option<Date>)
    ensures r.Some? ==> Valid(r.value) && |s| == 10
  {
    if |s| == 10 && s[4] == '-' && s[7] == '-'
       && AllDigits(s[..4]) && AllDigits(s[5..7]) && AllDigits(s[8..])
    then
      var d := Date(ValueOf(s[..4]), ValueOf(s[5..7]), ValueOf(s[8..]));
      if Valid(d) then Some(d) else None
    else None
  }

  /** A text that parses is the canonical text of its date. */
  lemma ParseDateCanonical(s: string)
    requires ParseDate(s).Some?
    ensures FormatDate(ParseDate(s).value) == s
  {
    PaddedOfValue(s[..4]);
    PaddedOfValue(s[5..7]);
    PaddedOfValue(s[8..]);
    assert s == s[..4] + "-" + s[5..7] + "-" + s[8..];
  }

  /** Formatting then parsing gives the date back. */
  lemma ParseFormatDate(d: Date)
    requires Valid(d)
    ensures ParseDate(FormatDate(d)) == Some(d)
  {
    var s := FormatDate(d);
    assert s[..4] == Padded(d.year, 4);
    assert s[5..7] == Padded(d.month, 2);
    assert s[8..] == Padded(d.day, 2);
    PaddedValue(d.year, 4);
    PaddedValue(d.month, 2);
    PaddedValue(d.day, 2);
  }

  /** Two strings that parse to the same date are the same string. */
  lemma ParseDateInjective(s: string, t: string)
    requires ParseDate(s).Some? && ParseDate(s) == ParseDate(t)
    ensures s == t
  {
    ParseDateCanonical(s);
    ParseDateCanonical(t);
  }

  const WeekdayNames: seq<string> := ["星期一", "星期二", "星期三", "星期四", "星期五", "星期六", "星期日"]

  function WeekdayName(d: Date): string
    requires Valid(d)
  {
    WeekdayNames[Weekday(d)]
  }

  /** Monday to Friday are workdays by default (`weekday() < 5`). */
  predicate DefaultWorkday(d: Date)
    requires Valid(d)
  {
    Weekday(d) < 5
  }
}
