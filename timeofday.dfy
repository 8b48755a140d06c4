/** Wall-clock times of day, the `%H:%M:%S` text form, and the daily
    overtime rule. */
module TimeOfDay {
  import opened Wrappers
  import opened Numerals

  /** `datetime.now().time()`: the clock is read by the caller and passed in. */
  datatype Clock = Clock(hour: int, minute: int, second: int, micro: int)

  predicate ValidClock(c: Clock) {
    0 <= c.hour < 24 && 0 <= c.minute < 60 && 0 <= c.second < 60 && 0 <= c.micro < 1000000
  }

  function SecondsOfDay(c: Clock): nat
    requires ValidClock(c)
  {
    (c.hour * 60 + c.minute) * 60 + c.second
  }

  function MicrosOfDay(c: Clock): nat
    requires ValidClock(c)
  {
    SecondsOfDay(c) * 1000000 + c.micro
  }

  /** `strftime("%H:%M:%S")`: the microseconds are dropped. */
  function FormatTime(c: Clock): (s: string)
    requires ValidClock(c)
    ensures |s| == 8 && s[2] == ':' && s[5] == ':'
  {
    Padded(c.hour, 2) + ":" + Padded(c.minute, 2) + ":" + Padded(c.second, 2)
  }

  /** `datetime.strptime(s, "%H:%M:%S").time()` restricted to zero-padded
      fields, as a number of seconds since midnight; None where strptime
      raises ValueError. */
  function ParseTime(s: string): (r: Option<nat>)
    ensures r.Some? ==> r.value < 86400
  {
    if |s| == 8 && s[2] == ':' && s[5] == ':'
       && AllDigits(s[..2]) && AllDigits(s[3..5]) && AllDigits(s[6..])
    then
      var h, m, sec := ValueOf(s[..2]), ValueOf(s[3..5]), ValueOf(s[6..]);
      if h < 24 && m < 60 && sec < 60 then Some((h * 60 + m) * 60 + sec) else None
    else None
  }

  /** The text written for a clock time reads back as the same whole second. */
  lemma ParseFormatTime(c: Clock)
    requires ValidClock(c)
    ensures ParseTime(FormatTime(c)) == Some(SecondsOfDay(c))
  {
    var s := FormatTime(c);
    assert s[..2] == Padded(c.hour, 2);
    assert s[3..5] == Padded(c.minute, 2);
    assert s[6..] == Padded(c.second, 2);
    PaddedValue(c.hour, 2);
    PaddedValue(c.minute, 2);
    PaddedValue(c.second, 2);
  }

  /** A text that parses is the canonical `%H:%M:%S` text of its time, so
      no hour past 23 and no unpadded field is accepted. */
  lemma ParseTimeCanonical(s: string)
    requires ParseTime(s).Some?
    ensures var v := ParseTime(s).value;
      ValidClock(Clock(v / 3600, v / 60 % 60, v % 60, 0))
      && s == FormatTime(Clock(v / 3600, v / 60 % 60, v % 60, 0))
  {
    var h, m, sec := ValueOf(s[..2]), ValueOf(s[3..5]), ValueOf(s[6..]);
    TimeText(s);
    SplitSeconds(h, m, sec);
    var v := ParseTime(s).value;
    assert Clock(v / 3600, v / 60 % 60, v % 60, 0) == Clock(h, m, sec, 0);
  }

  /** A text that parses is the formatted clock of its three fields. */
  lemma TimeText(s: string)
    requires ParseTime(s).Some?
    ensures s == FormatTime(Clock(ValueOf(s[..2]), ValueOf(s[3..5]), ValueOf(s[6..]), 0))
  {
    assert s == s[..2] + ":" + s[3..5] + ":" + s[6..];
    JoinFields(s[..2], s[3..5], s[6..]);
  }

  /** Three two-digit fields in range are what FormatTime writes for them. */
  lemma JoinFields(a: string, b: string, c: string)
    requires |a| == 2 && |b| == 2 && |c| == 2
    requires AllDigits(a) && AllDigits(b) && AllDigits(c)
    requires ValueOf(a) < 24 && ValueOf(b) < 60 && ValueOf(c) < 60
    ensures FormatTime(Clock(ValueOf(a), ValueOf(b), ValueOf(c), 0)) == a + ":" + b + ":" + c
  {
    PaddedOfValue(a);
    PaddedOfValue(b);
    PaddedOfValue(c);
  }

  /** Hours, minutes and seconds are recovered from the second of the day. */
  lemma SplitSeconds(h: nat, m: nat, sec: nat)
    requires h < 24 && m < 60 && sec < 60
    ensures var v := (h * 60 + m) * 60 + sec;
      v / 3600 == h && v / 60 % 60 == m && v % 60 == sec
  {
    var v := (h * 60 + m) * 60 + sec;
    assert v == 3600 * h + (60 * m + sec) && 0 <= 60 * m + sec < 3600;
    assert v == 60 * (h * 60 + m) + sec;
    assert v / 60 == h * 60 + m;
  }

  /** The standard off time every new row starts with. */
  const StandardOffTime: string := "18:00:00"

  /** `max(0, (actual - standard).total_seconds() / 3600)`: the actual time
      keeps its microseconds, the standard one is whole seconds. */
  function OvertimeHours(now: Clock, standard: nat): real
    requires ValidClock(now)
  {
    var delta := MicrosOfDay(now) - standard * 1000000;
    if delta > 0 then delta as real / 3600000000.0 else 0.0
  }

  /** Overtime is never negative; past the standard time it is the elapsed
      time in hours, and leaving early or on time gives zero. */
  lemma OvertimeMeaning(now: Clock, standard: nat)
    requires ValidClock(now)
    ensures OvertimeHours(now, standard) >= 0.0
    ensures MicrosOfDay(now) >= standard * 1000000 ==>
      OvertimeHours(now, standard) * 3600000000.0 == (MicrosOfDay(now) - standard * 1000000) as real
    ensures MicrosOfDay(now) <= standard * 1000000 ==> OvertimeHours(now, standard) == 0.0
  {
  }

  /** Leaving at 19:30:00 against the standard 18:00:00 is 1.5 hours of overtime. */
  lemma OvertimeExample()
    ensures ParseTime(StandardOffTime) == Some(64800)
    ensures OvertimeHours(Clock(19, 30, 0, 0), 64800) == 1.5
  {
    assert StandardOffTime[..2] == "18" && StandardOffTime[3..5] == "00" && StandardOffTime[6..] == "00";
    assert "18"[..1] == "1" && "00"[..1] == "0";
    assert AllDigits("18") && AllDigits("00");
    assert DigitValue('1') == 1 && DigitValue('8') == 8 && DigitValue('0') == 0;
    assert ValueOf("18") == 18 && ValueOf("00") == 0;
  }
}
