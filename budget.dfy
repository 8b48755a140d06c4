/** The 29-hour monthly overtime budget and the off-time advice both tools
    derive from it. */
module Budget {

  /** The monthly overtime budget, in hours. */
  const Budget: real := 29.0

  /** The standard off time, 18:00, in seconds since midnight. */
  const StandardSeconds: real := 64800.0

  /** A suggested off time; the hour is not wrapped at midnight. */
  datatype OffTime = OffTime(hour: int, minute: int)

  /** `h = int(secs // 3600)` and `m = int((secs % 3600) // 60)` with
      `secs = 18 * 3600 + avg * 3600` and `avg = remaining / days`, all on
      non-negative floats, where `//` floors and `%` leaves the part below
      the last whole hour. */
  function SuggestedOffTime(remaining: real, days: nat): (t: OffTime)
    requires remaining > 0.0 && days > 0
    ensures t.hour >= 18 && 0 <= t.minute < 60
  {
    var avg := remaining / days as real;
    var secs := StandardSeconds + avg * 3600.0;
    var h := (secs / 3600.0).Floor;
    var m := ((secs - 3600.0 * h as real) / 60.0).Floor;
    OffTime(h, m)
  }

  /** The suggestion is 18:00 plus the average remaining overtime per day,
      truncated to the whole minute. */
  lemma SuggestedOffTimeMeaning(remaining: real, days: nat)
    requires remaining > 0.0 && days > 0
    ensures var t := SuggestedOffTime(remaining, days);
      t.hour * 60 + t.minute == (1080.0 + 60.0 * (remaining / days as real)).Floor
  {
    var avg := remaining / days as real;
    var secs := StandardSeconds + avg * 3600.0;
    var h := (secs / 3600.0).Floor;
    var f := secs / 3600.0 - h as real;
    assert 0.0 <= f < 1.0;
    assert (secs - 3600.0 * h as real) / 60.0 == 60.0 * f;
    var m := (60.0 * f).Floor;
    assert m as real <= 60.0 * f < m as real + 1.0;
    assert secs / 3600.0 == 18.0 + avg;
    var x := 1080.0 + 60.0 * avg;
    assert x == 60.0 * h as real + 60.0 * f;
    assert (h * 60 + m) as real <= x < (h * 60 + m) as real + 1.0;
  }

  /** Leaving at the suggested time on each remaining day uses up the budget
      to within a minute a day: the planned minutes do not exceed the
      remaining minutes, and one more minute a day would. */
  lemma SuggestionStaysWithinBudget(remaining: real, days: nat)
    requires remaining > 0.0 && days > 0
    ensures var t := SuggestedOffTime(remaining, days);
      var perDay := t.hour * 60 + t.minute - 1080;
      (days * perDay) as real <= 60.0 * remaining < (days * (perDay + 1)) as real
  {
    SuggestedOffTimeMeaning(remaining, days);
    var t := SuggestedOffTime(remaining, days);
    var perDay := t.hour * 60 + t.minute - 1080;
    var n := days as real;
    var avg := remaining / n;
    assert 60.0 * remaining == n * (60.0 * avg);
    ScaleBounds(n, perDay as real, 60.0 * avg, 60.0 * remaining);
    assert (days * perDay) as real == n * perDay as real;
    assert (days * (perDay + 1)) as real == n * perDay as real + n;
  }

  /** Multiplying q <= v < q + 1 by a positive n. */
  lemma ScaleBounds(n: real, q: real, v: real, r: real)
    requires n > 0.0 && q <= v < q + 1.0 && r == n * v
    ensures n * q <= r < n * q + n
  {
    calc {
      r;
    ==
      n * v;
    <  { MulStrict(n, v, q + 1.0); }
      n * (q + 1.0);
    ==
      n * q + n;
    }
    if q < v {
      MulStrict(n, q, v);
    }
  }

  lemma MulStrict(n: real, a: real, b: real)
    requires n > 0.0 && a < b
    ensures n * a < n * b
  {
  }

  lemma MulCancel(n: real, a: real, b: real)
    requires n > 0.0 && n * a < n * b
    ensures a < b
  {
  }

  /** With 28 hours used and one day to plan, the suggestion is 19:00. */
  lemma SuggestionExample()
    ensures SuggestedOffTime(Budget - 28.0, 1) == OffTime(19, 0)
  {
    SuggestedOffTimeMeaning(1.0, 1);
  }

  /** The hour is not reduced modulo 24: with the whole budget left and one
      day to plan, the suggestion is 47:00. */
  lemma SuggestionPastMidnight()
    ensures SuggestedOffTime(Budget, 1) == OffTime(47, 0)
  {
    SuggestedOffTimeMeaning(Budget, 1);
  }

  /** The advice appended to a clock-out report. */
  datatype Advice =
    | OverBudget(total: real)
    | Pace(days: nat, average: real, at: OffTime)
    | BudgetUsed
    | NoWorkdaysLeft

  /** The branches of the clock-out advice, in the order the tool tests
      them: over budget; workdays left and budget left; workdays left and
      no budget left; no workdays left. */
  function ClockOutAdvice(total: real, futureWorkdays: nat): (a: Advice)
    ensures a.OverBudget? <==> total >= Budget
    ensures a.Pace? <==> total < Budget && futureWorkdays > 0
    ensures a.Pace? ==> a.days == futureWorkdays && a.average * a.days as real == Budget - total
    ensures a.Pace? ==> a.at == SuggestedOffTime(Budget - total, futureWorkdays)
    ensures a.NoWorkdaysLeft? <==> total < Budget && futureWorkdays == 0
    ensures !a.BudgetUsed?
  {
    var remaining := Budget - total;
    if total >= Budget then OverBudget(total)
    else if futureWorkdays > 0 && remaining > 0.0 then
      Pace(futureWorkdays, remaining / futureWorkdays as real, SuggestedOffTime(remaining, futureWorkdays))
    else if futureWorkdays > 0 && remaining <= 0.0 then BudgetUsed
    else NoWorkdaysLeft
  }

  /** The outcome of the daily suggestion once the sheet has been read. */
  datatype DailyAdvice =
    | Full
    | SuggestAt(at: OffTime)
    | OnTime

  /** The daily advice spreads the remaining budget over the future
      workdays plus today. */
  function DailyPace(total: real, futureWorkdays: nat): (a: DailyAdvice)
    ensures a.Full? <==> total >= Budget
    ensures a.SuggestAt? <==> total < Budget
    ensures a.SuggestAt? ==> a.at == SuggestedOffTime(Budget - total, futureWorkdays + 1)
    ensures !a.OnTime?
  {
    var remaining := Budget - total;
    var days := futureWorkdays + 1;
    if total >= Budget then Full
    else if days > 0 && remaining > 0.0 then SuggestAt(SuggestedOffTime(remaining, days))
    else OnTime
  }

  /** Both tools agree on when the budget is exhausted, and while it is not
      the daily suggestion is never later than the pace the clock-out
      report gives for the same count of future workdays: it spreads the
      same remainder over one more day, today. */
  lemma AdviceAgree(total: real, futureWorkdays: nat)
    requires futureWorkdays > 0
    ensures ClockOutAdvice(total, futureWorkdays).OverBudget? <==> DailyPace(total, futureWorkdays).Full?
    ensures total < Budget ==>
      var p := ClockOutAdvice(total, futureWorkdays).at;
      var s := DailyPace(total, futureWorkdays).at;
      s.hour * 60 + s.minute <= p.hour * 60 + p.minute
  {
    if total < Budget {
      var r := Budget - total;
      SuggestedOffTimeMeaning(r, futureWorkdays);
      SuggestedOffTimeMeaning(r, futureWorkdays + 1);
      var a, b := futureWorkdays as real, (futureWorkdays + 1) as real;
      assert r / b <= r / a by {
        var x, y := r / a, r / b;
        calc {
          b * y;
        ==
          r;
        ==
          x * a;
        <  { MulStrict(x, a, b); }
          x * b;
        ==
          b * x;
        }
        MulCancel(b, y, x);
      }
      assert 1080.0 + 60.0 * (r / b) <= 1080.0 + 60.0 * (r / a);
    }
  }
}
