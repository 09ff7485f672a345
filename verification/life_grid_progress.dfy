/** The page's own progress figures: `calculateProgress` (the totals line) and
    `getProgressStats` (the numbers behind the progress text and bar). Both
    take the time lived as a parameter; future activities claim part of what
    remains. */
module LifeGridProgress {
  import opened Wrappers
  import opened Numeric
  import opened Lists
  import opened Activities
  import opened ActivityList
  import opened LifeGridInputs

  /** Units of the view per year: years 1, months 12, weeks 52, anything else 365. */
  function UnitsPerYear(timeUnit: string): (m: int)
    ensures m in {1, 12, 52, 365}
    ensures timeUnit == "years" <==> m == 1
    ensures timeUnit == "months" <==> m == 12
    ensures timeUnit == "weeks" <==> m == 52
  {
    if timeUnit == "years" then 1
    else if timeUnit == "months" then 12
    else if timeUnit == "weeks" then 52
    else 365
  }

  /** Days an activity's rate is given per: day 1, week 7, month 30, anything else 365. */
  function RateDivisor(unit: string): (d: real)
    ensures d in {1.0, 7.0, 30.0, 365.0}
    ensures unit == "day" <==> d == 1.0
    ensures unit == "week" <==> d == 7.0
    ensures unit == "month" <==> d == 30.0
    ensures unit !in {"day", "week", "month"} <==> d == 365.0
  {
    if unit == "day" then 1.0
    else if unit == "week" then 7.0
    else if unit == "month" then 30.0
    else 365.0
  }

  /** For the four units the activity form offers, the fallback rate is the
      rate the form's own conversion stores. */
  lemma DivisorMatchesHoursPerDay(hours: real, unit: string)
    requires unit in {"day", "week", "month", "year"}
    ensures hours / RateDivisor(unit) == HoursPerDay(hours, unit)
  {
  }

  /** `activity.hoursPerDay || activity.hours / divisor`: the stored rate,
      unless it is missing or zero. */
  function CommittedRate(a: Activity): (h: real)
    ensures a.hoursPerDay.Some? && a.hoursPerDay.value != 0.0 ==> h == a.hoursPerDay.value
    ensures a.hoursPerDay.None? || a.hoursPerDay.value == 0.0 ==> h * RateDivisor(a.timeUnit) == a.hours
  {
    match a.hoursPerDay
    case Some(h) => if h != 0.0 then h else a.hours / RateDivisor(a.timeUnit)
    case None => a.hours / RateDivisor(a.timeUnit)
  }

  /** What one future activity claims: its share of a day, in years,
      converted to the view's unit. */
  function Claim(a: Activity, timeUnit: string): real {
    var yearsNeeded := (CommittedRate(a) * 365.0) / (24.0 * 365.0);
    yearsNeeded * UnitsPerYear(timeUnit) as real
  }

  /** The `reduce` of `calculateProgress`: the claims of the future activities. */
  function FutureCommitted(acts: seq<Activity>, timeUnit: string): (fc: real)
    ensures (forall k :: 0 <= k < |acts| ==> !acts[k].future) ==> fc == 0.0
    decreases |acts|
  {
    if |acts| == 0 then 0.0
    else
      var rest := FutureCommitted(acts[1..], timeUnit);
      if acts[0].future then rest + Claim(acts[0], timeUnit) else rest
  }

  /** One activity commits its claim when it is future and nothing otherwise. */
  lemma FutureCommittedSingle(a: Activity, timeUnit: string)
    ensures FutureCommitted([a], timeUnit) == (if a.future then Claim(a, timeUnit) else 0.0)
  {
    assert [a][1..] == [];
  }

  /** The committed time of two lists run together is the sum of theirs:
      the `reduce` adds the claims one by one. */
  lemma {:induction false} FutureCommittedConcat(a: seq<Activity>, b: seq<Activity>, timeUnit: string)
    ensures FutureCommitted(a + b, timeUnit) == FutureCommitted(a, timeUnit) + FutureCommitted(b, timeUnit)
    decreases |a|
  {
    if |a| > 0 {
      assert (a + b)[0] == a[0];
      assert (a + b)[1..] == a[1..] + b;
      FutureCommittedConcat(a[1..], b, timeUnit);
    } else {
      assert a + b == b;
    }
  }

  /** Only future activities count, whatever else is in the list. */
  lemma {:induction false} FutureCommittedOnlyFuture(acts: seq<Activity>, timeUnit: string)
    ensures FutureCommitted(acts, timeUnit) == FutureCommitted(SideActivities(acts, false), timeUnit)
    decreases |acts|
  {
    if |acts| > 0 {
      var side := SideActivities(acts, false);
      var tail := SideActivities(acts[1..], false);
      var rest := FutureCommitted(acts[1..], timeUnit);
      assert rest == FutureCommitted(tail, timeUnit) by {
        FutureCommittedOnlyFuture(acts[1..], timeUnit);
      }
      SideStep(acts, false);
      if acts[0].future {
        assert side == [acts[0]] + tail;
        assert side[0] == acts[0] && side[1..] == tail;
        assert FutureCommitted(side, timeUnit) == FutureCommitted(tail, timeUnit) + Claim(acts[0], timeUnit);
      } else {
        assert side == tail;
      }
    }
  }

  /** With non-negative rates the committed time is never negative. */
  lemma {:induction false} FutureCommittedNonNegative(acts: seq<Activity>, timeUnit: string)
    requires forall k :: 0 <= k < |acts| ==> CommittedRate(acts[k]) >= 0.0
    ensures FutureCommitted(acts, timeUnit) >= 0.0
    decreases |acts|
  {
    if |acts| > 0 {
      FutureCommittedNonNegative(acts[1..], timeUnit);
    }
  }

  datatype PageProgress = PageProgress(lived: real, remaining: real, total: int, percentage: real)

  /** `calculateProgress` of the page, for `lived` units of the view already
      lived: the lifespan in units, what remains after the future
      commitments (never negative), and the lived percentage. */
  function CalculatePageProgress(lived: real, lifespan: int, acts: seq<Activity>, timeUnit: string): (r: PageProgress)
    requires lifespan >= 1
    ensures r.total >= lifespan && r.total == lifespan * UnitsPerYear(timeUnit)
    ensures r.lived == lived
    ensures r.remaining >= 0.0
    ensures r.remaining > 0.0 ==> r.lived + r.remaining + FutureCommitted(acts, timeUnit) == r.total as real
    ensures r.remaining == 0.0 ==> r.lived + FutureCommitted(acts, timeUnit) >= r.total as real
    ensures r.percentage * r.total as real == lived * 100.0
  {
    var total := lifespan * UnitsPerYear(timeUnit);
    var remaining := Max(0.0, total as real - lived - FutureCommitted(acts, timeUnit));
    PageProgress(lived, remaining, total, (lived / total as real) * 100.0)
  }

  /** With every activity cleared, nothing is committed: what remains is the
      rest of the lifespan. */
  lemma ClearedPageProgress(lived: real, lifespan: int, acts: seq<Activity>, timeUnit: string)
    requires lifespan >= 1
    ensures var r := CalculatePageProgress(lived, lifespan, Clear(acts), timeUnit);
      r.remaining == Max(0.0, r.total as real - lived)
  {
    assert FutureCommitted(Clear(acts), timeUnit) == 0.0;
  }

  // ---------------------------------------------------------------------
  // getProgressStats

  datatype Stats = Stats(
    percentageLived: real,
    percentageRemaining: real,
    percentageFuture: real,
    lived: real,
    remaining: real,
    futureCommitted: real,
    total: real)

  /** `activity.hours / divisor`: `getProgressStats` ignores the stored rate. */
  function StatsRate(a: Activity): (h: real)
    ensures h * RateDivisor(a.timeUnit) == a.hours
  {
    a.hours / RateDivisor(a.timeUnit)
  }

  /** Sum of the future activities' rates, in hours per day. */
  function FutureRate(acts: seq<Activity>): real
    decreases |acts|
  {
    if |acts| == 0 then 0.0
    else (if acts[0].future then StatsRate(acts[0]) else 0.0) + FutureRate(acts[1..])
  }

  /** The `forEach` of `getProgressStats`: each future activity claims its
      days per year for the years that remain. */
  function FutureCommittedDays(acts: seq<Activity>, totalDays: real, daysLived: real): real
    decreases |acts|
  {
    if |acts| == 0 then 0.0
    else
      var rest := FutureCommittedDays(acts[1..], totalDays, daysLived);
      if acts[0].future then
        var daysPerYear := (StatsRate(acts[0]) * 365.0) / 24.0;
        var yearsRemaining := (totalDays - daysLived) / 365.0;
        rest + daysPerYear * yearsRemaining
      else rest
  }

  /** The committed days are the remaining days times the future share of a day. */
  lemma {:induction false} FutureCommittedDaysShare(acts: seq<Activity>, totalDays: real, daysLived: real)
    ensures FutureCommittedDays(acts, totalDays, daysLived) == (totalDays - daysLived) * FutureRate(acts) / 24.0
    decreases |acts|
  {
    if |acts| > 0 {
      FutureCommittedDaysShare(acts[1..], totalDays, daysLived);
      var rem := totalDays - daysLived;
      var h := StatsRate(acts[0]);
      assert (h * 365.0) / 24.0 * (rem / 365.0) == rem * h / 24.0;
      var t := FutureRate(acts[1..]);
      if acts[0].future {
        assert rem * (h + t) / 24.0 == rem * h / 24.0 + rem * t / 24.0;
      } else {
        assert FutureRate(acts) == t;
      }
    }
  }

  /** Days in the view's unit: years `/365`, months `/365*12`, anything else `/7`. */
  function ToUnit(days: real, timeUnit: string): (u: real)
    ensures timeUnit == "years" ==> u * 365.0 == days
    ensures timeUnit == "months" ==> u * 365.0 == days * 12.0
    ensures timeUnit !in {"years", "months"} ==> u * 7.0 == days
  {
    if timeUnit == "years" then days / 365.0
    else if timeUnit == "months" then (days / 365.0) * 12.0
    else days / 7.0
  }

  /** Converting a sum is summing the conversions. */
  lemma ToUnitAdds(a: real, b: real, c: real, timeUnit: string)
    ensures ToUnit(a, timeUnit) + ToUnit(b, timeUnit) + ToUnit(c, timeUnit) == ToUnit(a + b + c, timeUnit)
  {
  }

  lemma ToUnitNonNegative(days: real, timeUnit: string)
    requires days >= 0.0
    ensures ToUnit(days, timeUnit) >= 0.0
  {
  }

  lemma PercentOf(a: real, t: real)
    requires t > 0.0
    ensures (a / t) * 100.0 * t == a * 100.0
  {
  }

  /** `getProgressStats` for `daysLived` whole days lived. */
  function GetProgressStats(daysLived: int, lifespan: int, acts: seq<Activity>, timeUnit: string): (s: Stats)
    requires lifespan >= 1
    ensures s.remaining >= 0.0
    ensures s.lived == ToUnit(daysLived as real, timeUnit)
    ensures s.percentageLived * (lifespan * 365) as real == daysLived as real * 100.0
  {
    var totalDays := (lifespan * 365) as real;
    var daysRemaining := totalDays - daysLived as real;
    var futureCommittedDays := FutureCommittedDays(acts, totalDays, daysLived as real);
    var adjusted := Max(0.0, daysRemaining - futureCommittedDays);
    ToUnitNonNegative(adjusted, timeUnit);
    PercentOf(daysLived as real, totalDays);
    Assemble(daysLived as real, adjusted, futureCommittedDays, totalDays, timeUnit)
  }

  /** The returned record: each part in the view's unit and as a percentage
      of the lifespan in days, and the sum of the parts as the total. */
  function Assemble(livedDays: real, remainingDays: real, futureDays: real, totalDays: real, timeUnit: string): (s: Stats)
    requires totalDays > 0.0
    ensures s.total == s.lived + s.remaining + s.futureCommitted
  {
    var lived := ToUnit(livedDays, timeUnit);
    var remaining := ToUnit(remainingDays, timeUnit);
    var future := ToUnit(futureDays, timeUnit);
    Stats(
      (livedDays / totalDays) * 100.0,
      (remainingDays / totalDays) * 100.0,
      (futureDays / totalDays) * 100.0,
      lived, remaining, future,
      lived + remaining + future)
  }

  /** Parts that make up the whole give the whole back, and 100 per cent. */
  lemma AssembleAddsUp(livedDays: real, remainingDays: real, futureDays: real, totalDays: real, timeUnit: string)
    requires totalDays > 0.0 && livedDays + remainingDays + futureDays == totalDays
    ensures var s := Assemble(livedDays, remainingDays, futureDays, totalDays, timeUnit);
      s.total == ToUnit(totalDays, timeUnit)
      && s.percentageLived + s.percentageRemaining + s.percentageFuture == 100.0
  {
    ToUnitAdds(livedDays, remainingDays, futureDays, timeUnit);
    PercentagesAddUp(livedDays, remainingDays, futureDays, totalDays);
  }

  /** A share of at most a whole day of the remaining days is at most those days. */
  lemma ShareBound(rem: real, h: real)
    requires rem >= 0.0 && 0.0 <= h <= 24.0
    ensures rem * h / 24.0 <= rem
  {
    MulMonotone(h / 24.0, 1.0, rem);
    assert rem * h / 24.0 == (h / 24.0) * rem;
  }

  /** Three parts of a positive whole, as percentages of it, add up to 100. */
  lemma PercentagesAddUp(a: real, b: real, c: real, t: real)
    requires t > 0.0 && a + b + c == t
    ensures (a / t) * 100.0 + (b / t) * 100.0 + (c / t) * 100.0 == 100.0
  {
    DivAdd(a, b, t);
    DivAdd(a + b, c, t);
  }

  /** When the days lived fall within the lifespan and the future activities
      claim at most the whole day, the three parts make up the lifespan
      exactly and the three percentages add up to 100. */
  lemma StatsAddUp(daysLived: int, lifespan: int, acts: seq<Activity>, timeUnit: string)
    requires lifespan >= 1
    requires 0 <= daysLived <= lifespan * 365
    requires 0.0 <= FutureRate(acts) <= 24.0
    ensures var s := GetProgressStats(daysLived, lifespan, acts, timeUnit);
      s.total == ToUnit((lifespan * 365) as real, timeUnit)
      && s.percentageLived + s.percentageRemaining + s.percentageFuture == 100.0
  {
    var totalDays := (lifespan * 365) as real;
    var lived := daysLived as real;
    var rem := totalDays - lived;
    var fc := FutureCommittedDays(acts, totalDays, lived);
    CommittedWithinRemaining(acts, totalDays, lived);
    assert Max(0.0, rem - fc) == rem - fc;
    AssembleAddsUp(lived, rem - fc, fc, totalDays, timeUnit);
  }

  /** Future activities claiming at most the whole day claim at most the
      remaining days. */
  lemma CommittedWithinRemaining(acts: seq<Activity>, totalDays: real, lived: real)
    requires lived <= totalDays && 0.0 <= FutureRate(acts) <= 24.0
    ensures FutureCommittedDays(acts, totalDays, lived) <= totalDays - lived
  {
    var rem := totalDays - lived;
    var h := FutureRate(acts);
    var fcd := FutureCommittedDays(acts, totalDays, lived);
    assert fcd == rem * h / 24.0 by {
      FutureCommittedDaysShare(acts, totalDays, lived);
    }
    assert rem * h / 24.0 <= rem by {
      ShareBound(rem, h);
    }
  }

  /** The committed part of the statistics is the remaining days' share
      claimed by the future activities, in the view's unit. */
  lemma StatsFutureShare(daysLived: int, lifespan: int, acts: seq<Activity>, timeUnit: string)
    requires lifespan >= 1
    ensures var s := GetProgressStats(daysLived, lifespan, acts, timeUnit);
      s.futureCommitted
      == ToUnit(((lifespan * 365) as real - daysLived as real) * FutureRate(acts) / 24.0, timeUnit)
  {
    FutureCommittedDaysShare(acts, (lifespan * 365) as real, daysLived as real);
  }

  /** Only future activities count in the statistics. */
  lemma {:induction false} FutureRateOnlyFuture(acts: seq<Activity>)
    ensures FutureRate(acts) == FutureRate(SideActivities(acts, false))
    decreases |acts|
  {
    if |acts| > 0 {
      var side := SideActivities(acts, false);
      var tail := SideActivities(acts[1..], false);
      assert FutureRate(acts[1..]) == FutureRate(tail) by {
        FutureRateOnlyFuture(acts[1..]);
      }
      SideStep(acts, false);
      if acts[0].future {
        assert side == [acts[0]] + tail;
        assert side[0] == acts[0] && side[1..] == tail;
        assert FutureRate(side) == StatsRate(acts[0]) + FutureRate(tail);
      } else {
        assert side == tail;
      }
    }
  }
}
