/** The calculations hook of the life grid: lived/remaining/total unit counts
    from a number of lived days, each activity's share of the past and future
    sides, the run-length walk that colours one cell, and the hook's own row
    layout. The clock reading of the source is replaced by the parameter
    `livedDays` (whole days since birth). */
module LifeGridCalculations {
  import opened Wrappers
  import opened Numeric
  import opened Activities

  /** Colour of a past cell no activity covers. */
  const LivedColor := "#3B82F6"
  /** Colour of a future cell no activity covers. */
  const UnlivedColor := "#E5E7EB"

  function SideDefault(isLived: bool): string {
    if isLived then LivedColor else UnlivedColor
  }

  // ---------------------------------------------------------------------
  // Base progress: lived days and the lifespan, stretched by "extra days"

  /** JavaScript `+` on two sums that may be NaN (`None`): NaN absorbs. */
  function AddHours(a: Option<real>, b: Option<real>): (r: Option<real>)
    ensures r.Some? <==> a.Some? && b.Some?
    ensures r.Some? ==> r.value == a.value + b.value
  {
    match (a, b)
    case (Some(x), Some(y)) => Some(x + y)
    case _ => None
  }

  /** Sum of `hoursPerDay` over the future activities. `None` stands for NaN:
      one of them has no `hoursPerDay`, and `undefined` poisons the sum. */
  function FutureHoursPerDay(acts: seq<Activity>): (r: Option<real>)
    ensures r.None? <==> exists k :: 0 <= k < |acts| && acts[k].future && acts[k].hoursPerDay.None?
    ensures (forall k :: 0 <= k < |acts| ==> !acts[k].future) ==> r == Some(0.0)
    ensures |acts| == 1 ==> r == (if acts[0].future then acts[0].hoursPerDay else Some(0.0))
    decreases |acts|
  {
    if |acts| == 0 then Some(0.0)
    else
      var rest := FutureHoursPerDay(acts[1..]);
      assert forall k :: 1 <= k < |acts| ==> acts[k] == acts[1..][k - 1];
      if !acts[0].future then rest
      else AddHours(acts[0].hoursPerDay, rest)
  }

  /** The sum is taken entry by entry: the sum over a concatenation is the
      sum of the two parts' sums. Together with the one-entry case of the
      contract this fixes the value of every sum. */
  lemma {:induction false} FutureHoursPerDayConcat(a: seq<Activity>, b: seq<Activity>)
    ensures FutureHoursPerDay(a + b) == AddHours(FutureHoursPerDay(a), FutureHoursPerDay(b))
    decreases |a|
  {
    if |a| == 0 {
      assert a + b == b;
      var fb := FutureHoursPerDay(b);
      assert AddHours(Some(0.0), fb) == fb by {
        if fb.Some? {
          assert 0.0 + fb.value == fb.value;
        }
      }
    } else {
      assert (a + b)[1..] == a[1..] + b;
      assert (a + b)[0] == a[0];
      FutureHoursPerDayConcat(a[1..], b);
    }
  }

  /** Days added to the lifespan when future activities claim more than 24
      hours a day; zero otherwise (also when the sum is NaN, since a
      comparison with NaN is false). */
  function ExtraDays(totalDays: int, lived: int, futureHours: Option<real>): (e: int)
    ensures e != 0 ==> futureHours.Some? && futureHours.value > 24.0
    ensures futureHours.Some? && futureHours.value > 24.0 ==>
              var x := (totalDays - lived) as real * (futureHours.value / 24.0 - 1.0);
              x <= e as real < x + 1.0
    ensures e > 0 ==> lived < totalDays
  {
    match futureHours
    case Some(h) =>
      if h > 24.0 then
        var factor := h / 24.0 - 1.0;
        var x := (totalDays - lived) as real * factor;
        var e := Ceil(x);
        assert e > 0 ==> lived < totalDays by {
          if e > 0 && lived >= totalDays {
            MulMonotone((totalDays - lived) as real, 0.0, factor);
          }
        }
        e
      else 0
    case None => 0
  }

  datatype BaseProgress = BaseProgress(lived: int, totalDays: int, hasExtraDays: bool)

  /** `calculateBaseProgress`, with the lived days as an input. */
  function CalculateBaseProgress(livedDays: int, lifespan: int, acts: seq<Activity>): (b: BaseProgress)
    ensures b.lived == livedDays
    ensures b.hasExtraDays <==> b.totalDays > lifespan * 365
    ensures b.totalDays != lifespan * 365 ==>
              FutureHoursPerDay(acts).Some? && FutureHoursPerDay(acts).value > 24.0
    ensures b.hasExtraDays ==> livedDays < lifespan * 365
    ensures var fh := FutureHoursPerDay(acts);
            fh.Some? && fh.value > 24.0 ==>
              var x := (lifespan * 365 - livedDays) as real * (fh.value / 24.0 - 1.0);
              x <= (b.totalDays - lifespan * 365) as real < x + 1.0
  {
    var totalDays := lifespan * 365;
    var extra := ExtraDays(totalDays, livedDays, FutureHoursPerDay(acts));
    BaseProgress(livedDays, totalDays + extra, extra > 0)
  }

  /** Future activities claiming 48 hours a day double the rest of a life:
      one year not yet begun stretches to two. */
  lemma DoubleClaimDoublesLife(a: Activity)
    requires a.future && a.hoursPerDay == Some(48.0)
    ensures CalculateBaseProgress(0, 1, [a]) == BaseProgress(0, 730, true)
  {
    var b := CalculateBaseProgress(0, 1, [a]);
    assert FutureHoursPerDay([a]) == Some(48.0);
    assert 365.0 <= (b.totalDays - 365) as real < 366.0;
  }

  // ---------------------------------------------------------------------
  // Unit counts and the progress percentage

  datatype Counts = Counts(lived: int, remaining: int, total: int)

  /** The hook's `switch (timeUnit)`: hours and days are exact; weeks, months
      (a flat 30 days) and every other unit (years, 365 days) floor the lived
      part and ceil the remaining and total parts. */
  function UnitCounts(lived: int, totalDays: int, timeUnit: string): (c: Counts)
    ensures timeUnit == "hours" ==>
              c.lived == 24 * lived && c.total == 24 * totalDays && c.lived + c.remaining == c.total
    ensures timeUnit == "days" ==>
              c.lived == lived && c.total == totalDays && c.lived + c.remaining == c.total
    ensures timeUnit == "weeks" ==>
              7 * c.lived <= lived < 7 * c.lived + 7 && 7 * c.total - 7 < totalDays <= 7 * c.total
              && 7 * c.remaining - 7 < totalDays - lived <= 7 * c.remaining
    ensures timeUnit == "months" ==>
              30 * c.lived <= lived < 30 * c.lived + 30 && 30 * c.total - 30 < totalDays <= 30 * c.total
              && 30 * c.remaining - 30 < totalDays - lived <= 30 * c.remaining
    ensures timeUnit !in {"hours", "days", "weeks", "months"} ==>
              365 * c.lived <= lived < 365 * c.lived + 365 && 365 * c.total - 365 < totalDays <= 365 * c.total
              && 365 * c.remaining - 365 < totalDays - lived <= 365 * c.remaining
    ensures c.lived + c.remaining == c.total || c.lived + c.remaining == c.total - 1
  {
    match timeUnit
    case "hours" => Counts(lived * 24, (totalDays - lived) * 24, totalDays * 24)
    case "days" => Counts(lived, totalDays - lived, totalDays)
    case "weeks" => Rounded(lived, totalDays, 7)
    case "months" => Rounded(lived, totalDays, 30)
    case _ => Rounded(lived, totalDays, 365)
  }

  /** Floor of the lived part, ceil of the remaining and total parts, in units of `d` days. */
  function Rounded(lived: int, totalDays: int, d: int): (c: Counts)
    requires d >= 1
    ensures d * c.lived <= lived < d * c.lived + d
    ensures d * c.total - d < totalDays <= d * c.total
    ensures d * c.remaining - d < totalDays - lived <= d * c.remaining
    ensures c.lived + c.remaining == c.total || c.lived + c.remaining == c.total - 1
  {
    var dr := d as real;
    var a, b := lived as real / dr, (totalDays - lived) as real / dr;
    RoundedSum(lived, totalDays, d);
    FloorBounds(lived, d);
    CeilDivBounds(totalDays, d);
    CeilDivBounds(totalDays - lived, d);
    Counts(Floor(a), Ceil(b), Ceil(totalDays as real / dr))
  }

  lemma RoundedSum(lived: int, totalDays: int, d: int)
    requires d >= 1
    ensures var dr := d as real;
            var f, c, t := Floor(lived as real / dr), Ceil((totalDays - lived) as real / dr), Ceil(totalDays as real / dr);
            f + c == t || f + c == t - 1
  {
    var dr := d as real;
    DivAdd(lived as real, (totalDays - lived) as real, dr);
    FloorPlusCeil(lived as real / dr, (totalDays - lived) as real / dr);
  }

  lemma FloorBounds(n: int, d: int)
    requires d >= 1
    ensures d * Floor(n as real / d as real) <= n < d * Floor(n as real / d as real) + d
  {
    var q := n as real / d as real;
    var f := Floor(q);
    var dr := d as real;
    assert q * dr == n as real;
    MulMonotone(f as real, q, dr);
    MulStrict(q, f as real + 1.0, dr);
    assert (d * f) as real == f as real * dr;
    calc {
      n as real;
      ==
      q * dr;
      <
      (f as real + 1.0) * dr;
      ==
      (d * f + d) as real;
    }
  }

  datatype Progress = Progress(lived: int, remaining: int, total: int, progress: int)

  /** `calculateProgress`: unit counts of the stretched lifespan and the lived
      percentage, rounded and capped at 100. The percentage is taken of the
      original lifespan unless there are extra days. */
  function CalculateProgress(livedDays: int, lifespan: int, acts: seq<Activity>, timeUnit: string): (p: Progress)
    requires lifespan >= 1
    ensures var b := CalculateBaseProgress(livedDays, lifespan, acts);
            var c := UnitCounts(livedDays, b.totalDays, timeUnit);
            p.lived == c.lived && p.remaining == c.remaining && p.total == c.total
    ensures p.progress <= 100
    ensures var b := CalculateBaseProgress(livedDays, lifespan, acts);
            var denominator := if b.hasExtraDays then b.totalDays else lifespan * 365;
            var exact := livedDays as real / denominator as real * 100.0;
            denominator > 0
            && (p.progress < 100 ==> exact - 0.5 < p.progress as real <= exact + 0.5)
            && (p.progress == 100 ==> exact >= 99.5)
  {
    var b := CalculateBaseProgress(livedDays, lifespan, acts);
    var c := UnitCounts(b.lived, b.totalDays, timeUnit);
    var denominator := if b.hasExtraDays then b.totalDays else lifespan * 365;
    Progress(c.lived, c.remaining, c.total, MinInt(100, Round(b.lived as real / denominator as real * 100.0)))
  }

  // ---------------------------------------------------------------------
  // An activity's share of each side

  /** `Math.min(1, hoursPerDay / 24)`. */
  function ProportionOfDay(hoursPerDay: real): (q: real)
    ensures q <= 1.0 && q <= hoursPerDay / 24.0
    ensures q == 1.0 || q == hoursPerDay / 24.0
  {
    Min(1.0, hoursPerDay / 24.0)
  }

  /** `Math.ceil(x * 10) / 10`: the least multiple of 0.1 not below `x`. */
  function CeilTenth(x: real): (r: real)
    ensures x <= r < x + 0.1
    ensures (r * 10.0).Floor as real == r * 10.0
  {
    Ceil(x * 10.0) as real / 10.0
  }

  datatype ActivityUnits = ActivityUnits(past: real, future: real, total: real)

  /** `calculateActivityPastFutureUnits`: the activity's share of the lived and
      of the remaining units, each rounded up to a tenth. */
  function ActivityPastFutureUnits(p: Progress, hoursPerDay: real): (u: ActivityUnits)
    ensures var q := ProportionOfDay(hoursPerDay);
            p.lived as real * q <= u.past < p.lived as real * q + 0.1
            && p.remaining as real * q <= u.future < p.remaining as real * q + 0.1
    ensures u.total == u.past + u.future
  {
    var q := ProportionOfDay(hoursPerDay);
    var past := CeilTenth(p.lived as real * q);
    var future := CeilTenth(p.remaining as real * q);
    ActivityUnits(past, future, past + future)
  }

  /** The length of `a`'s interval on one side; `None` (NaN) when `a` has no `hoursPerDay`. */
  function SideLength(p: Progress, a: Activity, isLived: bool): Option<real> {
    match a.hoursPerDay
    case None => None
    case Some(h) =>
      var u := ActivityPastFutureUnits(p, h);
      Some(if isLived then u.past else u.future)
  }

  // ---------------------------------------------------------------------
  // The run-length walk

  /** The loop of `getActivityColorForCell`: `side` is laid out from `position`
      as consecutive intervals, and the first interval holding `cellIndex`
      gives its colour. A NaN length makes every later comparison false. */
  function Walk(cellIndex: int, p: Progress, side: seq<Activity>, isLived: bool, position: real): (c: string)
    ensures c == SideDefault(isLived) || exists k :: 0 <= k < |side| && c == side[k].color
    decreases |side|
  {
    if |side| == 0 then SideDefault(isLived)
    else
      match SideLength(p, side[0], isLived)
      case None => SideDefault(isLived)
      case Some(len) =>
        if position <= cellIndex as real < position + len then side[0].color
        else
          var c := Walk(cellIndex, p, side[1..], isLived, position + len);
          assert c != SideDefault(isLived) ==> exists k :: 1 <= k < |side| && c == side[k].color by {
            if c != SideDefault(isLived) {
              var k :| 0 <= k < |side[1..]| && c == side[1..][k].color;
              assert c == side[k + 1].color;
            }
          }
          c
  }

  /** One step of the walk. */
  lemma WalkStep(cellIndex: int, p: Progress, side: seq<Activity>, isLived: bool, position: real)
    requires |side| > 0
    ensures SideLength(p, side[0], isLived).None? ==> Walk(cellIndex, p, side, isLived, position) == SideDefault(isLived)
    ensures SideLength(p, side[0], isLived).Some? ==>
      var len := SideLength(p, side[0], isLived).value;
      Walk(cellIndex, p, side, isLived, position)
      == if position <= cellIndex as real < position + len then side[0].color
         else Walk(cellIndex, p, side[1..], isLived, position + len)
  {
  }

  /** `getActivityColorForCell(cellIndex, isLived)` for the progress `p` the
      hook computes. A cell asked for on the wrong side of `p.lived` gets the
      other side's default without a walk. */
  function ColorForCell(cellIndex: int, isLived: bool, p: Progress, acts: seq<Activity>): (c: string)
    ensures isLived && cellIndex >= p.lived ==> c == UnlivedColor
    ensures !isLived && cellIndex < p.lived ==> c == LivedColor
    ensures c == LivedColor || c == UnlivedColor
            || exists k :: 0 <= k < |acts| && OnSide(acts[k], isLived) && c == acts[k].color
  {
    if isLived && cellIndex >= p.lived then UnlivedColor
    else if !isLived && cellIndex < p.lived then LivedColor
    else
      var side := SideActivities(acts, isLived);
      var c := Walk(cellIndex, p, side, isLived, if isLived then 0.0 else p.lived as real);
      assert c != SideDefault(isLived) ==> exists k :: 0 <= k < |acts| && OnSide(acts[k], isLived) && c == acts[k].color by {
        if c != SideDefault(isLived) {
          var k :| 0 <= k < |side| && c == side[k].color;
          assert side[k] in acts;
        }
      }
      c
  }

  // ---------------------------------------------------------------------
  // Reference definition of the walk: explicit intervals

  /** Where the `k`-th interval of `side` starts: `base` plus the lengths of
      the intervals before it, or `None` once one of those is NaN. */
  function IntervalStart(p: Progress, side: seq<Activity>, isLived: bool, base: real, k: nat): Option<real>
    requires k <= |side|
    decreases k
  {
    if k == 0 then Some(base)
    else
      match (IntervalStart(p, side, isLived, base, k - 1), SideLength(p, side[k - 1], isLived))
      case (Some(s), Some(len)) => Some(s + len)
      case _ => None
  }

  /** Cell `i` lies in the `k`-th interval `[start_k, start_k + len_k)`. */
  predicate InInterval(i: int, p: Progress, side: seq<Activity>, isLived: bool, base: real, k: nat)
    requires k < |side|
  {
    var s := IntervalStart(p, side, isLived, base, k);
    var len := SideLength(p, side[k], isLived);
    s.Some? && len.Some? && s.value <= i as real < s.value + len.value
  }

  /** Dropping the first interval moves every later start by its length. */
  lemma {:induction false} IntervalStartShift(p: Progress, side: seq<Activity>, isLived: bool, base: real, len: real, k: nat)
    requires |side| > 0 && SideLength(p, side[0], isLived) == Some(len)
    requires k < |side|
    ensures IntervalStart(p, side, isLived, base, k + 1) == IntervalStart(p, side[1..], isLived, base + len, k)
    decreases k
  {
    if k == 0 {
      assert IntervalStart(p, side, isLived, base, 1) == Some(base + len);
    } else {
      assert IntervalStart(p, side, isLived, base, k) == IntervalStart(p, side[1..], isLived, base + len, k - 1) by {
        IntervalStartShift(p, side, isLived, base, len, k - 1);
      }
      assert side[k] == side[1..][k - 1];
    }
  }

  /** An interval with a start is preceded only by intervals of defined length. */
  lemma {:induction false} IntervalStartDefined(p: Progress, side: seq<Activity>, isLived: bool, base: real, k: nat)
    requires k <= |side| && IntervalStart(p, side, isLived, base, k).Some?
    ensures forall j :: 0 <= j < k ==> SideLength(p, side[j], isLived).Some?
    decreases k
  {
    if k > 0 {
      IntervalStartDefined(p, side, isLived, base, k - 1);
    }
  }

  lemma InIntervalShift(i: int, p: Progress, side: seq<Activity>, isLived: bool, base: real, len: real, k: nat)
    requires |side| > 0 && SideLength(p, side[0], isLived) == Some(len)
    requires k + 1 < |side|
    ensures InInterval(i, p, side, isLived, base, k + 1) == InInterval(i, p, side[1..], isLived, base + len, k)
  {
    IntervalStartShift(p, side, isLived, base, len, k);
    assert side[k + 1] == side[1..][k];
  }

  /** The walk stops at the first interval holding the cell. */
  lemma {:induction false} WalkFindsFirst(i: int, p: Progress, side: seq<Activity>, isLived: bool, base: real, k: nat)
    requires k < |side| && InInterval(i, p, side, isLived, base, k)
    requires forall j :: 0 <= j < k ==> !InInterval(i, p, side, isLived, base, j)
    ensures Walk(i, p, side, isLived, base) == side[k].color
    decreases k
  {
    IntervalStartDefined(p, side, isLived, base, k);
    assert SideLength(p, side[0], isLived).Some?;
    var len := SideLength(p, side[0], isLived).value;
    if k > 0 {
      assert !InInterval(i, p, side, isLived, base, 0);
      var tail := side[1..];
      var next := base + len;
      InIntervalShift(i, p, side, isLived, base, len, k - 1);
      forall j | 0 <= j < k - 1
        ensures !InInterval(i, p, tail, isLived, next, j)
      {
        InIntervalShift(i, p, side, isLived, base, len, j);
      }
      WalkFindsFirst(i, p, tail, isLived, next, k - 1);
      assert side[k] == tail[k - 1];
    }
  }

  /** A cell outside every interval gets the side default. */
  lemma {:induction false} WalkFindsNone(i: int, p: Progress, side: seq<Activity>, isLived: bool, base: real)
    requires forall k :: 0 <= k < |side| ==> !InInterval(i, p, side, isLived, base, k)
    ensures Walk(i, p, side, isLived, base) == SideDefault(isLived)
    decreases |side|
  {
    if |side| > 0 && SideLength(p, side[0], isLived).Some? {
      var len := SideLength(p, side[0], isLived).value;
      assert !InInterval(i, p, side, isLived, base, 0);
      var tail := side[1..];
      var next := base + len;
      forall j | 0 <= j < |tail|
        ensures !InInterval(i, p, tail, isLived, next, j)
      {
        InIntervalShift(i, p, side, isLived, base, len, j);
      }
      WalkFindsNone(i, p, tail, isLived, next);
    }
  }

  /** `getActivityColorForCell` on the right side of the lived boundary: the
      side's activities, in list order, own consecutive intervals starting at
      0 (past) or at `p.lived` (future), and the cell takes the colour of the
      first interval holding it, or the side default. */
  lemma ColorForCellIsFirstInterval(i: int, isLived: bool, p: Progress, acts: seq<Activity>)
    requires isLived ==> i < p.lived
    requires !isLived ==> i >= p.lived
    ensures var side := SideActivities(acts, isLived);
            var base := if isLived then 0.0 else p.lived as real;
            (forall k :: 0 <= k < |side| && InInterval(i, p, side, isLived, base, k)
               && (forall j :: 0 <= j < k ==> !InInterval(i, p, side, isLived, base, j))
               ==> ColorForCell(i, isLived, p, acts) == side[k].color)
            && ((forall k :: 0 <= k < |side| ==> !InInterval(i, p, side, isLived, base, k))
               ==> ColorForCell(i, isLived, p, acts) == SideDefault(isLived))
  {
    var side := SideActivities(acts, isLived);
    var base := if isLived then 0.0 else p.lived as real;
    var c := ColorForCell(i, isLived, p, acts);
    assert c == Walk(i, p, side, isLived, base) by {
      ColorForCellWalks(i, isLived, p, acts);
    }
    forall k | 0 <= k < |side| && InInterval(i, p, side, isLived, base, k)
        && (forall j :: 0 <= j < k ==> !InInterval(i, p, side, isLived, base, j))
      ensures c == side[k].color
    {
      WalkFindsFirst(i, p, side, isLived, base, k);
    }
    if forall k :: 0 <= k < |side| ==> !InInterval(i, p, side, isLived, base, k) {
      WalkFindsNone(i, p, side, isLived, base);
    }
  }

  /** On the right side of `lived`, the colour is the walk's. */
  lemma ColorForCellWalks(i: int, isLived: bool, p: Progress, acts: seq<Activity>)
    requires isLived ==> i < p.lived
    requires !isLived ==> i >= p.lived
    ensures ColorForCell(i, isLived, p, acts)
         == Walk(i, p, SideActivities(acts, isLived), isLived, if isLived then 0.0 else p.lived as real)
  {
  }

  // ---------------------------------------------------------------------
  // The hook's row layout

  datatype TimeUnits = TimeUnits(units: int, unitsPerRow: int, rows: Num, cellSize: Num, padding: real)

  /** `calculateTimeUnits`: as many 30-pixel columns as fit in 95% of the
      window less 40 pixels, but no more than there are units. A zero column
      count divides by zero, as in the source. */
  function CalculateTimeUnits(windowWidth: real, total: int): (t: TimeUnits)
    ensures t.units == total
    ensures t.unitsPerRow <= total
    ensures var room := windowWidth * 0.95 - 40.0;
            30.0 * t.unitsPerRow as real <= room
            && (t.unitsPerRow == total || room < 30.0 * (t.unitsPerRow + 1) as real)
    ensures t.unitsPerRow >= 1 ==>
              t.rows.Fin? && t.rows.v.Floor as real == t.rows.v
              && t.rows.v.Floor * t.unitsPerRow >= total > (t.rows.v.Floor - 1) * t.unitsPerRow
    ensures t.unitsPerRow == 0 ==> (t.rows.NaN? <==> total == 0) && (t.rows.PosInf? <==> total > 0)
    ensures t.cellSize.NaN? || t.cellSize.AtMost(25.0)
    ensures var room := windowWidth * 0.95 - 40.0;
            t.unitsPerRow != 0 ==> t.cellSize == Fin(Min(25.0, room / t.unitsPerRow as real - 5.0))
    ensures var room := windowWidth * 0.95 - 40.0;
            t.unitsPerRow == 0 ==>
              ((t.cellSize.NaN? <==> room == 0.0) && (t.cellSize.NegInf? <==> room < 0.0)
               && (room > 0.0 ==> t.cellSize == Fin(25.0)))
    ensures t.padding == 5.0
  {
    var room := windowWidth * 0.95 - 40.0;
    var maxUnitsPerRow := Floor(room / 30.0);
    var unitsPerRow := MinInt(maxUnitsPerRow, total);
    var rows := NumCeil(Div(total as real, unitsPerRow as real));
    var cellSize := NumMin(Fin(25.0), Sub(Div(room, unitsPerRow as real), 5.0));
    assert unitsPerRow >= 1 ==>
             (Ceil(total as real / unitsPerRow as real) * unitsPerRow >= total
              > (Ceil(total as real / unitsPerRow as real) - 1) * unitsPerRow) by {
      if unitsPerRow >= 1 {
        CeilDivBounds(total, unitsPerRow);
      }
    }
    TimeUnits(total, unitsPerRow, rows, cellSize, 5.0)
  }

  /** No column count that fits the room and the units is larger than the
      one chosen: the columns are the most that fit, capped by the units. */
  lemma TimeUnitsColumnsLargest(windowWidth: real, total: int, k: int)
    requires k <= total && 30.0 * k as real <= windowWidth * 0.95 - 40.0
    ensures k <= CalculateTimeUnits(windowWidth, total).unitsPerRow
  {
    var t := CalculateTimeUnits(windowWidth, total);
    if t.unitsPerRow != total {
      assert 30.0 * k as real < 30.0 * (t.unitsPerRow + 1) as real;
    }
  }

  /** A 1000-pixel window holds 30 columns of weeks: 4160 weeks (80 years)
      take 139 rows of 25-pixel cells. */
  lemma TimeUnitsAtThousandPixels()
    ensures var t := CalculateTimeUnits(1000.0, 4160);
      t.unitsPerRow == 30 && t.rows == Fin(139.0) && t.cellSize == Fin(25.0)
  {
    var t := CalculateTimeUnits(1000.0, 4160);
    assert 30.0 * 30.0 <= 910.0 < 30.0 * 31.0;
    assert t.unitsPerRow == 30;
    assert 139 * 30 >= 4160 > 138 * 30;
  }
}
