/** Input normalisation of the life grid page: an activity's rate as hours per
    day, the lifespan field, the hours field, the shape button and the unit
    suffix shown next to the totals. */
module LifeGridInputs {
  import opened Wrappers
  import opened Numeric
  import opened Text

  /** `calculateHoursPerDay`: a weekly, monthly (flat 30 days) or yearly rate
      as hours per day; any other unit is taken as already per day. */
  function HoursPerDay(hours: real, timeUnit: string): (r: real)
    ensures timeUnit == "week" ==> r * 7.0 == hours
    ensures timeUnit == "month" ==> r * 30.0 == hours
    ensures timeUnit == "year" ==> r * 365.0 == hours
    ensures timeUnit !in {"week", "month", "year"} ==> r == hours
    ensures 0.0 <= hours ==> 0.0 <= r <= hours
  {
    match timeUnit
    case "week" => hours / 7.0
    case "month" => hours / 30.0
    case "year" => hours / 365.0
    case _ => hours
  }

  // ---------------------------------------------------------------------
  // Lifespan field

  const MinLifespan := 1
  const MaxLifespan := 120

  /** `handleLifespanChange`: the field's text through `parseInt`; an empty or
      non-numeric text counts as 1, and the result is clamped to [1, 120]. */
  function LifespanInput(value: string): (r: int)
    ensures MinLifespan <= r <= MaxLifespan
    ensures ParseInt(value).None? ==> r == MinLifespan
    ensures ParseInt(value).Some? && MinLifespan <= ParseInt(value).value <= MaxLifespan ==> r == ParseInt(value).value
    ensures ParseInt(value).Some? && ParseInt(value).value > MaxLifespan ==> r == MaxLifespan
    ensures ParseInt(value).Some? && ParseInt(value).value < MinLifespan ==> r == MinLifespan
  {
    var value' := if value == "" || ParseInt(value).None? then 1 else ParseInt(value).value;
    if value' > MaxLifespan then MaxLifespan
    else if value' < MinLifespan then MinLifespan
    else value'
  }

  /** Typing any lifespan in range gives that lifespan back. */
  lemma LifespanRoundTrip(n: int)
    requires MinLifespan <= n <= MaxLifespan
    ensures LifespanInput(IntToString(n)) == n
  {
    ParseIntRoundTrip(n);
  }

  // ---------------------------------------------------------------------
  // Hours field

  /** `r` is a whole number of half hours. */
  predicate IsHalfStep(r: real) {
    (r * 2.0).Floor as real == r * 2.0
  }

  /** `handleActivityHoursChange`'s normalisation: rounded to the nearest half
      hour (halves up, as `Math.round` does), then clamped to [0, 24]. */
  function HoursInput(hours: real): (r: real)
    ensures 0.0 <= r <= 24.0
    ensures IsHalfStep(r)
    ensures 0.0 <= hours <= 24.0 ==> hours - 0.25 < r <= hours + 0.25
    ensures hours <= 0.0 ==> r == 0.0
    ensures hours >= 24.0 ==> r == 24.0
  {
    var rounded := Round(hours * 2.0) as real / 2.0;
    var r := Min(24.0, Max(0.0, rounded));
    assert (r * 2.0).Floor as real == r * 2.0 by {
      if r == rounded {
        assert r * 2.0 == Round(hours * 2.0) as real;
      }
    }
    r
  }

  /** Normalising an already normalised value changes nothing. */
  lemma HoursInputIdempotent(hours: real)
    ensures HoursInput(HoursInput(hours)) == HoursInput(hours)
  {
    var r := HoursInput(hours);
    var m := (r * 2.0).Floor;
    assert m as real == r * 2.0;
    assert Round(r * 2.0) == m;
  }

  // ---------------------------------------------------------------------
  // Shape button

  const Shapes: seq<string> := ["square", "circle", "heart", "diamond", "hexagon"]

  /** The shape button's `onClick`: square, circle, heart, diamond, hexagon,
      then back to square; anything else becomes square. */
  function NextShape(shape: string): (r: string)
    ensures r in Shapes
    ensures r != shape
    ensures shape !in Shapes ==> r == "square"
    ensures shape == Shapes[4] ==> r == Shapes[0]
    ensures forall k {:trigger Shapes[k]} :: 0 <= k < 4 && shape == Shapes[k] ==> r == Shapes[k + 1]
  {
    if shape == "square" then "circle"
    else if shape == "circle" then "heart"
    else if shape == "heart" then "diamond"
    else if shape == "diamond" then "hexagon"
    else "square"
  }

  /** The shape after `presses` clicks of the button. */
  function Press(shape: string, presses: nat): string
    decreases presses
  {
    if presses == 0 then shape else Press(NextShape(shape), presses - 1)
  }

  /** From any of the five shapes, five presses come back to it and fewer do not. */
  lemma {:induction false} ShapeCycle(shape: string)
    requires shape in Shapes
    ensures Press(shape, 5) == shape
    ensures forall n :: 0 < n < 5 ==> Press(shape, n) != shape
  {
    if shape == "square" {
      CycleFrom("square", "circle", "heart", "diamond", "hexagon");
    } else if shape == "circle" {
      CycleFrom("circle", "heart", "diamond", "hexagon", "square");
    } else if shape == "heart" {
      CycleFrom("heart", "diamond", "hexagon", "square", "circle");
    } else if shape == "diamond" {
      CycleFrom("diamond", "hexagon", "square", "circle", "heart");
    } else {
      assert shape == "hexagon";
      CycleFrom("hexagon", "square", "circle", "heart", "diamond");
    }
  }

  /** Five presses from `s0` pass through `s1` to `s4` and come back. */
  lemma CycleFrom(s0: string, s1: string, s2: string, s3: string, s4: string)
    requires NextShape(s0) == s1 && NextShape(s1) == s2 && NextShape(s2) == s3
    requires NextShape(s3) == s4 && NextShape(s4) == s0
    requires s0 != s1 && s0 != s2 && s0 != s3 && s0 != s4
    ensures Press(s0, 5) == s0
    ensures forall n :: 0 < n < 5 ==> Press(s0, n) != s0
  {
    assert Press(s4, 1) == s0 by { assert Press(s0, 0) == s0; }
    assert Press(s3, 2) == s0;
    assert Press(s2, 3) == s0;
    assert Press(s1, 4) == s0;
    assert Press(s0, 1) == s1 && Press(s0, 2) == s2 && Press(s0, 3) == s3 && Press(s0, 4) == s4;
  }

  // ---------------------------------------------------------------------
  // Unit suffix

  /** `getTimeUnitSuffix`: singular for exactly 1 year, month or week, plural
      otherwise; any other unit is shown as it is. */
  function TimeUnitSuffix(timeUnit: string, value: real): (r: string)
    ensures timeUnit in {"years", "months", "weeks"} && value != 1.0 ==> r == timeUnit
    ensures timeUnit in {"years", "months", "weeks"} && value == 1.0 ==> r + "s" == timeUnit
    ensures timeUnit !in {"years", "months", "weeks"} ==> r == timeUnit
  {
    match timeUnit
    case "years" => if value == 1.0 then "year" else "years"
    case "months" => if value == 1.0 then "month" else "months"
    case "weeks" => if value == 1.0 then "week" else "weeks"
    case _ => timeUnit
  }
}
