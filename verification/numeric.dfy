/** The few JavaScript number operations the life grid relies on, over exact
    rationals: `Math.floor`, `Math.ceil`, `Math.round`, `Math.min`/`Math.max`,
    the truncating `%`, and division by zero with its infinities and NaN. */
module Numeric {

  /** `Math.floor`. */
  function Floor(x: real): (r: int)
    ensures r as real <= x < r as real + 1.0
  {
    x.Floor
  }

  /** `Math.ceil`. */
  function Ceil(x: real): (r: int)
    ensures x <= r as real < x + 1.0
  {
    -((-x).Floor)
  }

  /** `Math.round`: the nearest integer, halves going up (towards +infinity). */
  function Round(x: real): (r: int)
    ensures x - 0.5 < r as real <= x + 0.5
    ensures r as real == x + 0.5 ==> r as real > x
  {
    (x + 0.5).Floor
  }

  function Min(a: real, b: real): (r: real)
    ensures r <= a && r <= b
    ensures r == a || r == b
  {
    if a <= b then a else b
  }

  function Max(a: real, b: real): (r: real)
    ensures r >= a && r >= b
    ensures r == a || r == b
  {
    if a >= b then a else b
  }

  function MinInt(a: int, b: int): (r: int)
    ensures r <= a && r <= b
    ensures r == a || r == b
  {
    if a <= b then a else b
  }

  /** The `%` of JavaScript on integers: the remainder takes the sign of the
      dividend (Dafny's `%` is Euclidean and never negative). */
  function JsRem(a: int, b: int): (r: int)
    requires b > 0
    ensures a >= 0 ==> 0 <= r < b
    ensures a < 0 ==> -b < r <= 0
    ensures a == b * JsQuot(a, b) + r
  {
    if a >= 0 then a % b else -((-a) % b)
  }

  /** Integer division truncated towards zero, the quotient that goes with `JsRem`. */
  function JsQuot(a: int, b: int): int
    requires b > 0
  {
    if a >= 0 then a / b else -((-a) / b)
  }

  /** A floor and a ceiling of two parts never add up to more than the ceiling
      of the whole, and fall short of it by at most one. */
  lemma FloorPlusCeil(a: real, b: real)
    ensures Floor(a) + Ceil(b) == Ceil(a + b) || Floor(a) + Ceil(b) == Ceil(a + b) - 1
  {
    var fa, cb, c := Floor(a), Ceil(b), Ceil(a + b);
    assert (fa + cb) as real > a + b - 1.0;
    assert (fa + cb) as real < a + b + 1.0;
  }

  lemma MulMonotone(a: real, b: real, c: real)
    requires a <= b && c >= 0.0
    ensures a * c <= b * c
  {
  }

  lemma MulStrict(a: real, b: real, c: real)
    requires a < b && c > 0.0
    ensures a * c < b * c
  {
  }

  /** Division distributes over a sum. */
  lemma DivAdd(a: real, b: real, d: real)
    requires d != 0.0
    ensures a / d + b / d == (a + b) / d
  {
  }

  /** `Math.ceil(n / d)` rows of `d` cells hold `n` cells, and one row fewer does not. */
  lemma CeilDivBounds(n: int, d: int)
    requires d >= 1
    ensures Ceil(n as real / d as real) * d >= n
    ensures (Ceil(n as real / d as real) - 1) * d < n
  {
    var q := n as real / d as real;
    var r := Ceil(q);
    var dr := d as real;
    assert q * dr == n as real;
    MulMonotone(q, r as real, dr);
    MulStrict(r as real - 1.0, q, dr);
    assert (r * d) as real == r as real * dr;
    calc {
      ((r - 1) * d) as real;
      ==
      (r as real - 1.0) * dr;
      <
      q * dr;
      ==
      n as real;
    }
  }

  /** A JavaScript number: finite, one of the two infinities, or NaN. Signed
      zero is not distinguished. */
  datatype Num = Fin(v: real) | PosInf | NegInf | NaN {

    /** `this <= bound` as JavaScript's comparison answers it (false for NaN). */
    predicate AtMost(bound: real) {
      NegInf? || (Fin? && v <= bound)
    }

    /** `this >= bound` as JavaScript's comparison answers it (false for NaN). */
    predicate AtLeast(bound: real) {
      PosInf? || (Fin? && v >= bound)
    }
  }

  /** Ordering of two non-NaN numbers on the extended real line. */
  predicate Le(a: Num, b: Num)
    requires !a.NaN? && !b.NaN?
  {
    match (a, b)
    case (NegInf, _) => true
    case (_, PosInf) => true
    case (Fin(x), Fin(y)) => x <= y
    case _ => false
  }

  /** `a / b`: finite unless `b` is zero, then an infinity of `a`'s sign, or NaN for `0 / 0`. */
  function Div(a: real, b: real): (r: Num)
    ensures b != 0.0 ==> r == Fin(a / b)
    ensures b == 0.0 ==> (r.NaN? <==> a == 0.0)
    ensures b == 0.0 ==> (r.PosInf? <==> a > 0.0) && (r.NegInf? <==> a < 0.0)
  {
    if b != 0.0 then Fin(a / b)
    else if a > 0.0 then PosInf
    else if a < 0.0 then NegInf
    else NaN
  }

  /** `x - d` for a finite `d`. */
  function Sub(x: Num, d: real): (r: Num)
    ensures x.Fin? ==> r == Fin(x.v - d)
    ensures !x.Fin? ==> r == x
  {
    match x
    case Fin(v) => Fin(v - d)
    case _ => x
  }

  /** `Math.ceil(x)`. */
  function NumCeil(x: Num): (r: Num)
    ensures x.Fin? ==> r.Fin? && r.v == Ceil(x.v) as real
    ensures !x.Fin? ==> r == x
  {
    match x
    case Fin(v) => Fin(Ceil(v) as real)
    case _ => x
  }

  /** `Math.min(a, b)`: NaN when either is NaN, otherwise the smaller. */
  function NumMin(a: Num, b: Num): (r: Num)
    ensures r.NaN? <==> a.NaN? || b.NaN?
    ensures !r.NaN? ==> Le(r, a) && Le(r, b) && (r == a || r == b)
  {
    if a.NaN? || b.NaN? then NaN
    else if Le(a, b) then a
    else b
  }

  /** `Math.max(a, b)`: NaN when either is NaN, otherwise the larger. */
  function NumMax(a: Num, b: Num): (r: Num)
    ensures r.NaN? <==> a.NaN? || b.NaN?
    ensures !r.NaN? ==> Le(a, r) && Le(b, r) && (r == a || r == b)
  {
    if a.NaN? || b.NaN? then NaN
    else if Le(a, b) then b
    else a
  }
}
