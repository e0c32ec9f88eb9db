/**
 * Real-number stand-ins for the numpy scalar functions the source calls.
 * Floats are modelled as `real`; the transcendental functions are uninterpreted: they are the
 * fields of a `Transcendentals` record, and each property a proof needs is a predicate over
 * that record which the proof takes as a precondition.
 */
module Numerics {

  /** np.pi, the double closest to pi. */
  const PI: real := 3.141592653589793

  datatype Transcendentals = Transcendentals(
    sin: real -> real,
    cos: real -> real,
    tan: real -> real,
    arcsin: real -> real,
    arccos: real -> real,
    arctan: real -> real,
    arctan2: (real, real) -> real,
    sinh: real -> real,
    exp: real -> real,
    log: real -> real,
    sqrt: real -> real)

  /** sqrt is non-negative (NaN is outside the model) and vanishes at 0. */
  ghost predicate SqrtAxioms(m: Transcendentals) {
    m.sqrt(0.0) == 0.0 && forall u :: m.sqrt(u) >= 0.0
  }

  /** sin is odd: opposite arguments give opposite values. */
  ghost predicate SinOdd(m: Transcendentals) {
    forall u, v :: u + v == 0.0 ==> m.sin(u) == -m.sin(v)
  }

  /** arcsin vanishes at 0 and is non-negative on non-negative arguments. */
  ghost predicate ArcsinAxioms(m: Transcendentals) {
    m.arcsin(0.0) == 0.0 && forall u :: u >= 0.0 ==> m.arcsin(u) >= 0.0
  }

  /** sin^2 + cos^2 = 1. */
  ghost predicate Pythagorean(m: Transcendentals) {
    forall u :: Sq(m.sin(u)) + Sq(m.cos(u)) == 1.0
  }

  /** What the haversine properties need. */
  ghost predicate HaversineAxioms(m: Transcendentals) {
    SqrtAxioms(m) && SinOdd(m) && ArcsinAxioms(m)
  }

  /** What the Mercator latitude round trip needs: exp undoes log, tan is positive on (0, pi/2)
      and arctan undoes tan on (-pi/2, pi/2). */
  ghost predicate MercatorAxioms(m: Transcendentals) {
    && (forall v :: v > 0.0 ==> m.exp(m.log(v)) == v)
    && (forall u :: 0.0 < u < PI / 2.0 ==> m.tan(u) > 0.0)
    && (forall u :: -PI / 2.0 < u < PI / 2.0 ==> m.arctan(m.tan(u)) == u)
  }

  /** np.deg2rad */
  function DegToRad(deg: real): (rad: real)
    ensures RadToDeg(rad) == deg
  {
    deg * PI / 180.0
  }

  /** np.rad2deg */
  function RadToDeg(rad: real): real {
    rad * 180.0 / PI
  }

  /** np.power(v, 2) */
  function Sq(v: real): (r: real)
    ensures r >= 0.0
  {
    v * v
  }

  /** np.abs */
  function Abs(v: real): (r: real)
    ensures r >= 0.0 && (r == v || r == -v)
  {
    if v >= 0.0 then v else -v
  }

  function Max(a: real, b: real): real { if a >= b then a else b }

  function Min(a: real, b: real): real { if a <= b then a else b }

  /** Python's int() applied to a float: truncation toward zero. */
  function Trunc(v: real): (n: int)
    ensures v >= 0.0 ==> n as real <= v < n as real + 1.0
    ensures v < 0.0 ==> n as real - 1.0 < v <= n as real
  {
    if v >= 0.0 then v.Floor else -((-v).Floor)
  }

  /** int(np.ceil(v)) */
  function Ceil(v: real): (n: int)
    ensures n as real - 1.0 < v <= n as real
  {
    -((-v).Floor)
  }

  /** Python's float `a % 360`: floor-based, so the result lies in [0, 360) for every angle. */
  function Mod360(a: real): (r: real)
    ensures 0.0 <= r < 360.0
    ensures r == a - 360.0 * (a / 360.0).Floor as real
  {
    a - 360.0 * (a / 360.0).Floor as real
  }

  /** np.power(2, n) for a non-negative integer n. */
  function Pow2(n: nat): (r: nat)
    ensures r >= 1
  {
    if n == 0 then 1 else 2 * Pow2(n - 1)
  }

  /** `(span2 - bound) / (span2 - span1)`: where on a leg the running span reaches the bound. */
  function CutFraction(span2: real, span1: real, bound: real): (t: real)
    requires span1 <= bound < span2
    ensures Reaches(t, span1, span2, bound)
  {
    Ratio(span2 - bound, span2 - span1);
    (span2 - bound) / (span2 - span1)
  }

  /** t, in (0, 1], is the fraction of a leg, counted back from its end, at which the running
      quantity (a span, a path length), taken as linear between its value span1 at the leg's
      start and span2 at its end, equals the bound: t * (span2 - span1) == span2 - bound. For a
      span this is the interpolated value, not the span of the cut prefix. */
  predicate Reaches(t: real, span1: real, span2: real, bound: real) {
    0.0 < t <= 1.0 && t * (span2 - span1) == span2 - bound
  }

  /** p is the point `v2 - t*(v2 - v1)` of the leg v1 -> v2. */
  predicate OnLeg(t: real, v1: real, v2: real, p: real) {
    p == v2 - t * (v2 - v1)
  }

  lemma DivLe(a: real, b: real, p: real)
    requires p > 0.0 && a <= b
    ensures a / p <= b / p
  {
    assert b / p - a / p == (b - a) / p;
  }

  lemma DivLt(a: real, b: real, p: real)
    requires p > 0.0 && a < b
    ensures a / p < b / p
  {
    assert b / p - a / p == (b - a) / p;
  }

  lemma DivSelf(a: real, p: real)
    requires p > 0.0
    ensures a == p ==> a / p == 1.0
  {
  }

  lemma Ratio(a: real, b: real)
    requires 0.0 < a <= b
    ensures 0.0 < a / b <= 1.0 && a / b * b == a
  {
  }

  lemma MulNonNeg(a: real, b: real)
    requires a >= 0.0 && b >= 0.0
    ensures a * b >= 0.0
  {
  }

  /** A point of a leg lies between its ends. */
  lemma Between(v1: real, v2: real, t: real, p: real)
    requires 0.0 <= t <= 1.0 && OnLeg(t, v1, v2, p)
    ensures Min(v1, v2) <= p <= Max(v1, v2)
  {
    var e := v2 - v1;
    var s := 1.0 - t;
    if v1 <= v2 {
      MulNonNeg(t, e);
      MulNonNeg(s, e);
    } else {
      var f := v1 - v2;
      MulNonNeg(t, f);
      MulNonNeg(s, f);
      assert t * e == -(t * f);
    }
    assert e - t * e == s * e;
  }
}
