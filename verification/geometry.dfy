/**
 * Points and vectors of the plane, over unbounded reals, and the Bézier
 * evaluators the stroker samples (crates/ori-core/src/canvas/stroke.rs).
 *
 * The operations that need square roots or IEEE division (`normalize`,
 * `length`, `sqrt`, and `/` with a possibly-zero divisor) are not
 * computable on reals; they are fields of an `Ops` record, so every lemma
 * holds for any implementation of them that meets `Ops.Valid`.
 */
module Geometry {

  /** A point or a vector. */
  datatype Vec = Vec(x: real, y: real)

  const ZERO: Vec := Vec(0.0, 0.0)

  function Add(a: Vec, b: Vec): Vec { Vec(a.x + b.x, a.y + b.y) }

  function Sub(a: Vec, b: Vec): Vec { Vec(a.x - b.x, a.y - b.y) }

  function Scale(a: Vec, k: real): Vec { Vec(a.x * k, a.y * k) }

  function Neg(a: Vec): Vec { Vec(-a.x, -a.y) }

  function Dot(a: Vec, b: Vec): real { a.x * b.x + a.y * b.y }

  /** The scalar (z) component of the 3D cross product. */
  function Cross(a: Vec, b: Vec): real { a.x * b.y - a.y * b.x }

  /** Linear interpolation: `a` at `t = 0`, `b` at `t = 1`. */
  function Lerp(a: Vec, b: Vec, t: real): (r: Vec)
    ensures t == 0.0 ==> r == a
    ensures t == 1.0 ==> r == b
  {
    Add(a, Scale(Sub(b, a), t))
  }

  /** The geometry the model does not compute itself. */
  datatype Ops = Ops(
    normalize: Vec -> Vec,
    hat: Vec -> Vec,
    length: Vec -> real,
    sqrt: real -> real,
    /** f32 division; a zero divisor gives an infinity or NaN, left unspecified. */
    quot: (real, real) -> real)
  {
    /** What every proof that needs geometry may assume. */
    ghost predicate Valid() {
      && (forall v :: length(v) >= 0.0)
      && (forall x :: x >= 0.0 ==> sqrt(x) >= 0.0)
      && (forall a, b :: b != 0.0 ==> quot(a, b) == a / b)
    }

    /** A vector divided by a scalar, component-wise. */
    function DivVec(v: Vec, k: real): Vec {
      Vec(quot(v.x, k), quot(v.y, k))
    }
  }

  // ---------------------------------------------------------------------
  // Bézier evaluators (De Casteljau)
  // ---------------------------------------------------------------------

  function QuadBezier(p0: Vec, p1: Vec, p2: Vec, t: real): Vec {
    Lerp(Lerp(p0, p1, t), Lerp(p1, p2, t), t)
  }

  function QuadTangent(p0: Vec, p1: Vec, p2: Vec, t: real): Vec {
    Sub(Lerp(p1, p2, t), Lerp(p0, p1, t))
  }

  function CubicBezier(p0: Vec, p1: Vec, p2: Vec, p3: Vec, t: real): Vec {
    var p01 := Lerp(p0, p1, t);
    var p12 := Lerp(p1, p2, t);
    var p23 := Lerp(p2, p3, t);
    Lerp(Lerp(p01, p12, t), Lerp(p12, p23, t), t)
  }

  function CubicTangent(p0: Vec, p1: Vec, p2: Vec, p3: Vec, t: real): Vec {
    var p01 := Lerp(p0, p1, t);
    var p12 := Lerp(p1, p2, t);
    var p23 := Lerp(p2, p3, t);
    Sub(Lerp(p12, p23, t), Lerp(p01, p12, t))
  }

  function LineNormal(g: Ops, p0: Vec, p1: Vec): Vec {
    g.normalize(g.hat(Sub(p1, p0)))
  }

  function QuadNormal(g: Ops, p0: Vec, p1: Vec, p2: Vec, t: real): Vec {
    g.normalize(g.hat(QuadTangent(p0, p1, p2, t)))
  }

  function CubicNormal(g: Ops, p0: Vec, p1: Vec, p2: Vec, p3: Vec, t: real): Vec {
    g.normalize(g.hat(CubicTangent(p0, p1, p2, p3, t)))
  }

  /** The curves start at their first point and end at their last. */
  lemma BezierEndpoints(p0: Vec, p1: Vec, p2: Vec, p3: Vec)
    ensures QuadBezier(p0, p1, p2, 0.0) == p0 && QuadBezier(p0, p1, p2, 1.0) == p2
    ensures CubicBezier(p0, p1, p2, p3, 0.0) == p0 && CubicBezier(p0, p1, p2, p3, 1.0) == p3
  {
  }

  /**
   * The end tangent depends only on the last two control points, so it is
   * the same whatever is passed as the first point. The stroker relies on
   * this by accident when it samples the end normal after moving `p0`.
   */
  lemma EndTangentIgnoresStart(p0: Vec, q0: Vec, p1: Vec, p2: Vec, p3: Vec)
    ensures QuadTangent(q0, p1, p2, 1.0) == QuadTangent(p0, p1, p2, 1.0) == Sub(p2, p1)
    ensures CubicTangent(q0, p1, p2, p3, 1.0) == CubicTangent(p0, p1, p2, p3, 1.0) == Sub(p3, p2)
  {
  }

  // ---------------------------------------------------------------------
  // Subdivision
  // ---------------------------------------------------------------------

  /**
   * Splits a quadratic at `t`: the first half's control point, the shared
   * point, the second half's control point.
   */
  function DivideQuad(p0: Vec, p1: Vec, p2: Vec, t: real): (r: (Vec, Vec, Vec))
    ensures r.1 == QuadBezier(p0, p1, p2, t)
    ensures forall s :: QuadBezier(p0, r.0, r.1, s) == QuadBezier(p0, p1, p2, t * s)
    ensures forall s :: QuadBezier(r.1, r.2, p2, s) == QuadBezier(p0, p1, p2, t + (1.0 - t) * s)
  {
    var p01 := Lerp(p0, p1, t);
    var p12 := Lerp(p1, p2, t);
    var mid := Lerp(p01, p12, t);
    QuadSplitTraces(p0, p1, p2, t, p01, mid, p12);
    (p01, mid, p12)
  }

  /**
   * Splits a cubic at `t`: the first half's two control points, the shared
   * point, the second half's two control points.
   */
  function DivideCubic(p0: Vec, p1: Vec, p2: Vec, p3: Vec, t: real): (r: (Vec, Vec, Vec, Vec, Vec))
    ensures r.2 == CubicBezier(p0, p1, p2, p3, t)
    ensures forall s :: CubicBezier(p0, r.0, r.1, r.2, s) == CubicBezier(p0, p1, p2, p3, t * s)
    ensures forall s :: CubicBezier(r.2, r.3, r.4, p3, s) == CubicBezier(p0, p1, p2, p3, t + (1.0 - t) * s)
  {
    var p01 := Lerp(p0, p1, t);
    var p12 := Lerp(p1, p2, t);
    var p23 := Lerp(p2, p3, t);
    var p012 := Lerp(p01, p12, t);
    var p123 := Lerp(p12, p23, t);
    var mid := Lerp(p012, p123, t);
    CubicSplitTraces(p0, p1, p2, p3, t, p01, p012, mid, p123, p23);
    (p01, p012, mid, p123, p23)
  }

  // ---------------------------------------------------------------------
  // The halves of a split trace the original curve
  // ---------------------------------------------------------------------

  /** One coordinate of `Lerp`. */
  function Mix(a: real, b: real, t: real): real { a + (b - a) * t }

  /** One coordinate of `QuadBezier`. */
  function QuadAt(a: real, b: real, c: real, t: real): real {
    Mix(Mix(a, b, t), Mix(b, c, t), t)
  }

  /** One coordinate of `CubicBezier`. */
  function CubicAt(a: real, b: real, c: real, d: real, t: real): real {
    Mix(QuadAt(a, b, c, t), QuadAt(b, c, d, t), t)
  }

  lemma LerpCoords(a: Vec, b: Vec, t: real)
    ensures Lerp(a, b, t) == Vec(Mix(a.x, b.x, t), Mix(a.y, b.y, t))
  {
    assert Lerp(a, b, t).x == Mix(a.x, b.x, t);
    assert Lerp(a, b, t).y == Mix(a.y, b.y, t);
  }

  lemma QuadCoords(p0: Vec, p1: Vec, p2: Vec, t: real)
    ensures QuadBezier(p0, p1, p2, t) == Vec(QuadAt(p0.x, p1.x, p2.x, t), QuadAt(p0.y, p1.y, p2.y, t))
  {
    LerpCoords(p0, p1, t);
    LerpCoords(p1, p2, t);
    LerpCoords(Lerp(p0, p1, t), Lerp(p1, p2, t), t);
  }

  lemma CubicCoords(p0: Vec, p1: Vec, p2: Vec, p3: Vec, t: real)
    ensures CubicBezier(p0, p1, p2, p3, t)
         == Vec(CubicAt(p0.x, p1.x, p2.x, p3.x, t), CubicAt(p0.y, p1.y, p2.y, p3.y, t))
  {
    var p01, p12, p23 := Lerp(p0, p1, t), Lerp(p1, p2, t), Lerp(p2, p3, t);
    LerpCoords(p0, p1, t);
    LerpCoords(p1, p2, t);
    LerpCoords(p2, p3, t);
    LerpCoords(p01, p12, t);
    LerpCoords(p12, p23, t);
    LerpCoords(Lerp(p01, p12, t), Lerp(p12, p23, t), t);
  }

  /** The quadratic in power form. */
  lemma QuadPowerForm(a: real, b: real, c: real, t: real)
    ensures QuadAt(a, b, c, t) == a + 2.0 * (b - a) * t + (a - 2.0 * b + c) * (t * t)
  {
    var x := Mix(a, b, t);
    var y := Mix(b, c, t);
    assert y - x == (b - a) + (a - 2.0 * b + c) * t;
    assert (y - x) * t == (b - a) * t + (a - 2.0 * b + c) * (t * t);
  }

  /** The cubic in power form, with coefficients `a`, `k1`, `k2`, `k3`. */
  function Power(a: real, k1: real, k2: real, k3: real, t: real): real {
    a + k1 * t + k2 * (t * t) + k3 * (t * t * t)
  }

  lemma CubicPowerForm(a: real, b: real, c: real, d: real, t: real)
    ensures CubicAt(a, b, c, d, t)
         == Power(a, 3.0 * (b - a), 3.0 * (a - 2.0 * b + c), d - 3.0 * c + 3.0 * b - a, t)
  {
    QuadPowerForm(a, b, c, t);
    QuadPowerForm(b, c, d, t);
    var x := QuadAt(a, b, c, t);
    var y := QuadAt(b, c, d, t);
    assert y - x == (b - a) + 2.0 * (a - 2.0 * b + c) * t + (d - 3.0 * c + 3.0 * b - a) * (t * t);
    assert (y - x) * t == (b - a) * t + 2.0 * (a - 2.0 * b + c) * (t * t) + (d - 3.0 * c + 3.0 * b - a) * (t * t * t);
  }

  /** `CubicPowerForm` with the power coefficients named. */
  lemma CubicPowerCoeffs(a: real, b: real, c: real, d: real, t: real, k1: real, k2: real, k3: real)
    requires k1 == 3.0 * (b - a) && k2 == 3.0 * (a - 2.0 * b + c) && k3 == d - 3.0 * c + 3.0 * b - a
    ensures CubicAt(a, b, c, d, t) == Power(a, k1, k2, k3, t)
  {
    CubicPowerForm(a, b, c, d, t);
  }

  lemma PowerRescale(a: real, k1: real, k2: real, k3: real, t: real, s: real)
    ensures Power(a, k1 * t, k2 * (t * t), k3 * (t * t * t), s) == Power(a, k1, k2, k3, t * s)
  {
  }

  /** A cubic whose control points are placed as the power coefficients dictate. */
  lemma CubicFromPower(a: real, b: real, c: real, d: real, k1: real, k2: real, k3: real, s: real)
    requires 3.0 * b == 3.0 * a + k1
    requires 3.0 * c == 3.0 * a + 2.0 * k1 + k2
    requires d == a + k1 + k2 + k3
    ensures CubicAt(a, b, c, d, s) == Power(a, k1, k2, k3, s)
  {
    CubicPowerForm(a, b, c, d, s);
    assert 3.0 * (b - a) == k1;
    assert 3.0 * (a - 2.0 * b + c) == k2;
    assert d - 3.0 * c + 3.0 * b - a == k3;
  }

  /** The inner control points of the first half of a cubic split at `t`, in power-coefficient terms. */
  lemma FirstHalfCoefficients(a: real, b: real, c: real, t: real, k1: real, k2: real)
    requires k1 == 3.0 * (b - a) && k2 == 3.0 * (a - 2.0 * b + c)
    ensures 3.0 * Mix(a, b, t) == 3.0 * a + k1 * t
    ensures 3.0 * QuadAt(a, b, c, t) == 3.0 * a + 2.0 * (k1 * t) + k2 * (t * t)
  {
    QuadPowerForm(a, b, c, t);
    var m := (b - a) * t;
    var q := (a - 2.0 * b + c) * (t * t);
    assert k1 * t == 3.0 * m;
    assert k2 * (t * t) == 3.0 * q;
  }

  /** The first half of a cubic split at `t`, run over `[0, 1]`, traces the original over `[0, t]`. */
  lemma CubicAtFirstHalf(a: real, b: real, c: real, d: real, t: real, s: real, r: real)
    requires r == t * s
    ensures CubicAt(a, Mix(a, b, t), QuadAt(a, b, c, t), CubicAt(a, b, c, d, t), s)
         == CubicAt(a, b, c, d, r)
  {
    var k1, k2, k3 := 3.0 * (b - a), 3.0 * (a - 2.0 * b + c), d - 3.0 * c + 3.0 * b - a;
    FirstHalfCoefficients(a, b, c, t, k1, k2);
    CubicPowerCoeffs(a, b, c, d, t, k1, k2, k3);
    CubicFromPower(a, Mix(a, b, t), QuadAt(a, b, c, t), CubicAt(a, b, c, d, t),
                   k1 * t, k2 * (t * t), k3 * (t * t * t), s);
    PowerRescale(a, k1, k2, k3, t, s);
    CubicPowerCoeffs(a, b, c, d, r, k1, k2, k3);
  }

  lemma MixReversed(x: real, y: real, t: real)
    ensures Mix(x, y, t) == Mix(y, x, 1.0 - t)
  {
  }

  /** A cubic run backwards over its reversed control points is the same curve. */
  lemma CubicAtReversed(a: real, b: real, c: real, d: real, t: real)
    ensures CubicAt(a, b, c, d, t) == CubicAt(d, c, b, a, 1.0 - t)
  {
    MixReversed(a, b, t);
    MixReversed(b, c, t);
    MixReversed(c, d, t);
    MixReversed(Mix(a, b, t), Mix(b, c, t), t);
    MixReversed(Mix(b, c, t), Mix(c, d, t), t);
    MixReversed(QuadAt(a, b, c, t), QuadAt(b, c, d, t), t);
  }

  /** The second half of a cubic, mirrored, is a first half of the reversed cubic. */
  lemma CubicSecondHalfMirror(a: real, b: real, c: real, d: real, t: real, s: real)
    ensures CubicAt(CubicAt(a, b, c, d, t), QuadAt(b, c, d, t), Mix(c, d, t), d, s)
         == CubicAt(d, Mix(d, c, 1.0 - t), QuadAt(d, c, b, 1.0 - t), CubicAt(d, c, b, a, 1.0 - t), 1.0 - s)
  {
    var a', b', c' := CubicAt(a, b, c, d, t), QuadAt(b, c, d, t), Mix(c, d, t);
    CubicAtReversed(a, b, c, d, t);
    QuadAtReversed(b, c, d, t);
    MixReversed(c, d, t);
    CubicAtReversed(a', b', c', d, s);
  }

  /** Running the second half of `[0, 1]` split at `t` backwards from its end. */
  lemma SecondHalfParam(t: real, s: real)
    ensures (1.0 - t) * (1.0 - s) == 1.0 - (t + (1.0 - t) * s)
  {
  }

  /** The second half of a cubic is the reversed cubic near its start. */
  lemma CubicSecondHalfReversed(a: real, b: real, c: real, d: real, t: real, s: real, r: real)
    requires r == (1.0 - t) * (1.0 - s)
    ensures CubicAt(CubicAt(a, b, c, d, t), QuadAt(b, c, d, t), Mix(c, d, t), d, s) == CubicAt(d, c, b, a, r)
  {
    CubicSecondHalfMirror(a, b, c, d, t, s);
    CubicAtFirstHalf(d, c, b, a, 1.0 - t, 1.0 - s, r);
  }

  lemma CubicAtSecondHalf(a: real, b: real, c: real, d: real, t: real, s: real)
    ensures CubicAt(CubicAt(a, b, c, d, t), QuadAt(b, c, d, t), Mix(c, d, t), d, s)
         == CubicAt(a, b, c, d, t + (1.0 - t) * s)
  {
    SecondHalfParam(t, s);
    CubicSecondHalfReversed(a, b, c, d, t, s, 1.0 - (t + (1.0 - t) * s));
    CubicAtReversed(a, b, c, d, t + (1.0 - t) * s);
  }

  /** The quadratic in power form, with coefficients `a`, `k1`, `k2`. */
  function QuadPower(a: real, k1: real, k2: real, t: real): real {
    a + k1 * t + k2 * (t * t)
  }

  lemma QuadPowerCoeffs(a: real, b: real, c: real, t: real, k1: real, k2: real)
    requires k1 == 2.0 * (b - a) && k2 == a - 2.0 * b + c
    ensures QuadAt(a, b, c, t) == QuadPower(a, k1, k2, t)
  {
    QuadPowerForm(a, b, c, t);
  }

  /** A quadratic whose control points are placed as the power coefficients dictate. */
  lemma QuadFromPower(a: real, b: real, c: real, k1: real, k2: real, s: real)
    requires 2.0 * b == 2.0 * a + k1
    requires c == a + k1 + k2
    ensures QuadAt(a, b, c, s) == QuadPower(a, k1, k2, s)
  {
    QuadPowerCoeffs(a, b, c, s, 2.0 * (b - a), a - 2.0 * b + c);
  }

  /** The inner control point of the first half of a quadratic split at `t`, in power-coefficient terms. */
  lemma QuadFirstCoefficient(a: real, b: real, t: real, k1: real)
    requires k1 == 2.0 * (b - a)
    ensures 2.0 * Mix(a, b, t) == 2.0 * a + k1 * t
  {
  }

  lemma QuadRescale(a: real, k1: real, k2: real, t: real, s: real)
    ensures QuadPower(a, k1 * t, k2 * (t * t), s) == QuadPower(a, k1, k2, t * s)
  {
  }

  lemma QuadAtFirstHalf(a: real, b: real, c: real, t: real, s: real, r: real)
    requires r == t * s
    ensures QuadAt(a, Mix(a, b, t), QuadAt(a, b, c, t), s) == QuadAt(a, b, c, r)
  {
    var k1, k2 := 2.0 * (b - a), a - 2.0 * b + c;
    QuadPowerCoeffs(a, b, c, t, k1, k2);
    QuadFirstCoefficient(a, b, t, k1);
    QuadFromPower(a, Mix(a, b, t), QuadAt(a, b, c, t), k1 * t, k2 * (t * t), s);
    QuadRescale(a, k1, k2, t, s);
    QuadPowerCoeffs(a, b, c, r, k1, k2);
  }

  lemma QuadAtReversed(a: real, b: real, c: real, t: real)
    ensures QuadAt(a, b, c, t) == QuadAt(c, b, a, 1.0 - t)
  {
    MixReversed(a, b, t);
    MixReversed(b, c, t);
    MixReversed(Mix(a, b, t), Mix(b, c, t), t);
  }

  /** The second half of a quadratic, mirrored, is a first half of the reversed quadratic. */
  lemma QuadSecondHalfMirror(a: real, b: real, c: real, t: real, s: real)
    ensures QuadAt(QuadAt(a, b, c, t), Mix(b, c, t), c, s)
         == QuadAt(c, Mix(c, b, 1.0 - t), QuadAt(c, b, a, 1.0 - t), 1.0 - s)
  {
    MixReversed(b, c, t);
    QuadAtReversed(a, b, c, t);
    QuadAtReversed(QuadAt(a, b, c, t), Mix(b, c, t), c, s);
  }

  /** The second half of a quadratic is the reversed quadratic near its start. */
  lemma QuadSecondHalfReversed(a: real, b: real, c: real, t: real, s: real, r: real)
    requires r == (1.0 - t) * (1.0 - s)
    ensures QuadAt(QuadAt(a, b, c, t), Mix(b, c, t), c, s) == QuadAt(c, b, a, r)
  {
    QuadSecondHalfMirror(a, b, c, t, s);
    QuadAtFirstHalf(c, b, a, 1.0 - t, 1.0 - s, r);
  }

  lemma QuadAtSecondHalf(a: real, b: real, c: real, t: real, s: real)
    ensures QuadAt(QuadAt(a, b, c, t), Mix(b, c, t), c, s) == QuadAt(a, b, c, t + (1.0 - t) * s)
  {
    SecondHalfParam(t, s);
    QuadSecondHalfReversed(a, b, c, t, s, 1.0 - (t + (1.0 - t) * s));
    QuadAtReversed(a, b, c, t + (1.0 - t) * s);
  }

  /**
   * De Casteljau subdivision is exact: of the two quadratics a split at `t`
   * describes, with control points `a`, `mid` and `b`, the first traces the
   * original over `[0, t]` and the second over `[t, 1]`.
   */
  lemma QuadSplitTraces(p0: Vec, p1: Vec, p2: Vec, t: real, a: Vec, mid: Vec, b: Vec)
    requires a == Lerp(p0, p1, t) && b == Lerp(p1, p2, t) && mid == Lerp(a, b, t)
    ensures forall s :: QuadBezier(p0, a, mid, s) == QuadBezier(p0, p1, p2, t * s)
    ensures forall s :: QuadBezier(mid, b, p2, s) == QuadBezier(p0, p1, p2, t + (1.0 - t) * s)
  {
    forall s ensures QuadBezier(p0, a, mid, s) == QuadBezier(p0, p1, p2, t * s) {
      LerpCoords(p0, p1, t);
      QuadCoords(p0, p1, p2, t);
      QuadCoords(p0, a, mid, s);
      QuadCoords(p0, p1, p2, t * s);
      QuadAtFirstHalf(p0.x, p1.x, p2.x, t, s, t * s);
      QuadAtFirstHalf(p0.y, p1.y, p2.y, t, s, t * s);
    }
    forall s ensures QuadBezier(mid, b, p2, s) == QuadBezier(p0, p1, p2, t + (1.0 - t) * s) {
      LerpCoords(p1, p2, t);
      QuadCoords(p0, p1, p2, t);
      QuadCoords(mid, b, p2, s);
      QuadCoords(p0, p1, p2, t + (1.0 - t) * s);
      QuadAtSecondHalf(p0.x, p1.x, p2.x, t, s);
      QuadAtSecondHalf(p0.y, p1.y, p2.y, t, s);
    }
  }

  /** The same for the two cubics of a split at `t`, with control points `a`, `b`, `mid`, `c`, `d`. */
  lemma CubicSplitTraces(p0: Vec, p1: Vec, p2: Vec, p3: Vec, t: real, a: Vec, b: Vec, mid: Vec, c: Vec, d: Vec)
    requires a == Lerp(p0, p1, t) && d == Lerp(p2, p3, t)
    requires b == Lerp(a, Lerp(p1, p2, t), t) && c == Lerp(Lerp(p1, p2, t), d, t)
    requires mid == Lerp(b, c, t)
    ensures forall s :: CubicBezier(p0, a, b, mid, s) == CubicBezier(p0, p1, p2, p3, t * s)
    ensures forall s :: CubicBezier(mid, c, d, p3, s) == CubicBezier(p0, p1, p2, p3, t + (1.0 - t) * s)
  {
    forall s ensures CubicBezier(p0, a, b, mid, s) == CubicBezier(p0, p1, p2, p3, t * s) {
      LerpCoords(p0, p1, t);
      QuadCoords(p0, p1, p2, t);
      CubicCoords(p0, p1, p2, p3, t);
      CubicCoords(p0, a, b, mid, s);
      CubicCoords(p0, p1, p2, p3, t * s);
      CubicAtFirstHalf(p0.x, p1.x, p2.x, p3.x, t, s, t * s);
      CubicAtFirstHalf(p0.y, p1.y, p2.y, p3.y, t, s, t * s);
    }
    forall s ensures CubicBezier(mid, c, d, p3, s) == CubicBezier(p0, p1, p2, p3, t + (1.0 - t) * s) {
      LerpCoords(p2, p3, t);
      QuadCoords(p1, p2, p3, t);
      CubicCoords(p0, p1, p2, p3, t);
      CubicCoords(mid, c, d, p3, s);
      CubicCoords(p0, p1, p2, p3, t + (1.0 - t) * s);
      CubicAtSecondHalf(p0.x, p1.x, p2.x, p3.x, t, s);
      CubicAtSecondHalf(p0.y, p1.y, p2.y, p3.y, t, s);
    }
  }
}
