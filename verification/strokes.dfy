/**
 * Stroke properties and the geometry generators of the stroker
 * (crates/ori-core/src/canvas/stroke.rs): exact line offsets, Bézier
 * offsets by recursive subdivision, joins and caps. Each generator returns
 * the commands it appends to the `Curve` it is called on.
 */
module Strokes {
  import opened Geometry
  import opened Curves

  // ---------------------------------------------------------------------
  // Stroke properties
  // ---------------------------------------------------------------------

  /** Ways to draw the end of a line. */
  datatype LineCap = Butt | Round | Square

  /** Ways to join two lines. */
  datatype LineJoin = Miter | Round | Bevel

  /** Properties of a stroke. */
  datatype Stroke = Stroke(width: real, miter: real, cap: LineCap, join: LineJoin)

  /** `Stroke::default()`: width 1, miter limit 4, butt caps, miter joins. */
  function DefaultStroke(): (s: Stroke)
    ensures s.width == 1.0 && s.miter == 4.0
    ensures s.cap == Butt && s.join == Miter
  {
    Stroke(1.0, 4.0, Butt, Miter)
  }

  /** `Stroke::from(width)`: the default stroke with the given width. */
  function StrokeFromWidth(width: real): (s: Stroke)
    ensures s.width == width
    ensures s.(width := DefaultStroke().width) == DefaultStroke()
  {
    DefaultStroke().(width := width)
  }

  /**
   * What `Hash for Stroke` feeds to the hasher: the bit patterns of the two
   * floats (`to_bits`, a parameter here), then the cap and the join.
   */
  function HashInput(s: Stroke, toBits: real -> bv32): (bv32, bv32, LineCap, LineJoin) {
    (toBits(s.width), toBits(s.miter), s.cap, s.join)
  }

  /**
   * Hashing by bit pattern tells strokes apart exactly: where `to_bits`
   * tells their widths and their miter limits apart, two strokes feed the
   * hasher the same input if and only if they are equal.
   */
  lemma HashInputExact(a: Stroke, b: Stroke, toBits: real -> bv32)
    requires toBits(a.width) == toBits(b.width) ==> a.width == b.width
    requires toBits(a.miter) == toBits(b.miter) ==> a.miter == b.miter
    ensures HashInput(a, toBits) == HashInput(b, toBits) <==> a == b
  {
    if HashInput(a, toBits) == HashInput(b, toBits) {
      assert toBits(a.width) == toBits(b.width);
      assert toBits(a.miter) == toBits(b.miter);
    }
  }

  // ---------------------------------------------------------------------
  // Offsets
  // ---------------------------------------------------------------------

  const MAX_ERROR: real := 1.0
  const MAX_DEPTH: nat := 6

  function Pow2(n: nat): (r: nat)
    ensures r >= 1
  {
    if n == 0 then 1 else 2 * Pow2(n - 1)
  }

  /** The commands of `cs` end at `p`: the last one is an edge to `p`. */
  ghost predicate EndsAt(cs: seq<Cmd>, p: Vec) {
    |cs| > 0 && cs[|cs| - 1].Edge() && cs[|cs| - 1].p == p
  }

  /**
   * The offset of a straight segment is exact: one line whose end lies on
   * the offset of `p1`, so that, drawn from the offset of `p0`, it is the
   * segment itself translated along the normal.
   */
  function OffsetLine(g: Ops, p0: Vec, p1: Vec, offset: real): (r: seq<Cmd>)
    ensures |r| == 1 && r[0].LineTo?
    ensures Sub(r[0].p, Add(p0, Scale(LineNormal(g, p0, p1), offset))) == Sub(p1, p0)
  {
    var normal := LineNormal(g, p0, p1);
    [LineTo(Add(p1, Scale(normal, offset)))]
  }

  /** The depth measure of the Bézier offset recursion. */
  function DepthLeft(depth: nat): nat {
    if depth < MAX_DEPTH then MAX_DEPTH - depth else 0
  }

  /**
   * The recursion both Bézier offsets share: emit the candidate for curve
   * `c` when it `accepts` or the depth limit is reached, otherwise `split`
   * `c` and offset both halves one level deeper.
   */
  function Subdivide<C>(accepts: C -> bool, leaf: C -> Cmd, split: C -> (C, C), c: C, depth: nat)
    : (r: seq<Cmd>)
    ensures 1 <= |r|
    ensures depth <= MAX_DEPTH ==> |r| <= Pow2(MAX_DEPTH - depth)
    ensures depth >= MAX_DEPTH ==> r == [leaf(c)]
    decreases DepthLeft(depth)
  {
    if accepts(c) || depth >= MAX_DEPTH then
      [leaf(c)]
    else
      var halves := split(c);
      Subdivide(accepts, leaf, split, halves.0, depth + 1) + Subdivide(accepts, leaf, split, halves.1, depth + 1)
  }

  /** Every emitted command is the candidate of some piece of the curve. */
  lemma {:induction false} SubdivideEmitsLeaves<C>(
    accepts: C -> bool, leaf: C -> Cmd, split: C -> (C, C), c: C, depth: nat, P: Cmd -> bool)
    requires forall x :: P(leaf(x))
    ensures forall i :: 0 <= i < |Subdivide(accepts, leaf, split, c, depth)| ==>
      P(Subdivide(accepts, leaf, split, c, depth)[i])
    decreases DepthLeft(depth)
  {
    if !(accepts(c) || depth >= MAX_DEPTH) {
      var halves := split(c);
      SubdivideEmitsLeaves(accepts, leaf, split, halves.0, depth + 1, P);
      SubdivideEmitsLeaves(accepts, leaf, split, halves.1, depth + 1, P);
    }
  }

  /** A rejected piece above the depth limit is split, and its halves' commands are emitted in order. */
  lemma SubdivideSplits<C>(accepts: C -> bool, leaf: C -> Cmd, split: C -> (C, C), c: C, depth: nat)
    requires !accepts(c) && depth < MAX_DEPTH
    ensures Subdivide(accepts, leaf, split, c, depth)
         == Subdivide(accepts, leaf, split, split(c).0, depth + 1) + Subdivide(accepts, leaf, split, split(c).1, depth + 1)
  {
  }

  /** A rejected piece whose halves each emit a full level's commands emits twice that many. */
  lemma SubdivideDoubles<C>(accepts: C -> bool, leaf: C -> Cmd, split: C -> (C, C), c: C, depth: nat)
    requires !accepts(c) && depth < MAX_DEPTH
    requires |Subdivide(accepts, leaf, split, split(c).0, depth + 1)| == Pow2(MAX_DEPTH - (depth + 1))
    requires |Subdivide(accepts, leaf, split, split(c).1, depth + 1)| == Pow2(MAX_DEPTH - (depth + 1))
    ensures |Subdivide(accepts, leaf, split, c, depth)| == Pow2(MAX_DEPTH - depth)
  {
    SubdivideSplits(accepts, leaf, split, c, depth);
    assert Pow2(MAX_DEPTH - depth) == 2 * Pow2(MAX_DEPTH - (depth + 1));
  }

  /** When no piece is ever accepted the recursion runs to the depth limit everywhere. */
  lemma {:induction false} SubdivideRejectingIsFull<C>(
    accepts: C -> bool, leaf: C -> Cmd, split: C -> (C, C), c: C, depth: nat)
    requires forall x :: !accepts(x)
    requires depth <= MAX_DEPTH
    ensures |Subdivide(accepts, leaf, split, c, depth)| == Pow2(MAX_DEPTH - depth)
    decreases MAX_DEPTH - depth, 1
  {
    if depth < MAX_DEPTH {
      SubdivideRejectingHalves(accepts, leaf, split, c, depth, split(c));
    } else {
      assert Subdivide(accepts, leaf, split, c, depth) == [leaf(c)];
    }
  }

  /** The inductive step: both halves of a rejected piece emit a full level's commands. */
  lemma {:induction false} SubdivideRejectingHalves<C>(
    accepts: C -> bool, leaf: C -> Cmd, split: C -> (C, C), c: C, depth: nat, halves: (C, C))
    requires forall x :: !accepts(x)
    requires depth < MAX_DEPTH && halves == split(c)
    ensures |Subdivide(accepts, leaf, split, c, depth)| == Pow2(MAX_DEPTH - depth)
    decreases MAX_DEPTH - depth, 0
  {
    SubdivideRejectingIsFull(accepts, leaf, split, halves.0, depth + 1);
    SubdivideRejectingIsFull(accepts, leaf, split, halves.1, depth + 1);
    SubdivideDoubles(accepts, leaf, split, c, depth);
  }

  // The quadratic offset

  datatype QuadCurve = QuadCurve(p0: Vec, p1: Vec, p2: Vec)

  /** The control and end points displaced along the normals sampled at 0, 1/2 and 1. */
  function QuadCandidate(g: Ops, c: QuadCurve, offset: real): (Vec, Vec, Vec) {
    (Add(c.p0, Scale(QuadNormal(g, c.p0, c.p1, c.p2, 0.0), offset)),
     Add(c.p1, Scale(QuadNormal(g, c.p0, c.p1, c.p2, 0.5), offset)),
     Add(c.p2, Scale(QuadNormal(g, c.p0, c.p1, c.p2, 1.0), offset)))
  }

  /**
   * The candidate's midpoint lies within `MAX_ERROR` of the true midpoint
   * displaced along the start normal.
   */
  predicate QuadAccepts(g: Ops, c: QuadCurve, offset: real) {
    var op := QuadCandidate(g, c, offset);
    var realCenter := Add(QuadBezier(c.p0, c.p1, c.p2, 0.5), Scale(QuadNormal(g, c.p0, c.p1, c.p2, 0.0), offset));
    var center := QuadBezier(op.0, op.1, op.2, 0.5);
    g.length(Sub(center, realCenter)) < MAX_ERROR
  }

  function QuadLeaf(g: Ops, c: QuadCurve, offset: real): Cmd {
    var op := QuadCandidate(g, c, offset);
    QuadTo(op.1, op.2)
  }

  /** The two halves of the curve split at 1/2. */
  function QuadSplit(c: QuadCurve): (QuadCurve, QuadCurve) {
    var d := DivideQuad(c.p0, c.p1, c.p2, 0.5);
    (QuadCurve(c.p0, d.0, d.1), QuadCurve(d.1, d.2, c.p2))
  }

  /**
   * Offset of a quadratic: accept the displaced candidate when its midpoint
   * is within `MAX_ERROR` of the true offset midpoint, otherwise split at
   * 1/2, down to depth `MAX_DEPTH`.
   */
  function OffsetQuad(g: Ops, p0: Vec, p1: Vec, p2: Vec, offset: real, depth: nat): (r: seq<Cmd>)
    ensures 1 <= |r|
    ensures forall i :: 0 <= i < |r| ==> r[i].QuadTo?
    ensures depth <= MAX_DEPTH ==> |r| <= Pow2(MAX_DEPTH - depth)
    ensures depth >= MAX_DEPTH ==> |r| == 1
  {
    var accepts := c => QuadAccepts(g, c, offset);
    var leaf := c => QuadLeaf(g, c, offset);
    SubdivideEmitsLeaves(accepts, leaf, QuadSplit, QuadCurve(p0, p1, p2), depth, (cmd: Cmd) => cmd.QuadTo?);
    Subdivide(accepts, leaf, QuadSplit, QuadCurve(p0, p1, p2), depth)
  }

  // The cubic offset

  datatype CubicCurve = CubicCurve(p0: Vec, p1: Vec, p2: Vec, p3: Vec)

  /** The control and end points displaced along the normals sampled at 0, 1/3, 2/3 and 1. */
  function CubicCandidate(g: Ops, c: CubicCurve, offset: real): (Vec, Vec, Vec, Vec) {
    (Add(c.p0, Scale(CubicNormal(g, c.p0, c.p1, c.p2, c.p3, 0.0), offset)),
     Add(c.p1, Scale(CubicNormal(g, c.p0, c.p1, c.p2, c.p3, 1.0 / 3.0), offset)),
     Add(c.p2, Scale(CubicNormal(g, c.p0, c.p1, c.p2, c.p3, 2.0 / 3.0), offset)),
     Add(c.p3, Scale(CubicNormal(g, c.p0, c.p1, c.p2, c.p3, 1.0), offset)))
  }

  /**
   * The candidate's point at 1/3 lies within `offset * MAX_ERROR` of the
   * true point at 1/3 displaced along the start normal. Unlike the
   * quadratic test the tolerance scales with the signed offset.
   */
  predicate CubicAccepts(g: Ops, c: CubicCurve, offset: real) {
    var op := CubicCandidate(g, c, offset);
    var realCenter := Add(CubicBezier(c.p0, c.p1, c.p2, c.p3, 1.0 / 3.0),
                          Scale(CubicNormal(g, c.p0, c.p1, c.p2, c.p3, 0.0), offset));
    var center := CubicBezier(op.0, op.1, op.2, op.3, 1.0 / 3.0);
    g.length(Sub(center, realCenter)) < offset * MAX_ERROR
  }

  function CubicLeaf(g: Ops, c: CubicCurve, offset: real): Cmd {
    var op := CubicCandidate(g, c, offset);
    CubicTo(op.1, op.2, op.3)
  }

  /** The two pieces of the curve split at 1/3. */
  function CubicSplit(c: CubicCurve): (CubicCurve, CubicCurve) {
    var d := DivideCubic(c.p0, c.p1, c.p2, c.p3, 1.0 / 3.0);
    (CubicCurve(c.p0, d.0, d.1, d.2), CubicCurve(d.2, d.3, d.4, c.p3))
  }

  /** Offset of a cubic, as for the quadratic but sampling at thirds and splitting at 1/3. */
  function OffsetCubic(g: Ops, p0: Vec, p1: Vec, p2: Vec, p3: Vec, offset: real, depth: nat): (r: seq<Cmd>)
    ensures 1 <= |r|
    ensures forall i :: 0 <= i < |r| ==> r[i].CubicTo?
    ensures depth <= MAX_DEPTH ==> |r| <= Pow2(MAX_DEPTH - depth)
    ensures depth >= MAX_DEPTH ==> |r| == 1
  {
    var accepts := c => CubicAccepts(g, c, offset);
    var leaf := c => CubicLeaf(g, c, offset);
    SubdivideEmitsLeaves(accepts, leaf, CubicSplit, CubicCurve(p0, p1, p2, p3), depth, (cmd: Cmd) => cmd.CubicTo?);
    Subdivide(accepts, leaf, CubicSplit, CubicCurve(p0, p1, p2, p3), depth)
  }

  /**
   * On the side with a non-positive offset (the stroker's `-r` side) the
   * cubic error test can never pass, since a length is never negative: the
   * recursion always runs to the depth limit, emitting exactly
   * `2^(MAX_DEPTH - depth)` cubics, 64 from the stroker's depth 0.
   */
  lemma OffsetCubicNonPositiveIsFullDepth(
    g: Ops, p0: Vec, p1: Vec, p2: Vec, p3: Vec, offset: real, depth: nat)
    requires g.Valid()
    requires offset <= 0.0 && depth <= MAX_DEPTH
    ensures |OffsetCubic(g, p0, p1, p2, p3, offset, depth)| == Pow2(MAX_DEPTH - depth)
  {
    var accepts := c => CubicAccepts(g, c, offset);
    forall c: CubicCurve
      ensures !accepts(c)
    {
      var op := CubicCandidate(g, c, offset);
      var realCenter := Add(CubicBezier(c.p0, c.p1, c.p2, c.p3, 1.0 / 3.0),
                            Scale(CubicNormal(g, c.p0, c.p1, c.p2, c.p3, 0.0), offset));
      var center := CubicBezier(op.0, op.1, op.2, op.3, 1.0 / 3.0);
      assert g.length(Sub(center, realCenter)) >= 0.0;
    }
    SubdivideRejectingIsFull(accepts, c => CubicLeaf(g, c, offset), CubicSplit, CubicCurve(p0, p1, p2, p3), depth);
  }

  /** From the stroker's depth 0, at most 64 pieces; exactly 64 on the non-positive side. */
  lemma OffsetPieceCounts(g: Ops, p0: Vec, p1: Vec, p2: Vec, p3: Vec, offset: real)
    requires g.Valid()
    ensures 1 <= |OffsetQuad(g, p0, p1, p2, offset, 0)| <= 64
    ensures 1 <= |OffsetCubic(g, p0, p1, p2, p3, offset, 0)| <= 64
    ensures offset <= 0.0 ==> |OffsetCubic(g, p0, p1, p2, p3, offset, 0)| == 64
  {
    assert Pow2(MAX_DEPTH - 0) == 64;
    if offset <= 0.0 {
      OffsetCubicNonPositiveIsFullDepth(g, p0, p1, p2, p3, offset, 0);
    }
  }

  // ---------------------------------------------------------------------
  // Joins
  // ---------------------------------------------------------------------

  /** A bevel: straight to the offset of the pivot along the outgoing normal. */
  function StrokeBevel(pivot: Vec, n1: Vec, r: real): (res: seq<Cmd>)
    ensures |res| == 1 && res[0].LineTo?
    ensures EndsAt(res, Add(pivot, Scale(n1, r)))
  {
    [LineTo(Add(pivot, Scale(n1, r)))]
  }

  /** The unit bisector of the two normals. */
  function MiterDirection(g: Ops, n0: Vec, n1: Vec): Vec {
    g.normalize(Add(n0, n1))
  }

  /** The miter ratio `1 / amount` reaches the limit: the miter falls back to a bevel. */
  predicate MiterFallsBack(g: Ops, n0: Vec, n1: Vec, limit: real) {
    g.quot(1.0, Dot(MiterDirection(g, n0, n1), n1)) >= limit
  }

  /** A miter: to the apex on the bisector, then to the outgoing offset point. */
  function StrokeMiter(g: Ops, pivot: Vec, n0: Vec, n1: Vec, r: real, limit: real): (res: seq<Cmd>)
    ensures res == StrokeBevel(pivot, n1, r) <==> MiterFallsBack(g, n0, n1, limit)
    ensures !MiterFallsBack(g, n0, n1, limit) ==>
      |res| == 2 && res[0].LineTo? && res[1].LineTo?
    ensures EndsAt(res, Add(pivot, Scale(n1, r)))
  {
    var miter := MiterDirection(g, n0, n1);
    var amount := Dot(miter, n1);
    if g.quot(1.0, amount) >= limit then
      StrokeBevel(pivot, n1, r)
    else
      var apex := Add(pivot, g.DivVec(Scale(miter, r), amount));
      [LineTo(apex), LineTo(Add(pivot, Scale(n1, r)))]
  }

  /** The miter apex lies on the bisector at distance `r / amount` from the pivot (for `amount != 0`). */
  lemma MiterApexOnBisector(g: Ops, pivot: Vec, n0: Vec, n1: Vec, r: real, limit: real)
    requires g.Valid()
    requires !MiterFallsBack(g, n0, n1, limit)
    requires Dot(MiterDirection(g, n0, n1), n1) != 0.0
    ensures var amount := Dot(MiterDirection(g, n0, n1), n1);
      StrokeMiter(g, pivot, n0, n1, r, limit)[0].p
        == Add(pivot, Scale(MiterDirection(g, n0, n1), r / amount))
  {
    var m := MiterDirection(g, n0, n1);
    var amount := Dot(m, n1);
    assert g.quot(m.x * r, amount) == (m.x * r) / amount;
    assert g.quot(m.y * r, amount) == (m.y * r) / amount;
  }

  /** The cosine of half the turn angle, the weight of the round join's conics. */
  function HalfAngleCos(g: Ops, n0: Vec, n1: Vec): real {
    var nmid := g.normalize(Add(n0, n1));
    g.sqrt((1.0 + Dot(n0, nmid)) / 2.0)
  }

  /** A round join: two conics through the offset of the pivot along the bisector. */
  function StrokeRound(g: Ops, pivot: Vec, n0: Vec, n1: Vec, r: real): (res: seq<Cmd>)
    ensures |res| == 2 && res[0].ConicTo? && res[1].ConicTo?
    ensures res[0].w == res[1].w == HalfAngleCos(g, n0, n1)
    ensures res[0].p == Add(pivot, Scale(g.normalize(Add(n0, n1)), r))
    ensures EndsAt(res, Add(pivot, Scale(n1, r)))
  {
    var p1 := Add(pivot, Scale(n1, r));
    var nmid := g.normalize(Add(n0, n1));
    var mid := Add(pivot, Scale(nmid, r));
    var dot := Dot(n0, nmid);
    var cosHalf := g.sqrt((1.0 + dot) / 2.0);
    var invCosHalf := g.quot(1.0, cosHalf);
    var c0 := Add(pivot, Scale(Scale(g.normalize(Add(n0, nmid)), r), invCosHalf));
    var c1 := Add(pivot, Scale(Scale(g.normalize(Add(n1, nmid)), r), invCosHalf));
    [ConicTo(c0, mid, cosHalf), ConicTo(c1, p1, cosHalf)]
  }

  /** The corner lies on the inner side of this offset: no join geometry is drawn. */
  predicate InnerCorner(n0: Vec, n1: Vec, r: real) {
    Cross(n0, n1) * r > 0.0
  }

  /**
   * The join at `pivot` between a segment leaving with normal `n0` and one
   * arriving with `n1`, on the side offset by `r`.
   */
  function StrokeJoin(g: Ops, pivot: Vec, n0: Vec, n1: Vec, r: real, join: LineJoin, limit: real)
    : (res: seq<Cmd>)
    ensures 1 <= |res| <= 2 && AllEdges(res)
    ensures EndsAt(res, Add(pivot, Scale(n1, r)))
    ensures InnerCorner(n0, n1, r) ==> res == [LineTo(Add(pivot, Scale(n1, r)))]
  {
    if InnerCorner(n0, n1, r) then
      [LineTo(Add(pivot, Scale(n1, r)))]
    else
      match join
      case Miter => StrokeMiter(g, pivot, n0, n1, r, limit)
      case Round => StrokeRound(g, pivot, n0, n1, r)
      case Bevel => StrokeBevel(pivot, n1, r)
  }

  /**
   * On the inner side every join style emits the same single line; on the
   * outer side a miter join is the bevel join exactly when the miter ratio
   * reaches the limit.
   */
  lemma JoinStylesAgree(g: Ops, pivot: Vec, n0: Vec, n1: Vec, r: real, limit: real)
    ensures InnerCorner(n0, n1, r) ==>
      && StrokeJoin(g, pivot, n0, n1, r, Miter, limit) == StrokeJoin(g, pivot, n0, n1, r, Bevel, limit)
      && StrokeJoin(g, pivot, n0, n1, r, LineJoin.Round, limit) == StrokeJoin(g, pivot, n0, n1, r, Bevel, limit)
    ensures !InnerCorner(n0, n1, r) ==>
      (StrokeJoin(g, pivot, n0, n1, r, Miter, limit) == StrokeJoin(g, pivot, n0, n1, r, Bevel, limit)
       <==> MiterFallsBack(g, n0, n1, limit))
  {
  }

  // ---------------------------------------------------------------------
  // Caps
  // ---------------------------------------------------------------------

  /**
   * The cap at `p`, drawn from the offset point `p - n*r` round to
   * `p + n*r`, bulging along the tangent `t`.
   */
  function StrokeLineCap(p: Vec, n: Vec, t: Vec, stroke: Stroke): (res: seq<Cmd>)
    ensures AllEdges(res)
    ensures EndsAt(res, Add(p, Scale(n, stroke.width / 2.0)))
    ensures stroke.cap == Butt ==> |res| == 1 && res[0].LineTo?
    ensures stroke.cap == LineCap.Round ==>
      && |res| == 2 && res[0].CubicTo? && res[1].CubicTo?
      && res[0].p == Add(p, Scale(t, stroke.width / 2.0))
    ensures stroke.cap == Square ==>
      && |res| == 3 && res[0].LineTo? && res[1].LineTo? && res[2].LineTo?
      && Sub(res[0].p, Sub(p, Scale(n, stroke.width / 2.0))) == Scale(t, stroke.width / 2.0)
      && Sub(res[1].p, Add(p, Scale(n, stroke.width / 2.0))) == Scale(t, stroke.width / 2.0)
  {
    var r := stroke.width / 2.0;
    match stroke.cap
    case Butt =>
      [LineTo(Add(p, Scale(n, r)))]
    case Round =>
      var p0 := Sub(p, Scale(n, r));
      var p1 := Add(p, Scale(n, r));
      var th := Scale(Scale(t, r), 0.55);
      var nh := Scale(Scale(n, r), 0.55);
      var c := Add(p, Scale(t, r));
      [CubicTo(Add(p0, th), Sub(c, nh), c), CubicTo(Add(c, nh), Add(p1, th), p1)]
    case Square =>
      var p0 := Sub(p, Scale(n, r));
      var p1 := Add(p, Scale(n, r));
      var hat := Scale(t, r);
      [LineTo(Add(p0, hat)), LineTo(Add(p1, hat)), LineTo(p1)]
  }
}
