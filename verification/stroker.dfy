/**
 * The stroke orchestrator, `Curve::stroke_impl`
 * (crates/ori-core/src/canvas/stroke.rs): one pass over the input path,
 * threading the current point `p0`, the incoming normal `n0` and the
 * subpath anchor `first`, and emitting into two accumulators: the output
 * (offset by `+r`) and `outside` (offset by `-r`).
 */
module Stroker {
  import opened Wrappers
  import opened Geometry
  import opened Curves
  import opened Strokes

  /** The walk state of `stroke_impl` together with both accumulators. */
  datatype Walk = Walk(
    p0: Vec,
    n0: Option<Vec>,
    first: Option<(Vec, Vec)>,
    out: seq<Cmd>,
    outside: seq<Cmd>)

  /** The state before the first segment: note the current point is the origin. */
  const Start: Walk := Walk(ZERO, None, None, [], [])

  // ---------------------------------------------------------------------
  // Per-segment geometry
  // ---------------------------------------------------------------------

  /** The normal at the start of drawing segment `seg` leaving `p0`. */
  function StartNormal(g: Ops, p0: Vec, seg: Segment): Vec
    requires seg.Draws()
  {
    match seg
    case Line(p1) => LineNormal(g, p0, p1)
    case Quad(p1, p2) => QuadNormal(g, p0, p1, p2, 0.0)
    case Cubic(p1, p2, p3) => CubicNormal(g, p0, p1, p2, p3, 0.0)
  }

  /** The normal recorded as `n0` after drawing `seg` from `p0`. */
  function EndNormal(g: Ops, p0: Vec, seg: Segment): Vec
    requires seg.Draws()
  {
    match seg
    case Line(p1) => LineNormal(g, p0, p1)
    case Quad(p1, p2) => QuadNormal(g, p0, p1, p2, 1.0)
    case Cubic(p1, p2, p3) => CubicNormal(g, p0, p1, p2, p3, 1.0)
  }

  /** Where drawing segment `seg` ends. */
  function EndPoint(seg: Segment): Vec
    requires seg.Draws()
  {
    match seg
    case Line(p1) => p1
    case Quad(_, p2) => p2
    case Cubic(_, _, p3) => p3
  }

  /**
   * The offset of `seg` from `p0`, at depth 0 for curves: what the match
   * arm of a drawing segment emits after its join. `Move` and `Close`
   * have no offset.
   */
  function Offset(g: Ops, p0: Vec, seg: Segment, offset: real): (r: seq<Cmd>)
    ensures AllEdges(r)
    ensures seg.Draws() <==> 1 <= |r|
  {
    match seg
    case Line(p1) => OffsetLine(g, p0, p1, offset)
    case Quad(p1, p2) => OffsetQuad(g, p0, p1, p2, offset, 0)
    case Cubic(p1, p2, p3) => OffsetCubic(g, p0, p1, p2, p3, offset, 0)
    case _ => []
  }

  /** `segment_normal`: the normal of `seg` at `t`, sampled from the point `p0` given. */
  function SegmentNormal(g: Ops, seg: Segment, p0: Vec, t: real): (n: Option<Vec>)
    ensures n.Some? <==> seg.Draws()
  {
    match seg
    case Move(_) => None
    case Line(p) => Some(LineNormal(g, p0, p))
    case Quad(p1, p2) => Some(QuadNormal(g, p0, p1, p2, t))
    case Cubic(p1, p2, p3) => Some(CubicNormal(g, p0, p1, p2, p3, t))
    case Close => None
  }

  // ---------------------------------------------------------------------
  // The pen: the stroke's emitters, bound to the geometry and the stroke
  // ---------------------------------------------------------------------

  /**
   * What the walk draws with: the half width `r`, and the join, offset and
   * cap emitters of `stroke.rs` as function values, already bound to the
   * stroke's join, miter limit and cap. Keeping them as values lets the
   * walk's properties rest on what the emitters promise (`EdgesOnly`)
   * rather than on their geometry.
   */
  datatype Pen = Pen(
    g: Ops,
    r: real,
    join: (Vec, Vec, Vec, real) -> seq<Cmd>,
    offset: (Vec, Segment, real) -> seq<Cmd>,
    cap: (Vec, Vec, Vec) -> seq<Cmd>)
  {
    /** Every emitter continues the current contour with edges only. */
    ghost predicate EdgesOnly() {
      && (forall pivot, n0, n1, r :: AllEdges(join(pivot, n0, n1, r)))
      && (forall p0, seg, off :: AllEdges(offset(p0, seg, off)))
      && (forall p, n, t :: AllEdges(cap(p, n, t)))
    }
  }

  /** The pen of `stroke_impl` for `stroke`. */
  function PenFor(g: Ops, stroke: Stroke): (pen: Pen)
    ensures pen.g == g && pen.r == stroke.width / 2.0
    ensures pen.EdgesOnly()
  {
    Pen(
      g,
      stroke.width / 2.0,
      (pivot, n0, n1, r) => StrokeJoin(g, pivot, n0, n1, r, stroke.join, stroke.miter),
      (p0, seg, off) => Offset(g, p0, seg, off),
      (p, n, t) => StrokeLineCap(p, n, t, stroke))
  }

  // ---------------------------------------------------------------------
  // One step of the walk
  // ---------------------------------------------------------------------

  /**
   * How a drawing segment opens on the side offset by `r`: a join around
   * `p0` after an earlier segment, or a move to `start` at a subpath start.
   */
  function Opening(pen: Pen, st: Walk, n1: Vec, r: real, start: Vec): seq<Cmd> {
    match st.n0
    case Some(n0) => pen.join(st.p0, n0, n1, r)
    case None => [MoveTo(start)]
  }

  /** The match arm of `stroke_impl` for a drawing segment. */
  function Draw(pen: Pen, st: Walk, seg: Segment): (w: Walk)
    requires seg.Draws()
    ensures w.p0 == EndPoint(seg) && w.n0 == Some(EndNormal(pen.g, st.p0, seg))
  {
    var r := pen.r;
    var n1 := StartNormal(pen.g, st.p0, seg);
    Walk(
      EndPoint(seg),
      Some(EndNormal(pen.g, st.p0, seg)),
      if st.n0.Some? then st.first else Some((st.p0, n1)),
      st.out + Opening(pen, st, n1, r, Add(st.p0, Scale(n1, r))) + pen.offset(st.p0, seg, r),
      st.outside + Opening(pen, st, n1, -r, Sub(st.p0, Scale(n1, r))) + pen.offset(st.p0, seg, -r))
  }

  /**
   * What `Close` appends: close the contour, move to the anchor's `-r`
   * side, append `outside` reversed, close again.
   */
  function CloseOut(st: Walk, r: real): seq<Cmd>
    requires st.n0.Some?
  {
    var anchor := st.first.GetOr((st.p0, st.n0.value));
    [ClosePath, MoveTo(Sub(anchor.0, Scale(anchor.1, r))), AppendReverse(st.outside), ClosePath]
  }

  /**
   * The `match` of `stroke_impl` for one segment. `Close` needs an incoming
   * normal: the source unwraps `n0` unconditionally there.
   */
  function Visit(pen: Pen, st: Walk, seg: Segment): Walk
    requires seg.Close? ==> st.n0.Some?
  {
    match seg
    case Move(p1) => Walk(p1, None, None, st.out, st.outside)
    case Close => st.(out := st.out + CloseOut(st, pen.r))
    case _ => Draw(pen, st, seg)
  }

  /** The next segment ends the subpath: it is a `Move`, or there is none. */
  predicate EndsSubpath(next: Option<Segment>) {
    next.None? || next.value.Move?
  }

  /**
   * What is appended at an open end: the end cap, `outside` reversed, the
   * start cap at the anchor, and a close.
   */
  function OpenEndOut(pen: Pen, st: Walk, n: Vec): seq<Cmd> {
    var anchor := st.first.GetOr((st.p0, n));
    pen.cap(st.p0, Neg(n), Neg(pen.g.hat(n)))
      + [AppendReverse(st.outside)]
      + pen.cap(anchor.0, anchor.1, pen.g.hat(anchor.1))
      + [ClosePath]
  }

  /**
   * The check after the `match`: when the next segment ends the subpath and
   * this one has a normal (it draws), cap both ends. The normal is sampled
   * from the already updated `p0`.
   */
  function Finish(pen: Pen, st: Walk, seg: Segment, next: Option<Segment>): Walk {
    if EndsSubpath(next) then
      match SegmentNormal(pen.g, seg, st.p0, 1.0)
      case Some(n) => st.(out := st.out + OpenEndOut(pen, st, n))
      case None => st
    else
      st
  }

  /** One iteration of the loop of `stroke_impl`: visit `seg`, peeking at `next`. */
  function Step(pen: Pen, st: Walk, seg: Segment, next: Option<Segment>): (w: Walk)
    requires seg.Close? ==> st.n0.Some?
    ensures st.out <= w.out && st.outside <= w.outside
    ensures seg.Move? ==> w.n0.None? && w.first.None?
    ensures seg.Draws() ==> w.n0.Some? && (w.first.Some? <==> st.first.Some? || st.n0.None?)
    ensures seg.Close? ==> w.n0 == st.n0 && w.first == st.first && w.p0 == st.p0
  {
    Finish(pen, Visit(pen, st, seg), seg, next)
  }

  // ---------------------------------------------------------------------
  // The whole walk
  // ---------------------------------------------------------------------

  function Peek(path: Path, k: nat): Option<Segment> {
    if k < |path| then Some(path[k]) else None
  }

  /** Whether a segment has been drawn since the last `Move` among the first `k` segments. */
  function Pending(path: Path, k: nat): bool
    requires k <= |path|
  {
    if k == 0 then false
    else match path[k - 1]
      case Move(_) => false
      case Close => Pending(path, k - 1)
      case _ => true
  }

  /** Every `Close` follows a drawing segment of its subpath. */
  ghost predicate ClosesFollowDrawing(path: Path) {
    forall j :: 0 <= j < |path| && path[j].Close? ==> Pending(path, j)
  }

  /**
   * The walk state after the first `k` segments. The incoming normal is
   * present exactly when a segment has been drawn since the last `Move`,
   * and the anchor is present exactly when the normal is.
   */
  function StateAfter(pen: Pen, path: Path, k: nat): (st: Walk)
    requires k <= |path| && ClosesFollowDrawing(path)
    ensures st.n0.Some? == Pending(path, k)
    ensures st.first.Some? == st.n0.Some?
  {
    if k == 0 then Start
    else Step(pen, StateAfter(pen, path, k - 1), path[k - 1], Peek(path, k))
  }
}
