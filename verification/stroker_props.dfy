/**
 * Properties of the stroke walk: what each kind of segment emits, how many
 * moves, closes and reversed appends a whole path produces, and the
 * behaviours of `stroke_impl` that follow from its state handling (the
 * origin default, the never-cleared `outside`, the line end cap).
 */
module StrokerProps {
  import opened Wrappers
  import opened Geometry
  import opened Curves
  import opened Strokes
  import opened Stroker

  predicate IsClosePath(c: Cmd) { c.ClosePath? }
  predicate IsAppendReverse(c: Cmd) { c.AppendReverse? }
  predicate IsMoveTo(c: Cmd) { c.MoveTo? }

  // ---------------------------------------------------------------------
  // Reference counts over the input path
  // ---------------------------------------------------------------------

  /** The number of `Close` segments among the first `k`. */
  function Closes(path: Path, k: nat): nat
    requires k <= |path|
  {
    if k == 0 then 0 else Closes(path, k - 1) + (if path[k - 1].Close? then 1 else 0)
  }

  /** The number of drawing segments among the first `k` that are the last of their subpath. */
  function OpenEnds(path: Path, k: nat): nat
    requires k <= |path|
  {
    if k == 0 then 0
    else OpenEnds(path, k - 1) + (if path[k - 1].Draws() && EndsSubpath(Peek(path, k)) then 1 else 0)
  }

  /** The number of drawing segments among the first `k` that are the first of their subpath. */
  function SubpathStarts(path: Path, k: nat): nat
    requires k <= |path|
  {
    if k == 0 then 0
    else SubpathStarts(path, k - 1) + (if path[k - 1].Draws() && !Pending(path, k - 1) then 1 else 0)
  }

  // ---------------------------------------------------------------------
  // What one step emits
  // ---------------------------------------------------------------------

  lemma EdgesCountNothing(cs: seq<Cmd>)
    requires AllEdges(cs)
    ensures Count(cs, IsClosePath) == 0
    ensures Count(cs, IsAppendReverse) == 0
    ensures Count(cs, IsMoveTo) == 0
  {
    CountOfEdges(cs, IsClosePath);
    CountOfEdges(cs, IsAppendReverse);
    CountOfEdges(cs, IsMoveTo);
  }

  /** `Count` of a four-part concatenation, for each of the three kinds. */
  lemma CountFour(a: seq<Cmd>, b: seq<Cmd>, c: seq<Cmd>, d: seq<Cmd>, P: Cmd -> bool)
    ensures Count(a + b + c + d, P) == Count(a, P) + Count(b, P) + Count(c, P) + Count(d, P)
  {
    CountConcat(a + b + c, d, P);
    CountConcat(a + b, c, P);
    CountConcat(a, b, P);
  }

  lemma OpenEndCounts(pen: Pen, st: Walk, n: Vec)
    requires pen.EdgesOnly()
    ensures Count(OpenEndOut(pen, st, n), IsClosePath) == 1
    ensures Count(OpenEndOut(pen, st, n), IsAppendReverse) == 1
    ensures Count(OpenEndOut(pen, st, n), IsMoveTo) == 0
  {
    var anchor := st.first.GetOr((st.p0, n));
    var a := pen.cap(st.p0, Neg(n), Neg(pen.g.hat(n)));
    var c := pen.cap(anchor.0, anchor.1, pen.g.hat(anchor.1));
    EdgesCountNothing(a);
    EdgesCountNothing(c);
    CountFour(a, [AppendReverse(st.outside)], c, [ClosePath], IsClosePath);
    CountFour(a, [AppendReverse(st.outside)], c, [ClosePath], IsAppendReverse);
    CountFour(a, [AppendReverse(st.outside)], c, [ClosePath], IsMoveTo);
  }

  lemma OpeningCounts(pen: Pen, st: Walk, n1: Vec, r: real, start: Vec)
    requires pen.EdgesOnly()
    ensures Count(Opening(pen, st, n1, r, start), IsClosePath) == 0
    ensures Count(Opening(pen, st, n1, r, start), IsAppendReverse) == 0
    ensures Count(Opening(pen, st, n1, r, start), IsMoveTo) == (if st.n0.None? then 1 else 0)
  {
    if st.n0.Some? {
      EdgesCountNothing(Opening(pen, st, n1, r, start));
    } else {
      assert Opening(pen, st, n1, r, start) == [MoveTo(start)];
    }
  }

  lemma CloseOutCounts(st: Walk, r: real)
    requires st.n0.Some?
    ensures Count(CloseOut(st, r), IsClosePath) == 2
    ensures Count(CloseOut(st, r), IsAppendReverse) == 1
    ensures Count(CloseOut(st, r), IsMoveTo) == 1
  {
    var anchor := st.first.GetOr((st.p0, st.n0.value));
    var m := [MoveTo(Sub(anchor.0, Scale(anchor.1, r)))];
    var ar := [AppendReverse(st.outside)];
    assert CloseOut(st, r) == [ClosePath] + m + ar + [ClosePath];
    CountFour([ClosePath], m, ar, [ClosePath], IsClosePath);
    CountFour([ClosePath], m, ar, [ClosePath], IsAppendReverse);
    CountFour([ClosePath], m, ar, [ClosePath], IsMoveTo);
  }

  /** A drawing segment's match arm emits one move at a subpath start and nothing else but edges. */
  lemma DrawCounts(pen: Pen, st: Walk, seg: Segment)
    requires pen.EdgesOnly() && seg.Draws()
    ensures var v := Draw(pen, st, seg);
      && Count(v.out, IsClosePath) == Count(st.out, IsClosePath)
      && Count(v.out, IsAppendReverse) == Count(st.out, IsAppendReverse)
      && Count(v.out, IsMoveTo) == Count(st.out, IsMoveTo) + (if st.n0.None? then 1 else 0)
  {
    var r := pen.r;
    var n1 := StartNormal(pen.g, st.p0, seg);
    var op := Opening(pen, st, n1, r, Add(st.p0, Scale(n1, r)));
    var off := pen.offset(st.p0, seg, r);
    assert Draw(pen, st, seg).out == st.out + op + off + [];
    OpeningCounts(pen, st, n1, r, Add(st.p0, Scale(n1, r)));
    EdgesCountNothing(off);
    CountFour(st.out, op, off, [], IsClosePath);
    CountFour(st.out, op, off, [], IsAppendReverse);
    CountFour(st.out, op, off, [], IsMoveTo);
  }

  /** The check after the match emits one close and one reversed append exactly at an open end. */
  lemma FinishCounts(pen: Pen, v: Walk, seg: Segment, next: Option<Segment>)
    requires pen.EdgesOnly()
    ensures var w := Finish(pen, v, seg, next);
      var ends := seg.Draws() && EndsSubpath(next);
      && Count(w.out, IsClosePath) == Count(v.out, IsClosePath) + (if ends then 1 else 0)
      && Count(w.out, IsAppendReverse) == Count(v.out, IsAppendReverse) + (if ends then 1 else 0)
      && Count(w.out, IsMoveTo) == Count(v.out, IsMoveTo)
  {
    if seg.Draws() && EndsSubpath(next) {
      var n := SegmentNormal(pen.g, seg, v.p0, 1.0).value;
      var oe := OpenEndOut(pen, v, n);
      OpenEndCounts(pen, v, n);
      CountConcat(v.out, oe, IsClosePath);
      CountConcat(v.out, oe, IsAppendReverse);
      CountConcat(v.out, oe, IsMoveTo);
    }
  }

  /**
   * One step emits: for `Close`, two closes, one reversed append and one
   * move; for a drawing segment, one move at a subpath start and one close
   * and one reversed append at a subpath end; for `Move`, nothing.
   */
  lemma StepCounts(pen: Pen, st: Walk, seg: Segment, next: Option<Segment>)
    requires pen.EdgesOnly()
    requires seg.Close? ==> st.n0.Some?
    ensures var w := Step(pen, st, seg, next);
      var ends := seg.Draws() && EndsSubpath(next);
      && Count(w.out, IsClosePath) == Count(st.out, IsClosePath) + (if seg.Close? then 2 else if ends then 1 else 0)
      && Count(w.out, IsAppendReverse) == Count(st.out, IsAppendReverse) + (if seg.Close? || ends then 1 else 0)
      && Count(w.out, IsMoveTo) == Count(st.out, IsMoveTo) + (if seg.Close? || (seg.Draws() && st.n0.None?) then 1 else 0)
  {
    var v := Visit(pen, st, seg);
    FinishCounts(pen, v, seg, next);
    if seg.Draws() {
      DrawCounts(pen, st, seg);
    } else if seg.Close? {
      CloseOutCounts(st, pen.r);
      CountConcat(st.out, CloseOut(st, pen.r), IsClosePath);
      CountConcat(st.out, CloseOut(st, pen.r), IsAppendReverse);
      CountConcat(st.out, CloseOut(st, pen.r), IsMoveTo);
    }
  }

  /**
   * Over a whole path: every `Close` emits two closes, one reversed append
   * and one move; every open subpath end emits one close and one reversed
   * append; every subpath start emits one move.
   */
  lemma {:induction false} StrokeCounts(pen: Pen, path: Path, k: nat)
    requires pen.EdgesOnly()
    requires k <= |path| && ClosesFollowDrawing(path)
    ensures var out := StateAfter(pen, path, k).out;
      && Count(out, IsClosePath) == 2 * Closes(path, k) + OpenEnds(path, k)
      && Count(out, IsAppendReverse) == Closes(path, k) + OpenEnds(path, k)
      && Count(out, IsMoveTo) == Closes(path, k) + SubpathStarts(path, k)
  {
    if k > 0 {
      StrokeCounts(pen, path, k - 1);
      StepCounts(pen, StateAfter(pen, path, k - 1), path[k - 1], Peek(path, k));
    }
  }

  /**
   * `stroke_impl` on an empty output curve: the walk's output after the
   * whole path. It closes twice per `Close` and once per open end, appends
   * `outside` once per `Close` and per open end, and moves once per `Close`
   * and per subpath start.
   */
  function StrokePath(g: Ops, path: Path, stroke: Stroke): (out: seq<Cmd>)
    requires ClosesFollowDrawing(path)
    ensures Count(out, IsClosePath) == 2 * Closes(path, |path|) + OpenEnds(path, |path|)
    ensures Count(out, IsAppendReverse) == Closes(path, |path|) + OpenEnds(path, |path|)
    ensures Count(out, IsMoveTo) == Closes(path, |path|) + SubpathStarts(path, |path|)
  {
    StrokeCounts(PenFor(g, stroke), path, |path|);
    StateAfter(PenFor(g, stroke), path, |path|).out
  }

  // ---------------------------------------------------------------------
  // The shape of single steps
  // ---------------------------------------------------------------------

  /**
   * The first drawing segment of a subpath moves both sides to the offset
   * start points, offsets the segment on both sides, and records the anchor.
   */
  lemma SubpathStartOpensBothSides(pen: Pen, st: Walk, seg: Segment, next: Option<Segment>)
    requires seg.Draws() && st.n0.None?
    ensures var w := Step(pen, st, seg, next);
      var r := pen.r;
      var n1 := StartNormal(pen.g, st.p0, seg);
      && st.out + [MoveTo(Add(st.p0, Scale(n1, r)))] + pen.offset(st.p0, seg, r) <= w.out
      && w.outside == st.outside + [MoveTo(Sub(st.p0, Scale(n1, r)))] + pen.offset(st.p0, seg, -r)
      && w.first == Some((st.p0, n1))
  {
  }

  /**
   * A drawing segment inside a subpath (one came before it, another comes
   * after) joins the previous segment's end normal to its own start normal
   * and then offsets itself: with `+r` on the output side and `-r` on the
   * `outside` side. The anchor is kept.
   */
  lemma InteriorSegmentJoinsThenOffsets(pen: Pen, st: Walk, seg: Segment, next: Option<Segment>)
    requires seg.Draws() && st.n0.Some? && !EndsSubpath(next)
    ensures var w := Step(pen, st, seg, next);
      var n1 := StartNormal(pen.g, st.p0, seg);
      && w.out == st.out + pen.join(st.p0, st.n0.value, n1, pen.r) + pen.offset(st.p0, seg, pen.r)
      && w.outside == st.outside + pen.join(st.p0, st.n0.value, n1, -pen.r) + pen.offset(st.p0, seg, -pen.r)
      && w.first == st.first
  {
  }

  /**
   * So, with a pen whose joins and offsets are edges, such a segment emits
   * only edges on both sides.
   */
  lemma InteriorSegmentEmitsEdges(pen: Pen, st: Walk, seg: Segment, next: Option<Segment>)
    requires pen.EdgesOnly()
    requires seg.Draws() && st.n0.Some? && !EndsSubpath(next)
    ensures var w := Step(pen, st, seg, next);
      && AllEdges(w.out[|st.out|..]) && AllEdges(w.outside[|st.outside|..])
      && w.first == st.first
  {
    var r := pen.r;
    var w := Step(pen, st, seg, next);
    var n1 := StartNormal(pen.g, st.p0, seg);
    InteriorSegmentJoinsThenOffsets(pen, st, seg, next);
    assert w.out[|st.out|..] == pen.join(st.p0, st.n0.value, n1, r) + pen.offset(st.p0, seg, r);
    assert w.outside[|st.outside|..] == pen.join(st.p0, st.n0.value, n1, -r) + pen.offset(st.p0, seg, -r);
  }

  /**
   * `Close` closes the contour and stitches on the reversed `outside` from
   * the anchor's inner point, and never caps, whatever follows it.
   */
  lemma CloseStitchesWithoutCap(pen: Pen, st: Walk, next: Option<Segment>)
    requires st.n0.Some? && st.first.Some?
    ensures var (pf, nf) := st.first.value;
      Step(pen, st, Close, next)
        == st.(out := st.out + [ClosePath, MoveTo(Sub(pf, Scale(nf, pen.r))), AppendReverse(st.outside), ClosePath])
  {
  }

  /** Where a step emits a reversed append, it appends the whole `outside` it has accumulated. */
  lemma StepAppendsOutside(pen: Pen, st: Walk, seg: Segment, next: Option<Segment>)
    requires seg.Close? ==> st.n0.Some?
    requires seg.Close? || (seg.Draws() && EndsSubpath(next))
    ensures var w := Step(pen, st, seg, next);
      AppendReverse(w.outside) in w.out[|st.out|..]
  {
    var v := Visit(pen, st, seg);
    var w := Step(pen, st, seg, next);
    if seg.Close? {
      assert w.out[|st.out|..] == CloseOut(st, pen.r);
      assert CloseOut(st, pen.r)[2] == AppendReverse(w.outside);
    } else {
      var n := SegmentNormal(pen.g, seg, v.p0, 1.0).value;
      var oe := OpenEndOut(pen, v, n);
      var a := pen.cap(v.p0, Neg(n), Neg(pen.g.hat(n)));
      assert oe[|a|] == AppendReverse(v.outside);
      assert w.out == v.out + oe;
      assert w.out[|v.out| + |a|] == AppendReverse(w.outside);
    }
  }

  /** Visiting a drawing segment emits no reversed append: only the opening and the offset edges. */
  lemma VisitEmitsNoAppend(pen: Pen, st: Walk, seg: Segment)
    requires pen.EdgesOnly() && seg.Draws()
    ensures var v := Visit(pen, st, seg);
      forall i :: |st.out| <= i < |v.out| ==> !v.out[i].AppendReverse?
  {
    var r := pen.r;
    var v := Visit(pen, st, seg);
    var n1 := StartNormal(pen.g, st.p0, seg);
    var a := Opening(pen, st, n1, r, Add(st.p0, Scale(n1, r)));
    var b := pen.offset(st.p0, seg, r);
    assert v.out == st.out + (a + b);
    if st.n0.Some? {
      assert AllEdges(a);
    } else {
      assert a == [MoveTo(Add(st.p0, Scale(n1, r)))];
    }
    forall i | |st.out| <= i < |v.out|
      ensures !v.out[i].AppendReverse?
    {
      assert v.out[i] == (a + b)[i - |st.out|];
    }
  }

  /**
   * Every reversed append a step emits carries the whole `outside`
   * accumulated so far, earlier subpaths included.
   */
  lemma AppendCarriesWholeOutside(pen: Pen, st: Walk, seg: Segment, next: Option<Segment>)
    requires pen.EdgesOnly()
    requires seg.Close? ==> st.n0.Some?
    ensures var w := Step(pen, st, seg, next);
      forall i :: |st.out| <= i < |w.out| && w.out[i].AppendReverse? ==> w.out[i].path == w.outside
  {
    var r := pen.r;
    var v := Visit(pen, st, seg);
    var w := Step(pen, st, seg, next);
    assert w.outside == v.outside;
    if seg.Draws() {
      VisitEmitsNoAppend(pen, st, seg);
      if EndsSubpath(next) {
        var n := SegmentNormal(pen.g, seg, v.p0, 1.0).value;
        var anchor := v.first.GetOr((v.p0, n));
        var e := pen.cap(v.p0, Neg(n), Neg(pen.g.hat(n)));
        var f := pen.cap(anchor.0, anchor.1, pen.g.hat(anchor.1));
        assert w.out == v.out + e + [AppendReverse(v.outside)] + f + [ClosePath];
        forall i | |st.out| <= i < |w.out| && w.out[i].AppendReverse?
          ensures w.out[i].path == w.outside
        {
        }
      } else {
        assert w == v;
      }
    } else if seg.Close? {
      assert w.out == st.out + CloseOut(st, r);
    }
  }

  // ---------------------------------------------------------------------
  // The whole walk
  // ---------------------------------------------------------------------

  /** Nothing is ever removed from either accumulator: `outside` is never cleared. */
  lemma {:induction false} AccumulatorsOnlyGrow(pen: Pen, path: Path, j: nat, k: nat)
    requires j <= k <= |path| && ClosesFollowDrawing(path)
    ensures StateAfter(pen, path, j).out <= StateAfter(pen, path, k).out
    ensures StateAfter(pen, path, j).outside <= StateAfter(pen, path, k).outside
    decreases k - j
  {
    if j < k {
      AccumulatorsOnlyGrow(pen, path, j, k - 1);
    }
  }

  /** Without a leading `Move`, the first subpath starts from the origin. */
  lemma PathWithoutMoveStartsAtOrigin(pen: Pen, path: Path)
    requires |path| > 0 && path[0].Draws() && ClosesFollowDrawing(path)
    ensures var n1 := StartNormal(pen.g, ZERO, path[0]);
      var out := StateAfter(pen, path, |path|).out;
      |out| > 0 && out[0] == MoveTo(Add(ZERO, Scale(n1, pen.r)))
  {
    AccumulatorsOnlyGrow(pen, path, 1, |path|);
    var n1 := StartNormal(pen.g, ZERO, path[0]);
    var v := Visit(pen, Start, path[0]);
    assert v.out[0] == MoveTo(Add(ZERO, Scale(n1, pen.r)));
    assert v.out <= StateAfter(pen, path, 1).out;
  }

  /** For curves, the end cap uses the true end normal, though sampled from the moved `p0`. */
  lemma CurveEndCapUsesEndNormal(g: Ops, p0: Vec, seg: Segment)
    requires seg.Quad? || seg.Cubic?
    ensures SegmentNormal(g, seg, EndPoint(seg), 1.0) == Some(EndNormal(g, p0, seg))
  {
    match seg
    case Quad(p1, p2) => EndTangentIgnoresStart(p0, p2, p1, p2, p2);
    case Cubic(p1, p2, p3) => EndTangentIgnoresStart(p0, p3, p1, p2, p3);
  }

  /**
   * For a line, the end cap samples the line from its end point to itself,
   * so its normal is that of the zero vector, whatever the line's direction.
   * With a butt cap, a single line from `a` to `b` strokes to this outline.
   */
  lemma LineEndCapIsDegenerate(g: Ops, a: Vec, b: Vec, stroke: Stroke)
    requires stroke.cap == Butt
    ensures var r := stroke.width / 2.0;
      var n := LineNormal(g, a, b);
      var z := g.normalize(g.hat(ZERO));
      StrokePath(g, [Move(a), Line(b)], stroke)
        == [MoveTo(Add(a, Scale(n, r))), LineTo(Add(b, Scale(n, r))),
            LineTo(Add(b, Scale(Neg(z), r))),
            AppendReverse([MoveTo(Sub(a, Scale(n, r))), LineTo(Add(b, Scale(n, -r)))]),
            LineTo(Add(a, Scale(n, r))),
            ClosePath]
  {
    var pen := PenFor(g, stroke);
    var path := [Move(a), Line(b)];
    assert Sub(b, b) == ZERO;
    assert StateAfter(pen, path, 0) == Start;
    assert Visit(pen, Start, Move(a)) == Walk(a, None, None, [], []);
    var s1 := StateAfter(pen, path, 1);
    assert s1 == Walk(a, None, None, [], []);
    var v := Visit(pen, s1, Line(b));
    var r := pen.r;
    var n := LineNormal(g, a, b);
    assert v.out == [MoveTo(Add(a, Scale(n, r))), LineTo(Add(b, Scale(n, r)))];
    assert v.outside == [MoveTo(Sub(a, Scale(n, r))), LineTo(Add(b, Scale(n, -r)))];
    assert v.first == Some((a, n));
    assert SegmentNormal(g, Line(b), b, 1.0) == Some(g.normalize(g.hat(ZERO)));
  }

  /**
   * A second subpath's stitched outline re-appends the first subpath's
   * `outside` as well: `[Move a, Line b, Move c, Line d]` emits two reversed
   * appends, and the second carries the first's, which starts at the inner
   * side of `a`, as a proper prefix.
   */
  lemma SecondSubpathReappendsFirst(pen: Pen, a: Vec, b: Vec, c: Vec, d: Vec)
    ensures var path := [Move(a), Line(b), Move(c), Line(d)];
      var o2 := StateAfter(pen, path, 2).outside;
      var o4 := StateAfter(pen, path, 4).outside;
      var out := StateAfter(pen, path, 4).out;
      && |o2| > 0 && o2[0] == MoveTo(Sub(a, Scale(LineNormal(pen.g, a, b), pen.r)))
      && o2 < o4
      && AppendReverse(o2) in out && AppendReverse(o4) in out
  {
    var path := [Move(a), Line(b), Move(c), Line(d)];
    AccumulatorsOnlyGrow(pen, path, 2, 4);
    assert StateAfter(pen, path, 0) == Start;
    var s1 := StateAfter(pen, path, 1);
    var s2 := StateAfter(pen, path, 2);
    var s3 := StateAfter(pen, path, 3);
    var s4 := StateAfter(pen, path, 4);
    assert s1 == Walk(a, None, None, [], []);
    assert s2.outside == [MoveTo(Sub(a, Scale(LineNormal(pen.g, a, b), pen.r)))] + pen.offset(a, Line(b), -pen.r);
    assert s3.outside == s2.outside && s3.n0.None?;
    assert s4.outside == s3.outside + [MoveTo(Sub(c, Scale(LineNormal(pen.g, c, d), pen.r)))] + pen.offset(c, Line(d), -pen.r);
    StepAppendsOutside(pen, s1, Line(b), Some(Move(c)));
    StepAppendsOutside(pen, s3, Line(d), None);
    assert AppendReverse(s2.outside) in s2.out;
    assert s2.out <= s4.out;
  }
}
