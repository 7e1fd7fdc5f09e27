/**
 * Properties of `view_at`: the scan is decided by the last-pushed primitive
 * that stops it, strokes and paints play no part, and a layer's own view
 * replaces the enclosing one for everything drawn inside it.
 */
module CanvasProps {
  import opened Wrappers
  import opened Geometry
  import opened Curves
  import opened Canvas

  /**
   * Whether the scan of `prims` stops inside `prims`: some shape covers
   * the point, or some layer's children answered with a view. When it does
   * not stop, `recurse` goes on to earlier primitives.
   */
  predicate Stops(h: Hit, prims: seq<Primitive>, view: Option<ViewId>, point: Vec)
    decreases prims
  {
    if |prims| == 0 then false
    else
      var last := prims[|prims| - 1];
      var rest := prims[..|prims| - 1];
      match last
      case Layer(children, transform, mask, inner) =>
        var local := h.inverseApply(transform, point);
        if mask.Some? && !h.curveContains(mask.value.curve, local, mask.value.fill) then
          Stops(h, rest, view, point)
        else
          Recurse(h, children, inner, local).Some? || Stops(h, rest, view, point)
      case StrokeShape(_, _, _) =>
        Stops(h, rest, view, point)
      case _ =>
        ShapeHit(h, last, point) || Stops(h, rest, view, point)
  }

  /**
   * The scan runs from the end: if the later primitives `qs` stop it, the
   * earlier ones `ps` are never consulted; otherwise the answer is that of
   * `ps` alone.
   */
  lemma {:induction false} ScanComposes(h: Hit, ps: seq<Primitive>, qs: seq<Primitive>, view: Option<ViewId>, point: Vec)
    ensures Stops(h, qs, view, point) ==> Recurse(h, ps + qs, view, point) == Recurse(h, qs, view, point)
    ensures !Stops(h, qs, view, point) ==>
      Recurse(h, ps + qs, view, point) == Recurse(h, ps, view, point) && Recurse(h, qs, view, point).None?
    ensures Stops(h, ps + qs, view, point) <==> Stops(h, qs, view, point) || Stops(h, ps, view, point)
    decreases |qs|
  {
    if |qs| == 0 {
      assert ps + qs == ps;
    } else {
      var all := ps + qs;
      assert all[|all| - 1] == qs[|qs| - 1];
      assert all[..|all| - 1] == ps + qs[..|qs| - 1];
      ScanComposes(h, ps, qs[..|qs| - 1], view, point);
    }
  }

  /** A shape that covers the point, pushed last, answers the enclosing view. */
  lemma LastShapeDecides(h: Hit, ps: seq<Primitive>, s: Primitive, view: Option<ViewId>, point: Vec)
    requires ShapeHit(h, s, point)
    ensures Recurse(h, ps + [s], view, point) == view
  {
    assert (ps + [s])[..|ps|] == ps;
  }

  /**
   * At the top level the enclosing view is `None`: a covering shape pushed
   * last makes `view_at` answer `None`, whatever layers lie beneath it.
   */
  lemma TopLevelShapeHidesLayers(h: Hit, c: Canvas, s: Primitive, point: Vec)
    requires ShapeHit(h, s, point)
    ensures ViewAt(h, Canvas(c.primitives + [s]), point).None?
  {
    LastShapeDecides(h, c.primitives, s, None, point);
  }

  /** A layer whose mask excludes the inverse-transformed point is skipped. */
  lemma MaskedOutLayerIsSkipped(h: Hit, ps: seq<Primitive>, children: seq<Primitive>, transform: Affine,
                                mask: Mask, inner: Option<ViewId>, view: Option<ViewId>, point: Vec)
    requires !h.curveContains(mask.curve, h.inverseApply(transform, point), mask.fill)
    ensures Recurse(h, ps + [Layer(children, transform, Some(mask), inner)], view, point)
         == Recurse(h, ps, view, point)
  {
    assert (ps + [Layer(children, transform, Some(mask), inner)])[..|ps|] == ps;
  }

  /**
   * A layer's answer never depends on the enclosing view: its own `view`,
   * `None` included, replaces it for everything inside. A layer that
   * answers `None` lets the scan go on to earlier primitives.
   */
  lemma LayerReplacesEnclosingView(h: Hit, ps: seq<Primitive>, children: seq<Primitive>, transform: Affine,
                                   mask: Option<Mask>, inner: Option<ViewId>, v1: Option<ViewId>, v2: Option<ViewId>, point: Vec)
    ensures Recurse(h, [Layer(children, transform, mask, inner)], v1, point)
         == Recurse(h, [Layer(children, transform, mask, inner)], v2, point)
    ensures Recurse(h, [Layer(children, transform, mask, inner)], v1, point).None? ==>
      Recurse(h, ps + [Layer(children, transform, mask, inner)], v1, point) == Recurse(h, ps, v1, point)
  {
    var l := Layer(children, transform, mask, inner);
    assert [l][..0] == [];
    assert (ps + [l])[..|ps|] == ps;
  }

  /** A stroke pushed on a canvas never changes what `view_at` answers. */
  lemma StrokeNeverHits(h: Hit, c: Canvas, curve: Path, stroke: Strokes.Stroke, paint: Paint, point: Vec)
    ensures ViewAt(h, DrawStroke(c, curve, stroke, paint), point) == ViewAt(h, c, point)
  {
    assert DrawStroke(c, curve, stroke, paint).primitives[..|c.primitives|] == c.primitives;
  }

  /**
   * The primitives as the hit test sees them: strokes dropped and paints
   * reset, through every layer.
   */
  function Silhouette(prims: seq<Primitive>): (r: seq<Primitive>)
    ensures |r| <= |prims|
    decreases prims
  {
    if |prims| == 0 then []
    else
      var last := prims[|prims| - 1];
      var rest := Silhouette(prims[..|prims| - 1]);
      match last
      case RectShape(rect, _) => rest + [RectShape(rect, DefaultPaint())]
      case FillShape(curve, fill, _) => rest + [FillShape(curve, fill, DefaultPaint())]
      case StrokeShape(_, _, _) => rest
      case ImageShape(_, _) => rest + [last]
      case Layer(children, transform, mask, view) => rest + [Layer(Silhouette(children), transform, mask, view)]
  }

  /** No stroke remains in a silhouette, at any depth. */
  lemma {:induction false} SilhouetteHasNoStrokes(prims: seq<Primitive>)
    ensures forall i :: 0 <= i < |Silhouette(prims)| ==> !Silhouette(prims)[i].StrokeShape?
    decreases prims
  {
    if |prims| > 0 {
      SilhouetteHasNoStrokes(prims[..|prims| - 1]);
    }
  }

  /** Strokes and paints, at any depth, play no part in hit testing. */
  lemma {:induction false} HitTestSeesSilhouette(h: Hit, prims: seq<Primitive>, view: Option<ViewId>, point: Vec)
    ensures Recurse(h, Silhouette(prims), view, point) == Recurse(h, prims, view, point)
    decreases prims
  {
    if |prims| > 0 {
      var last := prims[|prims| - 1];
      var rest := prims[..|prims| - 1];
      var s := Silhouette(prims);
      HitTestSeesSilhouette(h, rest, view, point);
      match last
      case StrokeShape(_, _, _) =>
      case Layer(children, transform, mask, inner) =>
        HitTestSeesSilhouette(h, children, inner, h.inverseApply(transform, point));
        assert s[..|s| - 1] == Silhouette(rest);
      case _ =>
        assert s[..|s| - 1] == Silhouette(rest);
    }
  }

  /** A trigger is hit exactly like a rectangle of any paint. */
  lemma TriggerHitsLikeRect(h: Hit, c: Canvas, rect: Rect, paint: Paint, point: Vec)
    ensures ViewAt(h, Trigger(c, rect), point) == ViewAt(h, DrawRect(c, rect, paint), point)
  {
    HitTestSeesSilhouette(h, Trigger(c, rect).primitives, None, point);
    HitTestSeesSilhouette(h, DrawRect(c, rect, paint).primitives, None, point);
    assert Trigger(c, rect).primitives[..|c.primitives|] == c.primitives;
    assert DrawRect(c, rect, paint).primitives[..|c.primitives|] == c.primitives;
  }

  /**
   * A rectangle drawn inside `view(id, ..)` is hit as `id`, when the
   * identity transform maps the point to itself.
   */
  lemma ViewLayerClaimsItsShapes(h: Hit, id: ViewId, rect: Rect, paint: Paint, point: Vec)
    requires h.inverseApply(IDENTITY, point) == point
    requires h.rectContains(rect, point)
    ensures ViewAt(h, DrawView(New(), id, c => DrawRect(c, rect, paint)), point) == Some(id)
  {
    var inside := DrawRect(New(), rect, paint).primitives;
    assert inside == [RectShape(rect, paint)];
    assert inside[..0] == [];
    var top := DrawView(New(), id, c => DrawRect(c, rect, paint)).primitives;
    assert top == [Layer(inside, IDENTITY, None, Some(id))];
    assert top[..0] == [];
    assert Recurse(h, inside, Some(id), point) == Some(id);
    assert Recurse(h, top, None, point) == Recurse(h, inside, Some(id), point);
  }

  /**
   * A transform inside a view hides the view: `transform` pushes a layer
   * whose own view is `None`, and that replaces the enclosing one, so a
   * rectangle drawn there is never hit as the view, whatever the point.
   */
  lemma TransformInsideViewHidesIt(h: Hit, id: ViewId, transform: Affine, rect: Rect, paint: Paint, point: Vec)
    ensures ViewAt(h, DrawView(New(), id, c => DrawTransform(c, transform, c2 => DrawRect(c2, rect, paint))), point).None?
  {
    var rects := DrawRect(New(), rect, paint).primitives;
    var moved := DrawTransform(New(), transform, c2 => DrawRect(c2, rect, paint)).primitives;
    var top := DrawView(New(), id, c => DrawTransform(c, transform, c2 => DrawRect(c2, rect, paint))).primitives;
    assert top == [Layer(moved, IDENTITY, None, Some(id))];
    assert moved == [Layer(rects, transform, None, None)];
    var local := h.inverseApply(IDENTITY, point);
    SingleLayerScan(h, moved, IDENTITY, Some(id), None, point);
    SingleLayerScan(h, rects, transform, None, Some(id), local);
    RectHasNoViews(rect, paint);
  }

  /** A single unmasked layer is scanned as its children, under its own view, at the point mapped into it. */
  lemma SingleLayerScan(h: Hit, children: seq<Primitive>, transform: Affine, inner: Option<ViewId>,
                        view: Option<ViewId>, point: Vec)
    ensures Recurse(h, [Layer(children, transform, None, inner)], view, point)
         == Recurse(h, children, inner, h.inverseApply(transform, point))
  {
    assert [Layer(children, transform, None, inner)][..0] == [];
  }

  /** A canvas holding one rectangle has no views, so a scan of it without a view finds none. */
  lemma RectHasNoViews(rect: Rect, paint: Paint)
    ensures LayerViews(DrawRect(New(), rect, paint).primitives) == {}
  {
    var rects := DrawRect(New(), rect, paint).primitives;
    assert rects == [RectShape(rect, paint)] && rects[..0] == [];
  }

}
