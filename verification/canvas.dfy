/**
 * The canvas of crates/ori-core/src/canvas/canvas.rs: an append-only list
 * of primitives, nested through layers, and `view_at`, the hit test that
 * finds the view owning the topmost primitive under a point.
 */
module Canvas {
  import opened Wrappers
  import opened Geometry
  import opened Curves
  import opened Strokes

  /** A color, as red, green, blue and alpha channels. */
  datatype Color = Color(r: real, g: real, b: real, a: real)

  const BLACK: Color := Color(0.0, 0.0, 0.0, 1.0)
  const TRANSPARENT: Color := Color(0.0, 0.0, 0.0, 0.0)

  datatype Shader = Solid(color: Color)

  datatype BlendMode = Clear | Source | Destination | SourceOver | DestinationOver

  datatype Paint = Paint(shader: Shader, blend: BlendMode, antiAlias: bool)

  /** `Paint::default`: solid black, source over, anti-aliased. */
  function DefaultPaint(): (p: Paint)
    ensures p.shader == Solid(BLACK) && p.blend == SourceOver && p.antiAlias
  {
    Paint(Solid(BLACK), SourceOver, true)
  }

  /** `Paint::from(Color)`: the default paint with a solid `color`. */
  function PaintFrom(color: Color): (p: Paint)
    ensures p.shader == Solid(color)
    ensures p.(shader := DefaultPaint().shader) == DefaultPaint()
  {
    DefaultPaint().(shader := Solid(color))
  }

  datatype FillRule = NonZero | EvenOdd

  /** A clip for a layer: a curve and the rule deciding its inside. */
  datatype Mask = Mask(curve: Path, fill: FillRule)

  /** An axis-aligned rectangle. */
  datatype Rect = Rect(min: Vec, max: Vec)

  /** `Rect::min_size`: the rectangle with corner `p` and extent `size`. */
  function MinSize(p: Vec, size: Vec): (r: Rect)
    ensures r.min == p && Sub(r.max, r.min) == size
  {
    Rect(p, Add(p, size))
  }

  /**
   * `Mask::from(Rect)`: the rectangle's outline, filled non-zero. The
   * outline (`Curve::from(Rect)`) is given as `outline`.
   */
  function MaskFromRect(rect: Rect, outline: Rect -> Path): (m: Mask)
    ensures m.fill == NonZero
    ensures m.curve == outline(rect)
  {
    Mask(outline(rect), NonZero)
  }

  /** A 2D affine map, as the six coefficients of its matrix. */
  datatype Affine = Affine(a: real, b: real, c: real, d: real, tx: real, ty: real)

  const IDENTITY: Affine := Affine(1.0, 0.0, 0.0, 1.0, 0.0, 0.0)

  /** An image, known here only by its handle. */
  datatype Image = Image(handle: nat)

  type ViewId = nat

  datatype Primitive =
    | RectShape(rect: Rect, paint: Paint)
    | FillShape(curve: Path, fill: FillRule, paint: Paint)
    | StrokeShape(curve: Path, stroke: Stroke, paint: Paint)
    | ImageShape(point: Vec, image: Image)
    | Layer(primitives: seq<Primitive>, transform: Affine, mask: Option<Mask>, view: Option<ViewId>)

  datatype Canvas = Canvas(primitives: seq<Primitive>)

  // ---------------------------------------------------------------------
  // Builder operations: each appends one primitive, except `Clear`
  // ---------------------------------------------------------------------

  /** `primitives` is `before` with one primitive `p` pushed at the end. */
  ghost predicate Pushed(before: Canvas, after: Canvas, p: Primitive) {
    && |after.primitives| == |before.primitives| + 1
    && after.primitives[..|before.primitives|] == before.primitives
    && after.primitives[|before.primitives|] == p
  }

  function New(): (c: Canvas)
    ensures |c.primitives| == 0
  {
    Canvas([])
  }

  function Clear(c: Canvas): (r: Canvas)
    ensures |r.primitives| == 0
  {
    Canvas([])
  }

  function DrawRect(c: Canvas, rect: Rect, paint: Paint): (r: Canvas)
    ensures Pushed(c, r, RectShape(rect, paint))
  {
    Canvas(c.primitives + [RectShape(rect, paint)])
  }

  /** The paint of a trigger: invisible, keeping the destination, not anti-aliased. */
  const TRIGGER_PAINT: Paint := Paint(Solid(TRANSPARENT), Destination, false)

  /** `trigger`: a rectangle that is never visible but is hit like any other. */
  function Trigger(c: Canvas, rect: Rect): (r: Canvas)
    ensures Pushed(c, r, RectShape(rect, TRIGGER_PAINT))
    ensures r.primitives[|c.primitives|].paint.shader.color.a == 0.0
    ensures r.primitives[|c.primitives|].paint.blend == Destination
  {
    DrawRect(c, rect, TRIGGER_PAINT)
  }

  function Fill(c: Canvas, curve: Path, fill: FillRule, paint: Paint): (r: Canvas)
    ensures Pushed(c, r, FillShape(curve, fill, paint))
  {
    Canvas(c.primitives + [FillShape(curve, fill, paint)])
  }

  function DrawStroke(c: Canvas, curve: Path, stroke: Stroke, paint: Paint): (r: Canvas)
    ensures Pushed(c, r, StrokeShape(curve, stroke, paint))
  {
    Canvas(c.primitives + [StrokeShape(curve, stroke, paint)])
  }

  function DrawImage(c: Canvas, point: Vec, image: Image): (r: Canvas)
    ensures Pushed(c, r, ImageShape(point, image))
  {
    Canvas(c.primitives + [ImageShape(point, image)])
  }

  /** `layer`: push one layer holding exactly what `f` draws on a fresh canvas. */
  function DrawLayer(c: Canvas, transform: Affine, mask: Option<Mask>, view: Option<ViewId>, f: Canvas -> Canvas): (r: Canvas)
    ensures Pushed(c, r, Layer(f(New()).primitives, transform, mask, view))
  {
    Canvas(c.primitives + [Layer(f(New()).primitives, transform, mask, view)])
  }

  function DrawTransform(c: Canvas, transform: Affine, f: Canvas -> Canvas): (r: Canvas)
    ensures Pushed(c, r, Layer(f(New()).primitives, transform, None, None))
  {
    DrawLayer(c, transform, None, None, f)
  }

  function DrawMask(c: Canvas, mask: Mask, f: Canvas -> Canvas): (r: Canvas)
    ensures Pushed(c, r, Layer(f(New()).primitives, IDENTITY, Some(mask), None))
  {
    DrawLayer(c, IDENTITY, Some(mask), None, f)
  }

  function DrawView(c: Canvas, view: ViewId, f: Canvas -> Canvas): (r: Canvas)
    ensures Pushed(c, r, Layer(f(New()).primitives, IDENTITY, None, Some(view)))
  {
    DrawLayer(c, IDENTITY, None, Some(view), f)
  }

  // ---------------------------------------------------------------------
  // Hit testing
  // ---------------------------------------------------------------------

  /**
   * The geometry `view_at` consults, defined in files that are not part of
   * this model: `Rect::contains`, `Curve::contains`, `transform.inverse() *
   * point` and `Image::size`.
   */
  datatype Hit = Hit(
    rectContains: (Rect, Vec) -> bool,
    curveContains: (Path, Vec, FillRule) -> bool,
    inverseApply: (Affine, Vec) -> Vec,
    imageSize: Image -> Vec)

  /** Every view named by a layer anywhere in `prims`. */
  ghost function LayerViews(prims: seq<Primitive>): set<ViewId>
    decreases prims
  {
    if |prims| == 0 then {}
    else
      var last := prims[|prims| - 1];
      LayerViews(prims[..|prims| - 1])
        + (if last.Layer? then LayerViews(last.primitives) + (if last.view.Some? then {last.view.value} else {}) else {})
  }

  /** Whether a shape primitive (not a stroke, not a layer) covers `point`. */
  predicate ShapeHit(h: Hit, p: Primitive, point: Vec) {
    match p
    case RectShape(rect, _) => h.rectContains(rect, point)
    case FillShape(curve, fill, _) => h.curveContains(curve, point, fill)
    case ImageShape(corner, image) => h.rectContains(MinSize(corner, h.imageSize(image)), point)
    case _ => false
  }

  /**
   * `recurse` of `view_at`: scan `prims` from the last pushed to the first.
   * A covering shape answers `view`; a layer tests the inverse-transformed
   * point against its mask and then its own children under its own view,
   * and answers if they found one.
   */
  function Recurse(h: Hit, prims: seq<Primitive>, view: Option<ViewId>, point: Vec): (r: Option<ViewId>)
    ensures r.Some? ==> r == view || r.value in LayerViews(prims)
    decreases prims
  {
    if |prims| == 0 then None
    else
      var last := prims[|prims| - 1];
      var rest := prims[..|prims| - 1];
      match last
      case Layer(children, transform, mask, inner) =>
        var local := h.inverseApply(transform, point);
        if mask.Some? && !h.curveContains(mask.value.curve, local, mask.value.fill) then
          Recurse(h, rest, view, point)
        else
          var found := Recurse(h, children, inner, local);
          if found.Some? then found else Recurse(h, rest, view, point)
      case StrokeShape(_, _, _) =>
        Recurse(h, rest, view, point)
      case _ =>
        if ShapeHit(h, last, point) then view else Recurse(h, rest, view, point)
  }

  /** `view_at`: the view of the topmost primitive under `point`, if any. */
  function ViewAt(h: Hit, c: Canvas, point: Vec): (r: Option<ViewId>)
    ensures r.Some? ==> r.value in LayerViews(c.primitives)
  {
    Recurse(h, c.primitives, None, point)
  }
}
