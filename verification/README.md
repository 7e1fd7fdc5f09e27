# ori core: stroker, canvas hit test, stack line breaking, click handler

A Dafny model of four pieces of the `ori-core` crate of the ori UI framework (Rust):

- **The path stroker** (`crates/ori-core/src/canvas/stroke.rs`). It turns a path of move/line/quad/cubic/close segments into the outline of its stroke. It writes one side into the output and the other into a second curve, `outside`. That curve is appended reversed when a subpath is closed or capped. Line offsets are exact. Curve offsets are found by recursive De Casteljau subdivision to at most `MAX_DEPTH = 6`. Joins are miter with bevel fallback, round (two conics) or bevel. Caps are butt, round or square. The output is a sequence of path commands: `MoveTo`, `LineTo`, `QuadTo`, `ConicTo`, `CubicTo`, `ClosePath` and `AppendReverse(snapshot of outside)`. Its structural properties are proved: which commands, how many, where they end, and what state the walk keeps. Geometry is over `real`.
- **The canvas** (`crates/ori-core/src/canvas/canvas.rs`). This is the append-only list of drawing primitives and its builders. It includes `view_at`, which finds the view under a point by scanning the primitive tree from the top (last drawn) down, through layer transforms and masks.
- **The stack view's line breaking** (`crates/ori-core/src/views/stack.rs`). This covers the builder setters and the greedy wrap of `measure_fixed`. It also covers how `measure_flex` hands a line's overflow or underflow to its flexible children, and the `StackState` aggregates.
- **The click handler** (`crates/ori-core/src/views/click_handler.rs`). This is the press/release/click state machine and its callback setters.

Files:

- `wrappers.dfy`: `Option`.
- `geometry.dfy`: vectors and Bézier evaluation and subdivision. `normalize`, `hat`, `length`, `sqrt` and f32 division are abstract fields of an `Ops` record.
- `curves.dfy`: path segments and output commands.
- `strokes.dfy`: `Stroke`, offsets, joins and caps.
- `stroker.dfy`: `stroke_impl` as a left fold over the path.
- `stroker_props.dfy`: the stroker's properties.
- `canvas.dfy` and `canvas_props.dfy`: the canvas and its properties.
- `stack.dfy`: the stack view.
- `click.dfy`: the click handler.

The stroker's lemmas hold for any `Pen`. A `Pen` bundles join, offset and cap emitters that emit only edges. `PenFor` builds the real one from a `Stroke`, so the lemmas apply to the real stroker without unfolding its geometry.

## Model

| member | source | states |
|---|---|---|
| Strokes.DefaultStroke | crates/ori-core/src/canvas/stroke.rs:52-61 | The default stroke has width 1, miter limit 4, a butt cap and a miter join |
| Strokes.StrokeFromWidth | crates/ori-core/src/canvas/stroke.rs:63-70 | A stroke made from a width has that width and is otherwise the default |
| Strokes.HashInput | crates/ori-core/src/canvas/stroke.rs:72-79 | What `Hash for Stroke` feeds the hasher, in order: the bit patterns of width and miter limit, then cap and join |
| Strokes.HashInputExact | crates/ori-core/src/canvas/stroke.rs:72-79 | Hashing width and miter by bit pattern, then cap and join, gives equal hasher input exactly for equal strokes, as long as the bit patterns separate the two floats |
| Strokes.OffsetLine | crates/ori-core/src/canvas/stroke.rs:85-91 | A line offset is a single `LineTo` whose displacement from the offset start equals the segment's |
| Strokes.OffsetQuad | crates/ori-core/src/canvas/stroke.rs:93-122 | A quadratic offset emits only `QuadTo`s: at least one, at most 2^(6-depth), and exactly one at the depth limit |
| Strokes.OffsetCubic | crates/ori-core/src/canvas/stroke.rs:133-174 | A cubic offset emits only `CubicTo`s: at least one, at most 2^(6-depth), and exactly one at the depth limit |
| Strokes.OffsetPieceCounts | crates/ori-core/src/canvas/stroke.rs:82-174 | From depth 0 both offsets emit between 1 and 64 pieces. A cubic offset by a non-positive amount emits exactly 64 |
| Strokes.OffsetCubicNonPositiveIsFullDepth | crates/ori-core/src/canvas/stroke.rs:157-165 | For offset <= 0 the error test `error < offset * MAX_ERROR` never passes, because the error is a length. So the cubic always splits down to depth 6 |
| Strokes.SubdivideRejectingIsFull | crates/ori-core/src/canvas/stroke.rs:107-115 | A subdivision whose acceptance test always fails emits the full 2^(6-depth) leaves |
| Geometry.DivideQuad | crates/ori-core/src/canvas/stroke.rs:124-131 | The two quadratics of a split at t trace the original exactly: the first over [0, t], the second over [t, 1], for every parameter s; they share the point at t |
| Geometry.DivideCubic | crates/ori-core/src/canvas/stroke.rs:176-187 | The two cubics of a split at t trace the original exactly: the first over [0, t], the second over [t, 1], for every parameter s; they share the point at t |
| Geometry.LineNormal | crates/ori-core/src/canvas/stroke.rs:396-398 | `line_normal`: the normalized perpendicular (`hat`) of `p1 - p0` |
| Geometry.QuadBezier | crates/ori-core/src/canvas/stroke.rs:400-405 | `quad_bezier`: De Casteljau evaluation at t; its end points and its split are stated by `BezierEndpoints` and `DivideQuad` |
| Geometry.QuadNormal | crates/ori-core/src/canvas/stroke.rs:407-416 | `quad_bezier_normal`: the normalized perpendicular of the tangent `lerp(p1, p2, t) - lerp(p0, p1, t)` |
| Geometry.CubicBezier | crates/ori-core/src/canvas/stroke.rs:418-427 | `cubic_bezier`: De Casteljau evaluation at t; its end points and its split are stated by `BezierEndpoints` and `DivideCubic` |
| Geometry.CubicNormal | crates/ori-core/src/canvas/stroke.rs:429-442 | `cubic_bezier_normal`: the normalized perpendicular of the cubic tangent at t |
| Geometry.BezierEndpoints | crates/ori-core/src/canvas/stroke.rs:400-427 | The Bézier evaluators start at their first control point and end at their last |
| Geometry.EndTangentIgnoresStart | crates/ori-core/src/canvas/stroke.rs:407-438 | The tangent at t = 1 depends only on the last two control points, whatever the first point is |
| Strokes.StrokeBevel | crates/ori-core/src/canvas/stroke.rs:281-285 | A bevel is one `LineTo(pivot + n1*r)` |
| Strokes.StrokeMiter | crates/ori-core/src/canvas/stroke.rs:242-261 | A miter equals the bevel exactly when the ratio reaches the limit. Otherwise it is two lines, the apex and then `pivot + n1*r`. Either way it ends at `pivot + n1*r` |
| Strokes.MiterApexOnBisector | crates/ori-core/src/canvas/stroke.rs:242-261 | The miter apex lies on the normalised bisector, at r / amount from the pivot |
| Strokes.StrokeRound | crates/ori-core/src/canvas/stroke.rs:263-279 | A round join is two conics of weight cos(θ/2), through `pivot + normalize(n0+n1)*r`, ending at `pivot + n1*r` |
| Strokes.StrokeJoin | crates/ori-core/src/canvas/stroke.rs:221-240 | A join emits one or two edges ending at `pivot + n1*r`. On the inner side (cross(n0,n1)*r > 0) it is exactly `LineTo(pivot + n1*r)` |
| Strokes.JoinStylesAgree | crates/ori-core/src/canvas/stroke.rs:221-261 | On the inner side all join styles emit the same output. On the outer side, miter equals bevel if and only if the miter falls back |
| Strokes.StrokeLineCap | crates/ori-core/src/canvas/stroke.rs:189-219 | A cap emits edges ending at `p + n*r`. Butt is one line, round is two cubics via `p + t*r`, square is three lines offset by `t*r` |
| Stroker.Offset | crates/ori-core/src/canvas/stroke.rs:324-367 | A segment's offset emits only edges, and at least one exactly when the segment draws |
| Stroker.SegmentNormal | crates/ori-core/src/canvas/stroke.rs:444-452 | There is a normal exactly for the drawing segments (line, quad, cubic), and none for move or close |
| Stroker.PenFor | crates/ori-core/src/canvas/stroke.rs:296-296 | The stroke's pen offsets by half the width, and its joins, offsets and caps emit only edges |
| Stroker.Step | crates/ori-core/src/canvas/stroke.rs:298-391 | One segment only appends to both accumulators. Move clears `n0` and `first`. A drawing segment sets `n0` and records `first` when it starts a subpath. Close keeps `n0`, `first` and `p0` |
| Stroker.StateAfter | crates/ori-core/src/canvas/stroke.rs:287-393 | After any prefix, `n0` is set exactly when a drawing segment is pending since the last move, and `first` is set exactly when `n0` is |
| StrokerProps.StepCounts | crates/ori-core/src/canvas/stroke.rs:303-391 | Close adds two closes, one reversed append and one move. A drawing segment adds a move when it starts a subpath, and a cap, an append and a close when the next segment is a move or the end |
| StrokerProps.StrokeCounts | crates/ori-core/src/canvas/stroke.rs:287-393 | Over any prefix: closes = 2·(closed subpaths) + (open ends); reversed appends = closed + open ends; moves = closed + subpath starts |
| StrokerProps.StrokePath | crates/ori-core/src/canvas/stroke.rs:287-393 | `stroke_impl` from an empty output: over the whole path it closes twice per `Close` and once per open end, appends `outside` once per `Close` and per open end, and moves once per `Close` and per subpath start |
| StrokerProps.SubpathStartOpensBothSides | crates/ori-core/src/canvas/stroke.rs:317-321 | The first drawing segment of a subpath emits `move_to(p0 + n1*r)` and `move_to(p0 - n1*r)` on the two sides, then its offsets, and records `first = (p0, n1)` |
| StrokerProps.InteriorSegmentJoinsThenOffsets | crates/ori-core/src/canvas/stroke.rs:312-316 | A later drawing segment that does not end its subpath appends exactly `join(p0, n0, n1, +r)` then `offset(+r)` to the output and `join(p0, n0, n1, -r)` then `offset(-r)` to `outside`, and keeps `first` |
| StrokerProps.InteriorSegmentEmitsEdges | crates/ori-core/src/canvas/stroke.rs:312-316 | With joins and offsets that emit only edges, such a segment adds only edges to both sides |
| StrokerProps.CloseStitchesWithoutCap | crates/ori-core/src/canvas/stroke.rs:372-379 | Close emits exactly close, `move_to(pf - nf*r)`, the reversed outside and close, with no cap |
| StrokerProps.StepAppendsOutside | crates/ori-core/src/canvas/stroke.rs:372-391 | A close, or a drawing segment followed by a move or the end, appends the reversed outside |
| StrokerProps.AppendCarriesWholeOutside | crates/ori-core/src/canvas/stroke.rs:377-385 | Every reversed append a step emits carries the whole outside accumulated so far |
| StrokerProps.AccumulatorsOnlyGrow | crates/ori-core/src/canvas/stroke.rs:291-391 | The output and the outside after a prefix are prefixes of the ones after any longer prefix |
| StrokerProps.PathWithoutMoveStartsAtOrigin | crates/ori-core/src/canvas/stroke.rs:288-320 | A path that starts with a drawing segment is stroked from the origin: its first command is `move_to(ZERO + n1*r)` |
| StrokerProps.CurveEndCapUsesEndNormal | crates/ori-core/src/canvas/stroke.rs:382-384 | For quads and cubics, the cap normal is sampled after `p0` has moved to the end point and still equals the true end normal |
| StrokerProps.LineEndCapIsDegenerate | crates/ori-core/src/canvas/stroke.rs:324-389 | For a line, the end cap uses `line_normal(p1, p1)`. The full output of `[Move(a), Line(b)]` with a butt cap is listed, with that degenerate normal |
| StrokerProps.SecondSubpathReappendsFirst | crates/ori-core/src/canvas/stroke.rs:291-308 | `outside` is never cleared on Move. In two open subpaths the second append carries a strict extension of the first subpath's outside |
| Canvas.New | crates/ori-core/src/canvas/canvas.rs:233-238 | `Canvas::new`: a canvas with no primitives |
| Canvas.DefaultPaint | crates/ori-core/src/canvas/canvas.rs:110-118 | The default paint is solid black, source-over, anti-aliased |
| Canvas.PaintFrom | crates/ori-core/src/canvas/canvas.rs:120-127 | A paint from a colour is solid in that colour and otherwise default |
| Canvas.MaskFromRect | crates/ori-core/src/canvas/canvas.rs:150-157 | A mask from a rectangle uses its outline and the non-zero fill rule |
| Canvas.Clear | crates/ori-core/src/canvas/canvas.rs:246-248 | Clearing leaves no primitives |
| Canvas.DrawRect | crates/ori-core/src/canvas/canvas.rs:251-253 | Appends exactly one rectangle; earlier primitives are unchanged |
| Canvas.Trigger | crates/ori-core/src/canvas/canvas.rs:256-265 | Appends one rectangle with a transparent, destination-blended paint; earlier primitives are unchanged |
| Canvas.Fill | crates/ori-core/src/canvas/canvas.rs:268-270 | Appends exactly one fill; earlier primitives are unchanged |
| Canvas.DrawStroke | crates/ori-core/src/canvas/canvas.rs:273-279 | Appends exactly one stroke; earlier primitives are unchanged |
| Canvas.DrawImage | crates/ori-core/src/canvas/canvas.rs:282-284 | Appends exactly one image; earlier primitives are unchanged |
| Canvas.DrawLayer | crates/ori-core/src/canvas/canvas.rs:287-305 | Appends one layer whose children are exactly what `f` draws on a fresh canvas |
| Canvas.DrawTransform | crates/ori-core/src/canvas/canvas.rs:307-310 | A transform layer has no mask and no view |
| Canvas.DrawMask | crates/ori-core/src/canvas/canvas.rs:312-315 | A mask layer has the identity transform and no view |
| Canvas.DrawView | crates/ori-core/src/canvas/canvas.rs:317-320 | A view layer has the identity transform and no mask |
| Canvas.Recurse | crates/ori-core/src/canvas/canvas.rs:323-371 | A hit names the enclosing view or a view of some nested layer |
| Canvas.ViewAt | crates/ori-core/src/canvas/canvas.rs:322-374 | A hit names the view of some layer in the tree |
| CanvasProps.ScanComposes | crates/ori-core/src/canvas/canvas.rs:324-370 | Scanning `ps + qs` from the top: if `qs` stops the scan, the answer is that of `qs`; otherwise it is that of `ps` |
| CanvasProps.LastShapeDecides | crates/ori-core/src/canvas/canvas.rs:326-345 | A shape drawn last that contains the point decides the answer: the enclosing view |
| CanvasProps.TopLevelShapeHidesLayers | crates/ori-core/src/canvas/canvas.rs:373-373 | A top-level shape on top that contains the point gives no view |
| CanvasProps.MaskedOutLayerIsSkipped | crates/ori-core/src/canvas/canvas.rs:353-359 | A layer whose mask excludes the inverse-transformed point is skipped |
| CanvasProps.LayerReplacesEnclosingView | crates/ori-core/src/canvas/canvas.rs:361-366 | A nested layer's view replaces the enclosing one, and a miss in a layer lets the scan continue below it |
| CanvasProps.StrokeNeverHits | crates/ori-core/src/canvas/canvas.rs:336-336 | Drawing a stroke never changes the hit-test answer |
| CanvasProps.SilhouetteHasNoStrokes | crates/ori-core/src/canvas/canvas.rs:336-336 | The silhouette of a primitive tree holds no strokes, at any depth |
| CanvasProps.HitTestSeesSilhouette | crates/ori-core/src/canvas/canvas.rs:324-370 | The hit test answers the same on the tree and on its silhouette, with strokes dropped and paints reset: only geometry matters |
| CanvasProps.TriggerHitsLikeRect | crates/ori-core/src/canvas/canvas.rs:256-265 | An invisible trigger rectangle hits exactly as a painted rectangle does |
| CanvasProps.ViewLayerClaimsItsShapes | crates/ori-core/src/canvas/canvas.rs:317-320 | A view layer around a rectangle containing the point reports that view |
| CanvasProps.TransformInsideViewHidesIt | crates/ori-core/src/canvas/canvas.rs:347-366 | A transform layer directly inside a view layer has view `None`, which replaces the outer view, so the view is never reported |
| Stacks.New | crates/ori-core/src/views/stack.rs:81-93 | A new stack is unbounded, unwrapped, start-justified, centre-aligned, with no gaps |
| Stacks.HStack | crates/ori-core/src/views/stack.rs:96-98 | `hstack` is a new horizontal stack |
| Stacks.VStack | crates/ori-core/src/views/stack.rs:101-103 | `vstack` is a new vertical stack |
| Stacks.WithSpace | crates/ori-core/src/views/stack.rs:106-109 | Sets the space and nothing else |
| Stacks.WithSize | crates/ori-core/src/views/stack.rs:112-115 | Sets both space bounds to the size and nothing else |
| Stacks.Width | crates/ori-core/src/views/stack.rs:118-122 | Sets min width = max width = w and leaves the heights and everything else alone |
| Stacks.Height | crates/ori-core/src/views/stack.rs:125-129 | Sets min height = max height = h and leaves the widths and everything else alone |
| Stacks.MinWidth | crates/ori-core/src/views/stack.rs:132-135 | Sets only the minimum width |
| Stacks.MinHeight | crates/ori-core/src/views/stack.rs:138-141 | Sets only the minimum height |
| Stacks.MaxWidth | crates/ori-core/src/views/stack.rs:144-147 | Sets only the maximum width |
| Stacks.MaxHeight | crates/ori-core/src/views/stack.rs:150-153 | Sets only the maximum height |
| Stacks.WithAxis | crates/ori-core/src/views/stack.rs:156-159 | Sets only the axis |
| Stacks.WithWrap | crates/ori-core/src/views/stack.rs:162-165 | Sets only the wrap flag |
| Stacks.WithJustifyContent | crates/ori-core/src/views/stack.rs:168-171 | Sets only the content justification |
| Stacks.WithAlignItems | crates/ori-core/src/views/stack.rs:174-177 | Sets only the item alignment |
| Stacks.WithAlignContent | crates/ori-core/src/views/stack.rs:180-183 | Sets only the line alignment |
| Stacks.Gap | crates/ori-core/src/views/stack.rs:186-190 | Sets both gaps and nothing else |
| Stacks.ColumnGap | crates/ori-core/src/views/stack.rs:193-196 | Sets only the column gap |
| Stacks.RowGap | crates/ori-core/src/views/stack.rs:199-202 | Sets only the row gap |
| Stacks.MeasureFixed | crates/ori-core/src/views/stack.rs:219-274 | The lines are the greedy wrap (see `Closed`). There is at least one line, covering the children in order, and only the first can be empty. Each later line starts with the child that overflowed the one before, and no child inside a line overflows it. A line's major is its children end to end with gaps, its minor is the largest child's capped at the maximum, and its flex total is its children's flex. Without wrap there is exactly one line. Every line's minor is at most the maximum |
| Stacks.GreedyTiles | crates/ori-core/src/views/stack.rs:219-274 | The lines tile `0..len`: the first starts at 0, the last ends at `len`, and each ends where the next starts |
| Stacks.ChildWithinLine | crates/ori-core/src/views/stack.rs:242-265 | Each child's minor extent is at most its line's, unless the line was capped at the maximum |
| Stacks.FlexSpace | crates/ori-core/src/views/stack.rs:309-319 | A relaid child gets exactly the desired major extent. Its minor extent is exactly the line's when stretching, else anywhere from 0 to the maximum |
| Stacks.PxPerFlex | crates/ori-core/src/views/stack.rs:291-300 | `px_per_flex`: the overflow shared out negatively, or the underflow positively, per unit of flex, else zero; its signs are stated by `PxPerFlexSign` |
| Stacks.PxPerFlexSign | crates/ori-core/src/views/stack.rs:291-300 | With a positive flex total, the per-flex share is negative exactly on overflow, positive exactly on underflow, and zero when the line fits |
| Stacks.FlexUpTo | crates/ori-core/src/views/stack.rs:302-327 | The inner loop gives each child of the line its relaid extents and touches no other child. Children that are neither flexible nor stretched keep theirs |
| Stacks.FlexKeepsSlack | crates/ori-core/src/views/stack.rs:302-327 | The inner loop keeps the line's major minus the sum of its children's majors |
| Stacks.MeasureFlex | crates/ori-core/src/views/stack.rs:290-328 | `measure_flex` changes no line's range, minor or flex total, and leaves the line offsets alone |
| Stacks.MeasureFlexKeepsSlack | crates/ori-core/src/views/stack.rs:290-328 | For every line, major minus the sum of its children's majors is the same before and after |
| Stacks.MeasureFlexChildren | crates/ori-core/src/views/stack.rs:290-328 | Every child ends with the extents of relaying it once, with its own line's share of flex. A child neither flexible nor stretched keeps its measured extents |
| Stacks.MeasureFlexKeepsTiles | crates/ori-core/src/views/stack.rs:290-328 | After `measure_flex` the lines still tile the children |
| Stacks.NewState | crates/ori-core/src/views/stack.rs:350-357 | A new state has no lines and `len` zero extents |
| Stacks.Resize | crates/ori-core/src/views/stack.rs:359-362 | Resizing gives `len` extents, keeps those that were there, pads with zeros, and leaves the lines alone |
| Stacks.StateMajor | crates/ori-core/src/views/stack.rs:364-372 | The stack's major extent is at least zero and at least every line's, and is one of them unless it is zero |
| Stacks.StateMinor | crates/ori-core/src/views/stack.rs:374-377 | `StackState::minor`, defined for at least one line; with no negative extents or gap it is non-negative |
| Stacks.StateMinorSingle | crates/ori-core/src/views/stack.rs:374-377 | With one line, the minor extent is that line's, with no gap |
| Stacks.StateMinorAppend | crates/ori-core/src/views/stack.rs:374-377 | Each further line adds its minor extent plus one gap |
| Stacks.StateMinorCovers | crates/ori-core/src/views/stack.rs:374-377 | With no negative extents or gap, the minor extent covers every line's |
| Click.New | crates/ori-core/src/views/click_handler.rs:64-71 | A new handler has no callbacks |
| Click.OnPress | crates/ori-core/src/views/click_handler.rs:74-77 | Sets the press callback and no other |
| Click.OnRelease | crates/ori-core/src/views/click_handler.rs:80-83 | Sets the release callback and no other |
| Click.OnClick | crates/ori-core/src/views/click_handler.rs:86-89 | Sets the click callback and no other |
| Click.WithPress | crates/ori-core/src/views/click_handler.rs:10-15 | The free `on_press` gives a handler with only a press callback |
| Click.WithRelease | crates/ori-core/src/views/click_handler.rs:18-23 | The free `on_release` gives a handler with only a release callback |
| Click.WithClick | crates/ori-core/src/views/click_handler.rs:26-31 | The free `on_click` gives a handler with only a click callback |
| Click.ContentHandledIsFinal | crates/ori-core/src/views/click_handler.rs:124-128 | If the content handled the event, the handler changes no state and does nothing |
| Click.Event | crates/ori-core/src/views/click_handler.rs:117-174 | `Clickable::event`: it never clears a handled flag; the press position changes only on a press, which activates the view and handles the event; every change of the active flag ends with a click event sent to the content |
| Click.EventEffects | crates/ori-core/src/views/click_handler.rs:137-172 | A hot press sends `Press` and calls `on_press`. Otherwise a release while active sends `Release` and calls `on_release`, then `Click` and `on_click` exactly when within `MAX_CLICK_DISTANCE = 10` of the press. Anything else does nothing. Unset callbacks are not called |
| Click.EventState | crates/ori-core/src/views/click_handler.rs:130-160 | A hot press activates, records the press point and handles the event. A release while active deactivates. A hot move is handled. The event ends handled if and only if the content handled it, or it was a hot move or a hot press |
| Click.PressThenRelease | crates/ori-core/src/views/click_handler.rs:137-171 | A hot press at p followed by a release at q is a click if and only if q is within 10 of p |
| Click.InactiveReleaseIsIgnored | crates/ori-core/src/views/click_handler.rs:150-159 | A release while not active does nothing |

## Left out

- The layout calls into the children (`layout_nth`) are not modelled. `measure_fixed` takes the sizes they return as input. `measure_flex` takes the relayout as a function from child index and space to size. The space `measure_fixed` offers each child (stack.rs:228-232) is not modelled.
- The rest of the stack's `layout` (stack.rs:423-480) is not modelled: the clamp of the first line's minor when not wrapping, `Space::constrain` and `fit`, and the `Justify`/`Align` placement of lines and children. Those types live in files that are not part of this model. The same goes for `build`/`rebuild`/`event`/`draw`, which only delegate to the content.
- The warning logged for a non-flexible child of infinite size (stack.rs:238-240) is only a log line. Child extents are finite reals. Only the space's bounds may be infinite (`Extent`).
- Floating point is not modelled. All arithmetic is exact over `real`: f32 rounding, NaN and signed zero are absent. The f32 division in `px_per_flex` is an abstract `quot`, because a zero flex total divides by zero there. `PxPerFlexSign` assumes a positive total.
- `normalize`, `hat`, `length`, `sqrt`, `Curve::contains`, `Rect::contains`, `Affine::inverse`, `Image::size`, `append_reverse`, `conic_to` and `Curve::from(Rect)` are abstract parameters. They are defined in files that are not part of this model. `AppendReverse` records a snapshot of `outside` instead of reversing it.
- Strokes.OffsetQuad: does not state that the offset lies within `MAX_ERROR` of the true offset. That is floating-point geometry, not structure.
- Strokes.OffsetCubic: does not state geometric accuracy, for the same reason.
- Strokes.StrokeRound: does not state that the conics approximate a circular arc.
- Strokes.HashInputExact: `to_bits` is a parameter. The lemma assumes it separates the two strokes' widths and miter limits, which f32's `-0.0`/`0.0` would not.
- `Color::BLACK` and `Color::TRANSPARENT` are taken as (0,0,0,1) and (0,0,0,0). The colour type is not part of this model.
- The `LineCap`, `LineJoin` and `Stroke` definitions duplicated in canvas.rs are modelled once, from stroke.rs.
- The click handler's pointer event is reduced to its kind flags and its local position. `cx.local` and the content's reaction to the dispatched `ClickEvent`s are not modelled. The distance test compares squared distance with 10², which is exact over reals.
- The stroker requires every `Close` to follow a drawing segment in its subpath. Otherwise the source unwraps `None` and panics (stroke.rs:375).
- `StackState::minor` requires at least one line: the source computes `lines.len() - 1` on an unsigned length.
