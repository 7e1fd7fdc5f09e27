/**
 * The stack view of crates/ori-core/src/views/stack.rs: its configuration
 * and builder setters, the greedy line breaking of `measure_fixed`, the
 * line adjustment of `measure_flex`, and the aggregates of `StackState`.
 * The children's measured sizes are inputs: the layout calls that produce
 * them are not part of this model.
 */
module Stacks {

  // ---------------------------------------------------------------------
  // Lengths, sizes and spaces
  // ---------------------------------------------------------------------

  /** An f32 length that may be infinite, as the bounds of a `Space` may be. */
  datatype Extent = Finite(value: real) | Infinite

  /** `x > e` on f32: nothing finite exceeds infinity. */
  predicate Exceeds(x: real, e: Extent) {
    e.Finite? && x > e.value
  }

  /** `f32::min(x, e)`. */
  function MinExtent(x: real, e: Extent): (r: real)
    ensures r <= x && (e.Finite? ==> r <= e.value)
    ensures r == x || (e.Finite? && r == e.value)
  {
    if e.Finite? && e.value < x then e.value else x
  }

  /** `f32::max` on finite values. */
  function Max(a: real, b: real): (r: real)
    ensures r >= a && r >= b && (r == a || r == b)
  {
    if a >= b then a else b
  }

  datatype Size = Size(width: Extent, height: Extent)

  datatype Space = Space(min: Size, max: Size)

  /** `Space::UNBOUNDED`: from zero to infinity on both axes. */
  const UNBOUNDED: Space := Space(Size(Finite(0.0), Finite(0.0)), Size(Infinite, Infinite))

  /** `Space::from_size`: exactly `size`. */
  function SpaceFromSize(size: Size): (s: Space)
    ensures s.min == size && s.max == size
  {
    Space(size, size)
  }

  /** The main (major) axis of a stack; the other is the cross (minor) axis. */
  datatype Axis = Horizontal | Vertical
  {
    /** Width and height from major and minor. */
    function Pack<T>(major: T, minor: T): (wh: (T, T))
      ensures Horizontal? ==> wh == (major, minor)
      ensures Vertical? ==> wh == (minor, major)
    {
      if Horizontal? then (major, minor) else (minor, major)
    }

    /** Major and minor from width and height. */
    function Unpack<T>(wh: (T, T)): (mm: (T, T))
      ensures Horizontal? ==> mm == wh
      ensures Vertical? ==> mm == (wh.1, wh.0)
    {
      if Horizontal? then wh else (wh.1, wh.0)
    }
  }

  lemma PackRoundTrip<T>(axis: Axis, major: T, minor: T, wh: (T, T))
    ensures axis.Unpack(axis.Pack(major, minor)) == (major, minor)
    ensures axis.Pack(axis.Unpack(wh).0, axis.Unpack(wh).1) == wh
  {
  }

  datatype Align = Start | Center | End | Stretch

  datatype Justify = JustifyStart | JustifyCenter | JustifyEnd | SpaceBetween | SpaceAround | SpaceEvenly

  // ---------------------------------------------------------------------
  // The stack configuration and its builder
  // ---------------------------------------------------------------------

  /** A stack's layout configuration (its content is not modelled). */
  datatype Stack = Stack(
    space: Space,
    axis: Axis,
    wrap: bool,
    justifyContent: Justify,
    alignItems: Align,
    alignContent: Justify,
    columnGap: real,
    rowGap: real)

  /** `Stack::new`: unbounded, unwrapped, start-justified, centred, no gaps. */
  function New(axis: Axis): (s: Stack)
    ensures s.axis == axis && s.space == UNBOUNDED && !s.wrap
    ensures s.justifyContent == JustifyStart && s.alignItems == Center && s.alignContent == JustifyStart
    ensures s.columnGap == 0.0 && s.rowGap == 0.0
  {
    Stack(UNBOUNDED, axis, false, JustifyStart, Center, JustifyStart, 0.0, 0.0)
  }

  function HStack(): (s: Stack)
    ensures s == New(Horizontal)
  {
    New(Horizontal)
  }

  function VStack(): (s: Stack)
    ensures s == New(Vertical)
  {
    New(Vertical)
  }

  function WithSpace(s: Stack, space: Space): (r: Stack)
    ensures r.space == space && r.(space := s.space) == s
  {
    s.(space := space)
  }

  function WithSize(s: Stack, size: Size): (r: Stack)
    ensures r.space.min == size && r.space.max == size && r.(space := s.space) == s
  {
    s.(space := SpaceFromSize(size))
  }

  /** `width`: fixes the width, as both its minimum and its maximum; nothing else changes. */
  function Width(s: Stack, width: Extent): (r: Stack)
    ensures r.space.min.width == r.space.max.width == width
    ensures r.space.min.height == s.space.min.height && r.space.max.height == s.space.max.height
    ensures r.(space := s.space) == s
  {
    s.(space := Space(s.space.min.(width := width), s.space.max.(width := width)))
  }

  /** `height`: fixes the height, as both its minimum and its maximum; nothing else changes. */
  function Height(s: Stack, height: Extent): (r: Stack)
    ensures r.space.min.height == r.space.max.height == height
    ensures r.space.min.width == s.space.min.width && r.space.max.width == s.space.max.width
    ensures r.(space := s.space) == s
  {
    s.(space := Space(s.space.min.(height := height), s.space.max.(height := height)))
  }

  function MinWidth(s: Stack, w: Extent): (r: Stack)
    ensures r.space.min.width == w
    ensures r.space.min.height == s.space.min.height && r.space.max == s.space.max
    ensures r.(space := s.space) == s
  {
    s.(space := s.space.(min := s.space.min.(width := w)))
  }

  function MinHeight(s: Stack, h: Extent): (r: Stack)
    ensures r.space.min.height == h
    ensures r.space.min.width == s.space.min.width && r.space.max == s.space.max
    ensures r.(space := s.space) == s
  {
    s.(space := s.space.(min := s.space.min.(height := h)))
  }

  function MaxWidth(s: Stack, w: Extent): (r: Stack)
    ensures r.space.max.width == w
    ensures r.space.max.height == s.space.max.height && r.space.min == s.space.min
    ensures r.(space := s.space) == s
  {
    s.(space := s.space.(max := s.space.max.(width := w)))
  }

  function MaxHeight(s: Stack, h: Extent): (r: Stack)
    ensures r.space.max.height == h
    ensures r.space.max.width == s.space.max.width && r.space.min == s.space.min
    ensures r.(space := s.space) == s
  {
    s.(space := s.space.(max := s.space.max.(height := h)))
  }

  function WithAxis(s: Stack, axis: Axis): (r: Stack)
    ensures r.axis == axis && r.(axis := s.axis) == s
  {
    s.(axis := axis)
  }

  function WithWrap(s: Stack, wrap: bool): (r: Stack)
    ensures r.wrap == wrap && r.(wrap := s.wrap) == s
  {
    s.(wrap := wrap)
  }

  function WithJustifyContent(s: Stack, j: Justify): (r: Stack)
    ensures r.justifyContent == j && r.(justifyContent := s.justifyContent) == s
  {
    s.(justifyContent := j)
  }

  function WithAlignItems(s: Stack, a: Align): (r: Stack)
    ensures r.alignItems == a && r.(alignItems := s.alignItems) == s
  {
    s.(alignItems := a)
  }

  function WithAlignContent(s: Stack, j: Justify): (r: Stack)
    ensures r.alignContent == j && r.(alignContent := s.alignContent) == s
  {
    s.(alignContent := j)
  }

  /** `gap`: sets both the column and the row gap; nothing else changes. */
  function Gap(s: Stack, gap: real): (r: Stack)
    ensures r.columnGap == gap && r.rowGap == gap
    ensures r.(columnGap := s.columnGap, rowGap := s.rowGap) == s
  {
    s.(columnGap := gap, rowGap := gap)
  }

  function ColumnGap(s: Stack, gap: real): (r: Stack)
    ensures r.columnGap == gap && r.(columnGap := s.columnGap) == s
  {
    s.(columnGap := gap)
  }

  function RowGap(s: Stack, gap: real): (r: Stack)
    ensures r.rowGap == gap && r.(rowGap := s.rowGap) == s
  {
    s.(rowGap := gap)
  }

  // ---------------------------------------------------------------------
  // Children and lines
  // ---------------------------------------------------------------------

  /**
   * A child as `measure_fixed` sees it: its measured size along the major
   * and minor axes, its flex factor, and whether it is flexible.
   */
  datatype Child = Child(major: real, minor: real, flex: real, isFlex: bool)

  /** A flexible child's size is clamped to the maximum space; a fixed one's is kept. */
  function ClampMajor(c: Child, maxMajor: Extent): real {
    if c.isFlex then MinExtent(c.major, maxMajor) else c.major
  }

  function ClampMinor(c: Child, maxMinor: Extent): real {
    if c.isFlex then MinExtent(c.minor, maxMinor) else c.minor
  }

  function Majors(children: seq<Child>, maxMajor: Extent): (r: seq<real>)
    ensures |r| == |children|
    ensures forall i :: 0 <= i < |r| ==> r[i] == ClampMajor(children[i], maxMajor)
  {
    seq(|children|, i requires 0 <= i < |children| => ClampMajor(children[i], maxMajor))
  }

  function Minors(children: seq<Child>, maxMinor: Extent): (r: seq<real>)
    ensures |r| == |children|
    ensures forall i :: 0 <= i < |r| ==> r[i] == ClampMinor(children[i], maxMinor)
  {
    seq(|children|, i requires 0 <= i < |children| => ClampMinor(children[i], maxMinor))
  }

  function Flexes(children: seq<Child>): (r: seq<real>)
    ensures |r| == |children|
    ensures forall i :: 0 <= i < |r| ==> r[i] == children[i].flex
  {
    seq(|children|, i requires 0 <= i < |children| => children[i].flex)
  }

  /** `xs[s] + ... + xs[e-1]`. */
  function SumRange(xs: seq<real>, s: nat, e: nat): real
    requires s <= e <= |xs|
    decreases e - s
  {
    if s == e then 0.0 else SumRange(xs, s, e - 1) + xs[e - 1]
  }

  /** `init` folded with `max` over `xs[s..e]`. */
  function MaxRange(init: real, xs: seq<real>, s: nat, e: nat): real
    requires s <= e <= |xs|
    decreases e - s
  {
    if s == e then init else Max(MaxRange(init, xs, s, e - 1), xs[e - 1])
  }

  /** The major extent of children `s..e` laid end to end with `gap` between neighbours. */
  function LineMajor(xs: seq<real>, s: nat, e: nat, gap: real): real
    requires s <= e <= |xs|
  {
    if s == e then 0.0 else SumRange(xs, s, e) + gap * (e - s - 1) as real
  }

  /** The gap before child `i`: none before the very first child. */
  function GapBefore(i: nat, gapMajor: real): real {
    if i > 0 then gapMajor else 0.0
  }

  datatype StackLine = StackLine(start: nat, end: nat, major: real, minor: real, flexSum: real)

  /**
   * `lines` split `0..upto` into consecutive ranges, in order, with no gaps
   * (no lines at all only when there is nothing to split).
   */
  ghost predicate Ranges(lines: seq<StackLine>, upto: nat) {
    && (|lines| == 0 ==> upto == 0)
    && (|lines| > 0 ==> lines[0].start == 0 && lines[|lines| - 1].end == upto)
    && (forall k {:trigger lines[k].start} :: 0 <= k < |lines| ==> lines[k].start <= lines[k].end <= upto)
    && (forall k {:trigger lines[k].start} :: 1 <= k < |lines| ==> lines[k - 1].end == lines[k].start)
  }

  /** At least one line, and the lines split `0..n` into consecutive ranges. */
  ghost predicate Tiles(lines: seq<StackLine>, n: nat) {
    |lines| >= 1 && Ranges(lines, n)
  }

  /** Whether child `i`, after a line of major extent `running`, overflows onto a new line. */
  predicate BreaksAt(running: real, majors: seq<real>, i: nat, wrap: bool, gapMajor: real, maxMajor: Extent)
    requires i < |majors|
  {
    wrap && Exceeds(running + majors[i] + GapBefore(i, gapMajor), maxMajor)
  }

  /** No child `from..to` of the line starting at `s` overflows it. */
  ghost predicate NoBreakWithin(majors: seq<real>, s: nat, from: nat, to: nat, wrap: bool, gapMajor: real, maxMajor: Extent)
    requires s <= from && to <= |majors|
  {
    forall j {:trigger LineMajor(majors, s, j, gapMajor)} :: from <= j < to ==>
      !BreaksAt(LineMajor(majors, s, j, gapMajor), majors, j, wrap, gapMajor, maxMajor)
  }

  /**
   * The first child of line `k` whose overflow is compared against that line:
   * a later line's first child is the one that broke the previous line.
   */
  function FirstCompared(k: nat, s: nat): nat {
    if k == 0 then s else s + 1
  }

  /** The minor extent a line starts from: zero for the first line, its first child's for the others. */
  function MinorSeed(k: nat, s: nat, minors: seq<real>): real {
    if k == 0 || s >= |minors| then 0.0 else minors[s]
  }

  /** Line `k` holds the totals of its children. */
  ghost predicate Totals(line: StackLine, k: nat, majors: seq<real>, minors: seq<real>, flexes: seq<real>,
                         gapMajor: real, maxMinor: Extent)
    requires line.start <= line.end <= |majors| == |minors| == |flexes|
  {
    && line.major == LineMajor(majors, line.start, line.end, gapMajor)
    && line.minor == MinExtent(MaxRange(MinorSeed(k, line.start, minors), minors, line.start, line.end), maxMinor)
    && line.flexSum == SumRange(flexes, line.start, line.end)
  }

  /**
   * The lines closed so far cover children `0..upto`: consecutive ranges
   * from 0, none but the first empty, each holding its children's totals,
   * each later one started by a child that overflowed the one before, and
   * no child inside a line overflowing it.
   */
  ghost predicate Closed(lines: seq<StackLine>, upto: nat, majors: seq<real>, minors: seq<real>, flexes: seq<real>,
                         wrap: bool, gapMajor: real, maxMajor: Extent, maxMinor: Extent)
    requires upto <= |majors| == |minors| == |flexes|
  {
    && Ranges(lines, upto)
    && (forall k {:trigger lines[k].start} :: 1 <= k < |lines| ==> lines[k].start < lines[k].end)
    && (forall k {:trigger lines[k]} :: 0 <= k < |lines| ==> Totals(lines[k], k, majors, minors, flexes, gapMajor, maxMinor))
    && (forall k {:trigger lines[k].start} :: 1 <= k < |lines| ==> BreaksAt(lines[k - 1].major, majors, lines[k].start, wrap, gapMajor, maxMajor))
    && (forall k {:trigger lines[k]} :: 0 <= k < |lines| ==>
          NoBreakWithin(majors, lines[k].start, FirstCompared(k, lines[k].start), lines[k].end, wrap, gapMajor, maxMajor))
  }

  /**
   * Everything `measure_fixed` promises of its lines: at least one, and
   * together they cover all `|majors|` children as `Closed` describes.
   */
  ghost predicate Greedy(lines: seq<StackLine>, majors: seq<real>, minors: seq<real>, flexes: seq<real>,
                         wrap: bool, gapMajor: real, maxMajor: Extent, maxMinor: Extent)
    requires |majors| == |minors| == |flexes|
  {
    |lines| >= 1 && Closed(lines, |majors|, majors, minors, flexes, wrap, gapMajor, maxMajor, maxMinor)
  }

  lemma GreedyTiles(lines: seq<StackLine>, majors: seq<real>, minors: seq<real>, flexes: seq<real>,
                    wrap: bool, gapMajor: real, maxMajor: Extent, maxMinor: Extent)
    requires |majors| == |minors| == |flexes|
    requires Greedy(lines, majors, minors, flexes, wrap, gapMajor, maxMajor, maxMinor)
    ensures Tiles(lines, |majors|)
  {
  }

  // ---------------------------------------------------------------------
  // measure_fixed
  // ---------------------------------------------------------------------

  lemma LineMajorStep(xs: seq<real>, s: nat, e: nat, gap: real)
    requires s <= e < |xs|
    ensures LineMajor(xs, s, e + 1, gap) == LineMajor(xs, s, e, gap) + xs[e] + (if s < e then gap else 0.0)
  {
    assert SumRange(xs, s, e + 1) == SumRange(xs, s, e) + xs[e];
    if s < e {
      var c := (e - s - 1) as real;
      assert (e + 1 - s - 1) as real == c + 1.0;
      assert gap * (c + 1.0) == gap * c + gap;
    }
  }

  /** Opening a line at child `i`, and extending an open line by child `e`. */
  lemma RangeSteps(xs: seq<real>, init: real, s: nat, e: nat)
    requires s <= e < |xs|
    ensures SumRange(xs, s, e + 1) == SumRange(xs, s, e) + xs[e]
    ensures MaxRange(init, xs, s, e + 1) == Max(MaxRange(init, xs, s, e), xs[e])
    ensures SumRange(xs, e, e + 1) == xs[e]
    ensures MaxRange(xs[e], xs, e, e + 1) == xs[e]
  {
    assert SumRange(xs, e, e) == 0.0;
  }

  /** Appending the range `start..i` to ranges that cover `0..start` covers `0..i`. */
  lemma RangesAppend(lines: seq<StackLine>, start: nat, line: StackLine)
    requires Ranges(lines, start)
    requires line.start == start <= line.end
    ensures Ranges(lines + [line], line.end)
  {
    var ls := lines + [line];
    assert ls[|lines|] == line;
    forall k | 0 <= k < |ls|
      ensures ls[k].start <= ls[k].end <= line.end
    {
      if k < |lines| {
        assert ls[k] == lines[k];
      }
    }
    forall k | 1 <= k < |ls|
      ensures ls[k - 1].end == ls[k].start
    {
      if k < |lines| {
        assert ls[k] == lines[k] && ls[k - 1] == lines[k - 1];
      } else {
        assert ls[k - 1] == lines[|lines| - 1];
      }
    }
  }

  /** The closed line `line` holds its totals, and nothing in it overflows it. */
  lemma AppendTotals(lines: seq<StackLine>, line: StackLine, majors: seq<real>, minors: seq<real>, flexes: seq<real>,
                     wrap: bool, gapMajor: real, maxMajor: Extent, maxMinor: Extent)
    requires line.start <= line.end <= |majors| == |minors| == |flexes|
    requires forall k {:trigger lines[k].start} :: 0 <= k < |lines| ==> lines[k].start <= lines[k].end <= |majors|
    requires forall k {:trigger lines[k]} :: 0 <= k < |lines| ==> Totals(lines[k], k, majors, minors, flexes, gapMajor, maxMinor)
    requires forall k {:trigger lines[k]} :: 0 <= k < |lines| ==>
      NoBreakWithin(majors, lines[k].start, FirstCompared(k, lines[k].start), lines[k].end, wrap, gapMajor, maxMajor)
    requires Totals(line, |lines|, majors, minors, flexes, gapMajor, maxMinor)
    requires NoBreakWithin(majors, line.start, FirstCompared(|lines|, line.start), line.end, wrap, gapMajor, maxMajor)
    ensures var ls := lines + [line];
      && (forall k {:trigger ls[k]} :: 0 <= k < |ls| ==> Totals(ls[k], k, majors, minors, flexes, gapMajor, maxMinor))
      && (forall k {:trigger ls[k]} :: 0 <= k < |ls| ==>
            NoBreakWithin(majors, ls[k].start, FirstCompared(k, ls[k].start), ls[k].end, wrap, gapMajor, maxMajor))
  {
    var ls := lines + [line];
    forall k | 0 <= k < |ls|
      ensures Totals(ls[k], k, majors, minors, flexes, gapMajor, maxMinor)
      ensures NoBreakWithin(majors, ls[k].start, FirstCompared(k, ls[k].start), ls[k].end, wrap, gapMajor, maxMajor)
    {
      if k < |lines| {
        assert ls[k] == lines[k];
        assert lines[k].start <= lines[k].end;
      } else {
        assert ls[k] == line;
      }
    }
  }

  /** The line `line`, nonempty and started by a child that overflowed the last closed line, extends the chain of breaks. */
  lemma AppendBreaks(lines: seq<StackLine>, line: StackLine, majors: seq<real>, wrap: bool, gapMajor: real, maxMajor: Extent)
    requires line.start < line.end <= |majors|
    requires forall k {:trigger lines[k].start} :: 0 <= k < |lines| ==> lines[k].start <= lines[k].end <= |majors|
    requires forall k {:trigger lines[k].start} :: 1 <= k < |lines| ==> lines[k].start < lines[k].end && BreaksAt(lines[k - 1].major, majors, lines[k].start, wrap, gapMajor, maxMajor)
    requires |lines| > 0 ==> BreaksAt(lines[|lines| - 1].major, majors, line.start, wrap, gapMajor, maxMajor)
    ensures var ls := lines + [line];
      forall k {:trigger ls[k].start} :: 1 <= k < |ls| ==> ls[k].start < ls[k].end && BreaksAt(ls[k - 1].major, majors, ls[k].start, wrap, gapMajor, maxMajor)
  {
    var ls := lines + [line];
    forall k | 1 <= k < |ls|
      ensures ls[k].start < ls[k].end
      ensures BreaksAt(ls[k - 1].major, majors, ls[k].start, wrap, gapMajor, maxMajor)
    {
      if k < |lines| {
        assert ls[k] == lines[k] && ls[k - 1] == lines[k - 1];
      } else {
        assert ls[k] == line && ls[k - 1] == lines[|lines| - 1];
      }
    }
  }

  /** Closing the open line `start..i` keeps the closed lines as `Greedy` demands. */
  lemma CloseLine(lines: seq<StackLine>, start: nat, i: nat, major: real, minor: real, flexSum: real,
                  majors: seq<real>, minors: seq<real>, flexes: seq<real>,
                  wrap: bool, gapMajor: real, maxMajor: Extent, maxMinor: Extent)
    requires start <= i <= |majors| == |minors| == |flexes|
    requires Closed(lines, start, majors, minors, flexes, wrap, gapMajor, maxMajor, maxMinor)
    requires |lines| > 0 ==> start < i && BreaksAt(lines[|lines| - 1].major, majors, start, wrap, gapMajor, maxMajor)
    requires major == LineMajor(majors, start, i, gapMajor)
    requires minor == MaxRange(MinorSeed(|lines|, start, minors), minors, start, i)
    requires flexSum == SumRange(flexes, start, i)
    requires NoBreakWithin(majors, start, FirstCompared(|lines|, start), i, wrap, gapMajor, maxMajor)
    ensures var line := StackLine(start, i, major, MinExtent(minor, maxMinor), flexSum);
      Closed(lines + [line], i, majors, minors, flexes, wrap, gapMajor, maxMajor, maxMinor)
  {
    var line := StackLine(start, i, major, MinExtent(minor, maxMinor), flexSum);
    RangesAppend(lines, start, line);
    AppendTotals(lines, line, majors, minors, flexes, wrap, gapMajor, maxMajor, maxMinor);
    if |lines| > 0 {
      AppendBreaks(lines, line, majors, wrap, gapMajor, maxMajor);
    } else {
      assert |lines + [line]| == 1;
    }
  }

  /** The loop state of `measure_fixed`: the closed lines and the open line from `start`. */
  datatype Cursor = Cursor(lines: seq<StackLine>, start: nat, major: real, minor: real, flexSum: real)

  /**
   * The open line of the loop of `measure_fixed` before child `i`: it runs
   * from `start` to `i`, holds those children's totals, was opened by the
   * child that overflowed the last closed line, and nothing in it overflows.
   */
  ghost predicate Open(c: Cursor, i: nat, majors: seq<real>, minors: seq<real>, flexes: seq<real>,
                       wrap: bool, gapMajor: real, maxMajor: Extent)
    requires i <= |majors| == |minors| == |flexes|
  {
    && c.start <= i
    && (|c.lines| == 0 ==> c.start == 0)
    && (|c.lines| > 0 ==> c.start < i)
    && (|c.lines| > 0 ==> BreaksAt(c.lines[|c.lines| - 1].major, majors, c.start, wrap, gapMajor, maxMajor))
    && (!wrap ==> |c.lines| == 0)
    && c.major == LineMajor(majors, c.start, i, gapMajor)
    && c.minor == MaxRange(MinorSeed(|c.lines|, c.start, minors), minors, c.start, i)
    && c.flexSum == SumRange(flexes, c.start, i)
    && NoBreakWithin(majors, c.start, FirstCompared(|c.lines|, c.start), i, wrap, gapMajor, maxMajor)
  }

  /** The state of the loop of `measure_fixed` before child `i`: the closed lines and the open one. */
  ghost predicate Scan(c: Cursor, i: nat, majors: seq<real>, minors: seq<real>, flexes: seq<real>,
                       wrap: bool, gapMajor: real, maxMajor: Extent, maxMinor: Extent)
    requires i <= |majors| == |minors| == |flexes|
  {
    && c.start <= i
    && Closed(c.lines, c.start, majors, minors, flexes, wrap, gapMajor, maxMajor, maxMinor)
    && Open(c, i, majors, minors, flexes, wrap, gapMajor, maxMajor)
  }

  /** Before the first child nothing is closed and the open line is empty. */
  lemma ScanStart(majors: seq<real>, minors: seq<real>, flexes: seq<real>,
                  wrap: bool, gapMajor: real, maxMajor: Extent, maxMinor: Extent)
    requires |majors| == |minors| == |flexes|
    ensures Scan(Cursor([], 0, 0.0, 0.0, 0.0), 0, majors, minors, flexes, wrap, gapMajor, maxMajor, maxMinor)
  {
  }

  /** Child `i` overflows the open line: close it and open a new line at `i`. */
  function Break(c: Cursor, i: nat, majors: seq<real>, minors: seq<real>, flexes: seq<real>, maxMinor: Extent): Cursor
    requires i < |majors| == |minors| == |flexes|
  {
    Cursor(c.lines + [StackLine(c.start, i, c.major, MinExtent(c.minor, maxMinor), c.flexSum)],
           i, majors[i], minors[i], flexes[i])
  }

  /** Child `i` fits: add it to the open line, after the gap. */
  function Extend(c: Cursor, i: nat, majors: seq<real>, minors: seq<real>, flexes: seq<real>, gapMajor: real): Cursor
    requires i < |majors| == |minors| == |flexes|
  {
    c.(major := c.major + majors[i] + GapBefore(i, gapMajor), minor := Max(c.minor, minors[i]),
       flexSum := c.flexSum + flexes[i])
  }

  lemma ScanBreak(c: Cursor, i: nat, majors: seq<real>, minors: seq<real>, flexes: seq<real>,
                  wrap: bool, gapMajor: real, maxMajor: Extent, maxMinor: Extent)
    requires i < |majors| == |minors| == |flexes|
    requires Scan(c, i, majors, minors, flexes, wrap, gapMajor, maxMajor, maxMinor)
    requires BreaksAt(c.major, majors, i, wrap, gapMajor, maxMajor)
    ensures Scan(Break(c, i, majors, minors, flexes, maxMinor), i + 1, majors, minors, flexes, wrap, gapMajor, maxMajor, maxMinor)
  {
    CloseLine(c.lines, c.start, i, c.major, c.minor, c.flexSum, majors, minors, flexes, wrap, gapMajor, maxMajor, maxMinor);
    var line := StackLine(c.start, i, c.major, MinExtent(c.minor, maxMinor), c.flexSum);
    var ls := c.lines + [line];
    assert ls[|ls| - 1] == line;
    LineMajorStep(majors, i, i, gapMajor);
    RangeSteps(minors, 0.0, i, i);
    RangeSteps(flexes, 0.0, i, i);
    assert MinorSeed(|ls|, i, minors) == minors[i];
  }

  /** Adding a child that fits keeps the open line's totals. */
  lemma OpenContinue(c: Cursor, i: nat, majors: seq<real>, minors: seq<real>, flexes: seq<real>,
                     wrap: bool, gapMajor: real, maxMajor: Extent)
    requires i < |majors| == |minors| == |flexes|
    requires Open(c, i, majors, minors, flexes, wrap, gapMajor, maxMajor)
    requires !BreaksAt(c.major, majors, i, wrap, gapMajor, maxMajor)
    ensures Open(Extend(c, i, majors, minors, flexes, gapMajor), i + 1, majors, minors, flexes, wrap, gapMajor, maxMajor)
  {
    LineMajorStep(majors, c.start, i, gapMajor);
    RangeSteps(minors, MinorSeed(|c.lines|, c.start, minors), c.start, i);
    RangeSteps(flexes, 0.0, c.start, i);
    assert c.start == i ==> i == 0;
  }

  lemma ScanContinue(c: Cursor, i: nat, majors: seq<real>, minors: seq<real>, flexes: seq<real>,
                     wrap: bool, gapMajor: real, maxMajor: Extent, maxMinor: Extent)
    requires i < |majors| == |minors| == |flexes|
    requires Scan(c, i, majors, minors, flexes, wrap, gapMajor, maxMajor, maxMinor)
    requires !BreaksAt(c.major, majors, i, wrap, gapMajor, maxMajor)
    ensures Scan(Extend(c, i, majors, minors, flexes, gapMajor), i + 1, majors, minors, flexes, wrap, gapMajor, maxMajor, maxMinor)
  {
    OpenContinue(c, i, majors, minors, flexes, wrap, gapMajor, maxMajor);
    assert Extend(c, i, majors, minors, flexes, gapMajor).lines == c.lines;
  }

  /**
   * One iteration of the loop of `measure_fixed`: child `i` either breaks
   * the open line (wrapping on, and it would overflow `maxMajor`) or joins it.
   */
  function Feed(c: Cursor, i: nat, majors: seq<real>, minors: seq<real>, flexes: seq<real>,
                wrap: bool, gapMajor: real, maxMajor: Extent, maxMinor: Extent): (r: Cursor)
    requires i < |majors| == |minors| == |flexes|
    requires Scan(c, i, majors, minors, flexes, wrap, gapMajor, maxMajor, maxMinor)
    ensures Scan(r, i + 1, majors, minors, flexes, wrap, gapMajor, maxMajor, maxMinor)
  {
    if BreaksAt(c.major, majors, i, wrap, gapMajor, maxMajor) then
      ScanBreak(c, i, majors, minors, flexes, wrap, gapMajor, maxMajor, maxMinor);
      Break(c, i, majors, minors, flexes, maxMinor)
    else
      ScanContinue(c, i, majors, minors, flexes, wrap, gapMajor, maxMajor, maxMinor);
      Extend(c, i, majors, minors, flexes, gapMajor)
  }

  /** After the last child, the open line is closed too. */
  function Finish(c: Cursor, n: nat, maxMinor: Extent): seq<StackLine> {
    c.lines + [StackLine(c.start, n, c.major, MinExtent(c.minor, maxMinor), c.flexSum)]
  }

  /** Closing the open line after the last child yields lines as `measure_fixed` promises them. */
  lemma ScanFinish(c: Cursor, majors: seq<real>, minors: seq<real>, flexes: seq<real>,
                   wrap: bool, gapMajor: real, maxMajor: Extent, maxMinor: Extent)
    requires |majors| == |minors| == |flexes|
    requires Scan(c, |majors|, majors, minors, flexes, wrap, gapMajor, maxMajor, maxMinor)
    ensures var lines := Finish(c, |majors|, maxMinor);
      && Greedy(lines, majors, minors, flexes, wrap, gapMajor, maxMajor, maxMinor)
      && (!wrap ==> |lines| == 1)
      && (forall k :: 0 <= k < |lines| ==> maxMinor.Finite? ==> lines[k].minor <= maxMinor.value)
  {
    var n := |majors|;
    CloseLine(c.lines, c.start, n, c.major, c.minor, c.flexSum, majors, minors, flexes, wrap, gapMajor, maxMajor, maxMinor);
    var lines := Finish(c, n, maxMinor);
    forall k | 0 <= k < |lines|
      ensures maxMinor.Finite? ==> lines[k].minor <= maxMinor.value
    {
      assert Totals(lines[k], k, majors, minors, flexes, gapMajor, maxMinor);
    }
  }

  /**
   * `measure_fixed`: lay the children out greedily into lines. A child
   * starts a new line exactly when wrapping is on and it would push the
   * current line past `maxMajor`; each line records its major extent (the
   * children end to end with gaps), its minor extent (the largest child's,
   * capped at `maxMinor`) and its flex total. Only the first line can be
   * empty, and without wrapping there is a single line.
   */
  method MeasureFixed(children: seq<Child>, wrap: bool, gapMajor: real, maxMajor: Extent, maxMinor: Extent)
    returns (lines: seq<StackLine>, majors: seq<real>, minors: seq<real>)
    ensures majors == Majors(children, maxMajor) && minors == Minors(children, maxMinor)
    ensures Greedy(lines, majors, minors, Flexes(children), wrap, gapMajor, maxMajor, maxMinor)
    ensures !wrap ==> |lines| == 1
    ensures forall k :: 0 <= k < |lines| ==> maxMinor.Finite? ==> lines[k].minor <= maxMinor.value
  {
    var n := |children|;
    majors := Majors(children, maxMajor);
    minors := Minors(children, maxMinor);
    var flexes := Flexes(children);
    var c := Cursor([], 0, 0.0, 0.0, 0.0);
    ScanStart(majors, minors, flexes, wrap, gapMajor, maxMajor, maxMinor);
    for i := 0 to n
      invariant Scan(c, i, majors, minors, flexes, wrap, gapMajor, maxMajor, maxMinor)
    {
      c := Feed(c, i, majors, minors, flexes, wrap, gapMajor, maxMajor, maxMinor);
    }
    ScanFinish(c, majors, minors, flexes, wrap, gapMajor, maxMajor, maxMinor);
    lines := Finish(c, n, maxMinor);
  }

  /** Within a line, a child's minor extent is at most the line's, unless the line was capped at `maxMinor`. */
  lemma ChildWithinLine(lines: seq<StackLine>, k: nat, j: nat, majors: seq<real>, minors: seq<real>, flexes: seq<real>,
                        wrap: bool, gapMajor: real, maxMajor: Extent, maxMinor: Extent)
    requires |majors| == |minors| == |flexes|
    requires Greedy(lines, majors, minors, flexes, wrap, gapMajor, maxMajor, maxMinor)
    requires k < |lines| && lines[k].start <= j < lines[k].end
    ensures minors[j] <= lines[k].minor || (maxMinor.Finite? && lines[k].minor == maxMinor.value)
  {
    assert Totals(lines[k], k, majors, minors, flexes, gapMajor, maxMinor);
    MaxRangeBound(MinorSeed(k, lines[k].start, minors), minors, lines[k].start, lines[k].end, j);
  }

  lemma {:induction false} MaxRangeBound(init: real, xs: seq<real>, s: nat, e: nat, j: nat)
    requires s <= j < e <= |xs|
    ensures xs[j] <= MaxRange(init, xs, s, e)
    decreases e - s
  {
    if j < e - 1 {
      MaxRangeBound(init, xs, s, e - 1, j);
    }
  }

  // ---------------------------------------------------------------------
  // measure_flex
  // ---------------------------------------------------------------------

  /** The major and minor extent of a size along `axis`. */
  function MajorOf(axis: Axis, size: Size): Extent { axis.Unpack((size.width, size.height)).0 }

  function MinorOf(axis: Axis, size: Size): Extent { axis.Unpack((size.width, size.height)).1 }

  /** `axis.pack` of two extents, as a size. */
  function PackSize(axis: Axis, major: Extent, minor: Extent): (size: Size)
    ensures MajorOf(axis, size) == major && MinorOf(axis, size) == minor
  {
    var wh := axis.Pack(major, minor);
    Size(wh.0, wh.1)
  }

  /**
   * What `measure_flex` is given besides the state. `quot` is f32 division,
   * which a line whose flex total is zero makes divide by zero; `relayout`
   * stands for laying child `i` out again in a space and returns the size
   * it takes, as (width, height).
   */
  datatype FlexParams = FlexParams(
    axis: Axis,
    stretch: bool,
    minMajor: real,
    maxMajor: Extent,
    maxMinor: Extent,
    quot: (real, real) -> real,
    relayout: (nat, Space) -> (real, real))

  /**
   * `px_per_flex`: the extent each unit of flex adds to a line's children —
   * negative, sharing out the overflow, when the line is longer than
   * `maxMajor`; positive, sharing out the underflow, when it is shorter than
   * `minMajor`; zero when it fits.
   */
  function PxPerFlex(p: FlexParams, line: StackLine): real {
    if Exceeds(line.major, p.maxMajor) then p.quot(-(line.major - p.maxMajor.value), line.flexSum)
    else if p.minMajor - line.major > 0.0 then p.quot(p.minMajor - line.major, line.flexSum)
    else 0.0
  }

  /**
   * The space a child is laid out again in: `desired` on the major axis;
   * on the minor axis exactly the line's extent when the items stretch,
   * else anything from zero to `maxMinor`.
   */
  function FlexSpace(p: FlexParams, desired: real, lineMinor: real): (s: Space)
    ensures MajorOf(p.axis, s.min) == MajorOf(p.axis, s.max) == Finite(desired)
    ensures p.stretch ==> MinorOf(p.axis, s.min) == MinorOf(p.axis, s.max) == Finite(lineMinor)
    ensures !p.stretch ==> MinorOf(p.axis, s.min) == Finite(0.0) && MinorOf(p.axis, s.max) == p.maxMinor
  {
    if p.stretch then
      var exact := PackSize(p.axis, Finite(desired), Finite(lineMinor));
      Space(exact, exact)
    else
      Space(PackSize(p.axis, Finite(desired), Finite(0.0)), PackSize(p.axis, Finite(desired), p.maxMinor))
  }

  /** `measure_flex` lays a child out again when it is flexible or the items stretch. */
  predicate Relaid(p: FlexParams, isFlex: bool) {
    isFlex || p.stretch
  }

  /** The (major, minor) extent child `j` of `line` ends up with, from its measured `major` and `minor`. */
  function FlexChild(p: FlexParams, line: StackLine, j: nat, major: real, minor: real, flex: real, isFlex: bool): (real, real) {
    if !Relaid(p, isFlex) then (major, minor)
    else
      var desired := major + PxPerFlex(p, line) * flex;
      p.axis.Unpack(p.relayout(j, FlexSpace(p, desired, line.minor)))
  }

  /** A line's running major extent and the children's extents during the inner loop of `measure_flex`. */
  datatype Flexed = Flexed(major: real, majors: seq<real>, minors: seq<real>)

  /**
   * The inner loop of `measure_flex` over children `line.start..i`: each
   * relaid child takes its new extents, and the line's major extent moves
   * by the change in the child's.
   */
  function FlexUpTo(p: FlexParams, line: StackLine, i: nat, majors: seq<real>, minors: seq<real>,
                    flexes: seq<real>, isFlex: seq<bool>): (r: Flexed)
    requires line.start <= i <= line.end <= |majors| == |minors| == |flexes| == |isFlex|
    ensures |r.majors| == |majors| && |r.minors| == |minors|
    ensures forall j :: 0 <= j < |majors| && !(line.start <= j < i) ==> r.majors[j] == majors[j] && r.minors[j] == minors[j]
    ensures forall j :: line.start <= j < i ==>
      (r.majors[j], r.minors[j]) == FlexChild(p, line, j, majors[j], minors[j], flexes[j], isFlex[j])
    decreases i
  {
    if i == line.start then Flexed(line.major, majors, minors)
    else
      var prev := FlexUpTo(p, line, i - 1, majors, minors, flexes, isFlex);
      var j := i - 1;
      if !Relaid(p, isFlex[j]) then prev
      else
        var mm := FlexChild(p, line, j, prev.majors[j], prev.minors[j], flexes[j], isFlex[j]);
        Flexed(prev.major + mm.0 - prev.majors[j], prev.majors[j := mm.0], prev.minors[j := mm.1])
  }

  lemma {:induction false} SumRangeUpdate(xs: seq<real>, s: nat, e: nat, j: nat, v: real)
    requires s <= j < e <= |xs|
    ensures SumRange(xs[j := v], s, e) == SumRange(xs, s, e) - xs[j] + v
    decreases e - s
  {
    if j < e - 1 {
      SumRangeUpdate(xs, s, e - 1, j, v);
    } else {
      SumRangeFrame(xs[j := v], xs, s, e - 1);
    }
  }

  /** A range sum depends only on the entries in the range. */
  lemma {:induction false} SumRangeFrame(xs: seq<real>, ys: seq<real>, s: nat, e: nat)
    requires s <= e <= |xs| && e <= |ys|
    requires forall j :: s <= j < e ==> xs[j] == ys[j]
    ensures SumRange(xs, s, e) == SumRange(ys, s, e)
    decreases e - s
  {
    if s < e {
      SumRangeFrame(xs, ys, s, e - 1);
    }
  }

  /** The inner loop keeps the line's major extent minus its children's majors. */
  lemma {:induction false} FlexKeepsSlack(p: FlexParams, line: StackLine, i: nat, majors: seq<real>, minors: seq<real>,
                                          flexes: seq<real>, isFlex: seq<bool>)
    requires line.start <= i <= line.end <= |majors| == |minors| == |flexes| == |isFlex|
    ensures var r := FlexUpTo(p, line, i, majors, minors, flexes, isFlex);
      r.major - SumRange(r.majors, line.start, line.end) == line.major - SumRange(majors, line.start, line.end)
    decreases i
  {
    if i > line.start {
      FlexKeepsSlack(p, line, i - 1, majors, minors, flexes, isFlex);
      var prev := FlexUpTo(p, line, i - 1, majors, minors, flexes, isFlex);
      var j := i - 1;
      if Relaid(p, isFlex[j]) {
        var mm := FlexChild(p, line, j, prev.majors[j], prev.minors[j], flexes[j], isFlex[j]);
        SumRangeUpdate(prev.majors, line.start, line.end, j, mm.0);
      }
    }
  }

  /** Every line's range lies within the children. */
  ghost predicate InRange(lines: seq<StackLine>, n: nat) {
    forall k :: 0 <= k < |lines| ==> lines[k].start <= lines[k].end <= n
  }

  /** The layout state a stack keeps between passes. */
  datatype StackState = StackState(lines: seq<StackLine>, lineOffsets: seq<real>, majors: seq<real>, minors: seq<real>)

  /**
   * The outer loop of `measure_flex` over lines `0..k`: each line's children
   * are relaid and the line's major extent adjusted; nothing else changes.
   */
  function FlexLines(p: FlexParams, st: StackState, k: nat, flexes: seq<real>, isFlex: seq<bool>): (r: StackState)
    requires k <= |st.lines|
    requires |st.majors| == |st.minors| == |flexes| == |isFlex|
    requires InRange(st.lines, |st.majors|)
    ensures |r.lines| == |st.lines| && r.lineOffsets == st.lineOffsets
    ensures |r.majors| == |st.majors| && |r.minors| == |st.minors|
    ensures forall m :: 0 <= m < |st.lines| ==> r.lines[m] == st.lines[m].(major := r.lines[m].major)
    ensures forall m :: k <= m < |st.lines| ==> r.lines[m] == st.lines[m]
    decreases k
  {
    if k == 0 then st
    else
      var prev := FlexLines(p, st, k - 1, flexes, isFlex);
      var line := prev.lines[k - 1];
      var r := FlexUpTo(p, line, line.end, prev.majors, prev.minors, flexes, isFlex);
      prev.(lines := prev.lines[k - 1 := line.(major := r.major)], majors := r.majors, minors := r.minors)
  }

  /** `measure_flex`: every line of the state. */
  function MeasureFlex(p: FlexParams, st: StackState, flexes: seq<real>, isFlex: seq<bool>): (r: StackState)
    requires |st.majors| == |st.minors| == |flexes| == |isFlex|
    requires InRange(st.lines, |st.majors|)
    ensures |r.lines| == |st.lines| && r.lineOffsets == st.lineOffsets
    ensures |r.majors| == |st.majors| && |r.minors| == |st.minors|
    ensures forall m :: 0 <= m < |st.lines| ==> r.lines[m] == st.lines[m].(major := r.lines[m].major)
  {
    FlexLines(p, st, |st.lines|, flexes, isFlex)
  }

  /** In tiled lines, an earlier line ends no later than a later one starts. */
  lemma TilesOrdered(lines: seq<StackLine>, n: nat, a: nat, b: nat)
    requires Tiles(lines, n)
    requires a < b < |lines|
    ensures lines[a].end <= lines[b].start
    decreases b - a
  {
    assert lines[b].start == lines[b - 1].end;
    if a < b - 1 {
      TilesOrdered(lines, n, a, b - 1);
      assert lines[b - 1].start <= lines[b - 1].end;
    }
  }

  /** Tiled lines lie within the children. */
  lemma TilesInRange(lines: seq<StackLine>, n: nat)
    requires Tiles(lines, n)
    ensures InRange(lines, n)
  {
    forall k | 0 <= k < |lines|
      ensures lines[k].start <= lines[k].end <= n
    {
      assert lines[k].start <= lines[k].end <= n;
    }
  }

  /**
   * After lines `0..k` are flexed, the children of the lines not yet
   * visited still hold their measured extents.
   */
  lemma {:induction false} FlexLinesFrame(p: FlexParams, st: StackState, k: nat, flexes: seq<real>, isFlex: seq<bool>, j: nat)
    requires |st.majors| == |st.minors| == |flexes| == |isFlex|
    requires Tiles(st.lines, |st.majors|)
    requires k <= |st.lines| && j < |st.majors|
    requires k > 0 ==> st.lines[k - 1].end <= j
    requires InRange(st.lines, |st.majors|)
    ensures var r := FlexLines(p, st, k, flexes, isFlex);
      r.majors[j] == st.majors[j] && r.minors[j] == st.minors[j]
    decreases k
  {
    if k > 0 {
      if k > 1 {
        assert st.lines[k - 1].start == st.lines[k - 2].end;
        assert st.lines[k - 1].start <= st.lines[k - 1].end;
      }
      FlexLinesFrame(p, st, k - 1, flexes, isFlex, j);
    }
  }

  /**
   * After lines `0..k` are flexed, each child of a visited line holds what
   * `FlexChild` makes of its measured extents: each child is relaid once,
   * with its own line's share of the overflow or underflow.
   */
  lemma {:induction false} FlexLinesChildren(p: FlexParams, st: StackState, k: nat, flexes: seq<real>, isFlex: seq<bool>,
                                             m: nat, j: nat)
    requires |st.majors| == |st.minors| == |flexes| == |isFlex|
    requires Tiles(st.lines, |st.majors|) && InRange(st.lines, |st.majors|)
    requires m < k <= |st.lines| && st.lines[m].start <= j < st.lines[m].end
    ensures var r := FlexLines(p, st, k, flexes, isFlex);
      (r.majors[j], r.minors[j]) == FlexChild(p, st.lines[m], j, st.majors[j], st.minors[j], flexes[j], isFlex[j])
    decreases k
  {
    var prev := FlexLines(p, st, k - 1, flexes, isFlex);
    assert prev.lines[k - 1] == st.lines[k - 1];
    if m == k - 1 {
      if k > 1 {
        assert st.lines[k - 1].start == st.lines[k - 2].end;
      }
      FlexLinesFrame(p, st, k - 1, flexes, isFlex, j);
    } else {
      FlexLinesChildren(p, st, k - 1, flexes, isFlex, m, j);
      TilesOrdered(st.lines, |st.majors|, m, k - 1);
    }
  }

  /** Flexing line `k - 1` keeps its major extent minus its children's majors. */
  lemma FlexLinesSlackLast(p: FlexParams, st: StackState, k: nat, flexes: seq<real>, isFlex: seq<bool>)
    requires |st.majors| == |st.minors| == |flexes| == |isFlex|
    requires Tiles(st.lines, |st.majors|) && InRange(st.lines, |st.majors|)
    requires 0 < k <= |st.lines|
    ensures var r := FlexLines(p, st, k, flexes, isFlex);
      var line := st.lines[k - 1];
      r.lines[k - 1].major - SumRange(r.majors, line.start, line.end) == line.major - SumRange(st.majors, line.start, line.end)
  {
    var prev := FlexLines(p, st, k - 1, flexes, isFlex);
    var line := prev.lines[k - 1];
    assert line == st.lines[k - 1];
    FlexKeepsSlack(p, line, line.end, prev.majors, prev.minors, flexes, isFlex);
    if k > 1 {
      assert st.lines[k - 1].start == st.lines[k - 2].end;
    }
    forall j | line.start <= j < line.end
      ensures prev.majors[j] == st.majors[j]
    {
      FlexLinesFrame(p, st, k - 1, flexes, isFlex, j);
    }
    SumRangeFrame(prev.majors, st.majors, line.start, line.end);
  }

  /** Flexing line `k - 1` leaves an earlier line and its children's majors alone. */
  lemma FlexLinesStepFrame(p: FlexParams, st: StackState, k: nat, flexes: seq<real>, isFlex: seq<bool>, m: nat)
    requires |st.majors| == |st.minors| == |flexes| == |isFlex|
    requires Tiles(st.lines, |st.majors|) && InRange(st.lines, |st.majors|)
    requires m < k - 1 && k <= |st.lines|
    ensures var r := FlexLines(p, st, k, flexes, isFlex);
      var prev := FlexLines(p, st, k - 1, flexes, isFlex);
      var line := st.lines[m];
      && r.lines[m] == prev.lines[m]
      && SumRange(r.majors, line.start, line.end) == SumRange(prev.majors, line.start, line.end)
  {
    var prev := FlexLines(p, st, k - 1, flexes, isFlex);
    var line := prev.lines[k - 1];
    assert line == st.lines[k - 1];
    var r := FlexUpTo(p, line, line.end, prev.majors, prev.minors, flexes, isFlex);
    TilesOrdered(st.lines, |st.majors|, m, k - 1);
    SumRangeFrame(r.majors, prev.majors, st.lines[m].start, st.lines[m].end);
  }

  /** After lines `0..k` are flexed, each visited line's major extent minus its children's majors is as before. */
  lemma {:induction false} FlexLinesSlack(p: FlexParams, st: StackState, k: nat, flexes: seq<real>, isFlex: seq<bool>, m: nat)
    requires |st.majors| == |st.minors| == |flexes| == |isFlex|
    requires Tiles(st.lines, |st.majors|) && InRange(st.lines, |st.majors|)
    requires m < k <= |st.lines|
    ensures var r := FlexLines(p, st, k, flexes, isFlex);
      var line := st.lines[m];
      r.lines[m].major - SumRange(r.majors, line.start, line.end) == line.major - SumRange(st.majors, line.start, line.end)
    decreases k
  {
    if m == k - 1 {
      FlexLinesSlackLast(p, st, k, flexes, isFlex);
    } else {
      FlexLinesSlack(p, st, k - 1, flexes, isFlex, m);
      FlexLinesStepFrame(p, st, k, flexes, isFlex, m);
    }
  }

  /**
   * `measure_flex` keeps, for every line, its major extent minus the sum of
   * its children's majors: the line moves by exactly what its children move.
   */
  lemma MeasureFlexKeepsSlack(p: FlexParams, st: StackState, flexes: seq<real>, isFlex: seq<bool>, m: nat)
    requires |st.majors| == |st.minors| == |flexes| == |isFlex|
    requires Tiles(st.lines, |st.majors|) && InRange(st.lines, |st.majors|)
    requires m < |st.lines|
    ensures var r := MeasureFlex(p, st, flexes, isFlex);
      var line := st.lines[m];
      r.lines[m].major - SumRange(r.majors, line.start, line.end) == line.major - SumRange(st.majors, line.start, line.end)
  {
    FlexLinesSlack(p, st, |st.lines|, flexes, isFlex, m);
  }

  /**
   * After `measure_flex`, every child holds what relaying it gives from its
   * measured extents and its line's share of flex, and a child that is
   * neither flexible nor stretched keeps its measured extents.
   */
  lemma MeasureFlexChildren(p: FlexParams, st: StackState, flexes: seq<real>, isFlex: seq<bool>, m: nat, j: nat)
    requires |st.majors| == |st.minors| == |flexes| == |isFlex|
    requires Tiles(st.lines, |st.majors|) && InRange(st.lines, |st.majors|)
    requires m < |st.lines| && st.lines[m].start <= j < st.lines[m].end
    ensures var r := MeasureFlex(p, st, flexes, isFlex);
      && (r.majors[j], r.minors[j]) == FlexChild(p, st.lines[m], j, st.majors[j], st.minors[j], flexes[j], isFlex[j])
      && (!isFlex[j] && !p.stretch ==> r.majors[j] == st.majors[j] && r.minors[j] == st.minors[j])
  {
    FlexLinesChildren(p, st, |st.lines|, flexes, isFlex, m, j);
  }

  /** `measure_flex` changes no line's range, so the lines still tile the children. */
  lemma MeasureFlexKeepsTiles(p: FlexParams, st: StackState, flexes: seq<real>, isFlex: seq<bool>)
    requires |st.majors| == |st.minors| == |flexes| == |isFlex|
    requires Tiles(st.lines, |st.majors|) && InRange(st.lines, |st.majors|)
    ensures var r := MeasureFlex(p, st, flexes, isFlex);
      Tiles(r.lines, |r.majors|)
  {
    var r := MeasureFlex(p, st, flexes, isFlex);
    forall k | 0 <= k < |r.lines|
      ensures r.lines[k].start == st.lines[k].start && r.lines[k].end == st.lines[k].end
    {
    }
  }

  /** f32 division is exact division whenever the divisor is nonzero. */
  ghost predicate ExactQuot(quot: (real, real) -> real) {
    forall a, b :: b != 0.0 ==> quot(a, b) == a / b
  }

  /**
   * With a positive flex total, a line's children shrink exactly when the
   * line overflows `maxMajor`, grow exactly when it falls short of
   * `minMajor` without overflowing, and keep their extent when it fits.
   */
  lemma PxPerFlexSign(p: FlexParams, line: StackLine)
    requires ExactQuot(p.quot) && line.flexSum > 0.0
    ensures PxPerFlex(p, line) < 0.0 <==> Exceeds(line.major, p.maxMajor)
    ensures PxPerFlex(p, line) > 0.0 <==> !Exceeds(line.major, p.maxMajor) && line.major < p.minMajor
    ensures PxPerFlex(p, line) == 0.0 <==> !Exceeds(line.major, p.maxMajor) && line.major >= p.minMajor
  {
    if Exceeds(line.major, p.maxMajor) {
      var over := line.major - p.maxMajor.value;
      assert p.quot(-over, line.flexSum) == -over / line.flexSum;
      assert -over / line.flexSum < 0.0;
    } else if p.minMajor - line.major > 0.0 {
      var under := p.minMajor - line.major;
      assert p.quot(under, line.flexSum) == under / line.flexSum;
      assert under / line.flexSum > 0.0;
    }
  }

  // ---------------------------------------------------------------------
  // StackState
  // ---------------------------------------------------------------------

  function Zeros(n: nat): (r: seq<real>)
    ensures |r| == n && forall i :: 0 <= i < n ==> r[i] == 0.0
  {
    seq(n, i => 0.0)
  }

  /** `StackState::new`: no lines and `len` zero extents. */
  function NewState(len: nat): (st: StackState)
    ensures st.lines == [] && st.lineOffsets == []
    ensures |st.majors| == |st.minors| == len
    ensures forall i :: 0 <= i < len ==> st.majors[i] == 0.0 && st.minors[i] == 0.0
  {
    StackState([], [], Zeros(len), Zeros(len))
  }

  /** `Vec::resize(len, 0.0)`: truncate, or pad with zeros. */
  function ResizeSeq(xs: seq<real>, len: nat): (r: seq<real>)
    ensures |r| == len
    ensures forall i :: 0 <= i < len ==> r[i] == if i < |xs| then xs[i] else 0.0
  {
    if len <= |xs| then xs[..len] else xs + Zeros(len - |xs|)
  }

  /**
   * `StackState::resize`: the extents take length `len`, keeping those
   * that were there and padding with zeros; the lines are untouched.
   */
  function Resize(st: StackState, len: nat): (r: StackState)
    ensures r.lines == st.lines && r.lineOffsets == st.lineOffsets
    ensures |r.majors| == len && |r.minors| == len
    ensures forall i :: 0 <= i < len && i < |st.majors| ==> r.majors[i] == st.majors[i]
    ensures forall i :: 0 <= i < len && i < |st.minors| ==> r.minors[i] == st.minors[i]
    ensures forall i :: |st.majors| <= i < len ==> r.majors[i] == 0.0
    ensures forall i :: |st.minors| <= i < len ==> r.minors[i] == 0.0
  {
    st.(majors := ResizeSeq(st.majors, len), minors := ResizeSeq(st.minors, len))
  }

  /** `f32::max` folded over the lines' major extents from zero. */
  function MaxMajor(lines: seq<StackLine>): real
  {
    if |lines| == 0 then 0.0 else Max(MaxMajor(lines[..|lines| - 1]), lines[|lines| - 1].major)
  }

  /**
   * `StackState::major`: the longest line, or zero. It is at least every
   * line's major extent and at least zero, and it is one of them unless
   * it is zero.
   */
  function StateMajor(st: StackState): (r: real)
    ensures r >= 0.0
    ensures forall k :: 0 <= k < |st.lines| ==> st.lines[k].major <= r
    ensures r == 0.0 || exists k :: 0 <= k < |st.lines| && st.lines[k].major == r
  {
    MaxMajorBounds(st.lines);
    MaxMajor(st.lines)
  }

  lemma {:induction false} MaxMajorBounds(lines: seq<StackLine>)
    ensures MaxMajor(lines) >= 0.0
    ensures forall k :: 0 <= k < |lines| ==> lines[k].major <= MaxMajor(lines)
    ensures MaxMajor(lines) == 0.0 || exists k :: 0 <= k < |lines| && lines[k].major == MaxMajor(lines)
  {
    if |lines| > 0 {
      var init := lines[..|lines| - 1];
      MaxMajorBounds(init);
      forall k | 0 <= k < |init|
        ensures init[k] == lines[k]
      {
      }
      if MaxMajor(lines) != 0.0 && MaxMajor(lines) != lines[|lines| - 1].major {
        var k :| 0 <= k < |init| && init[k].major == MaxMajor(init);
        assert lines[k].major == MaxMajor(lines);
      }
    }
  }

  /** The sum of the lines' minor extents. */
  function SumMinors(lines: seq<StackLine>): real
  {
    if |lines| == 0 then 0.0 else SumMinors(lines[..|lines| - 1]) + lines[|lines| - 1].minor
  }

  /**
   * `StackState::minor`: the lines' minor extents with `gap` between
   * neighbours. The source computes `lines.len() - 1` on an unsigned
   * length, so it needs at least one line.
   */
  function StateMinor(st: StackState, gap: real): (r: real)
    requires |st.lines| >= 1
    ensures gap >= 0.0 && (forall m :: 0 <= m < |st.lines| ==> st.lines[m].minor >= 0.0) ==> r >= 0.0
  {
    var total := SumMinors(st.lines) + gap * (|st.lines| - 1) as real;
    assert gap >= 0.0 && (forall m :: 0 <= m < |st.lines| ==> st.lines[m].minor >= 0.0) ==> total >= 0.0 by {
      if forall m :: 0 <= m < |st.lines| ==> st.lines[m].minor >= 0.0 {
        SumMinorsNonNegative(st.lines);
      }
    }
    total
  }

  /** A single line's minor extent is the whole minor extent: no gap. */
  lemma StateMinorSingle(st: StackState, gap: real)
    requires |st.lines| == 1
    ensures StateMinor(st, gap) == st.lines[0].minor
  {
    assert st.lines[..0] == [];
    assert SumMinors(st.lines) == SumMinors([]) + st.lines[0].minor;
    assert gap * (|st.lines| - 1) as real == 0.0;
  }

  /** Each further line adds its minor extent and one gap. */
  lemma StateMinorAppend(st: StackState, line: StackLine, gap: real)
    requires |st.lines| >= 1
    ensures StateMinor(st.(lines := st.lines + [line]), gap) == StateMinor(st, gap) + gap + line.minor
  {
    var ls := st.lines + [line];
    assert ls[..|ls| - 1] == st.lines;
    assert gap * (|ls| - 1) as real == gap * (|st.lines| - 1) as real + gap;
  }

  /** With no negative extents or gap, the minor extent covers every line's. */
  lemma {:induction false} StateMinorCovers(st: StackState, gap: real, k: nat)
    requires |st.lines| >= 1 && k < |st.lines| && gap >= 0.0
    requires forall m :: 0 <= m < |st.lines| ==> st.lines[m].minor >= 0.0
    ensures st.lines[k].minor <= StateMinor(st, gap)
  {
    SumMinorsCovers(st.lines, k);
    assert gap * (|st.lines| - 1) as real >= 0.0;
  }

  lemma {:induction false} SumMinorsCovers(lines: seq<StackLine>, k: nat)
    requires k < |lines|
    requires forall m :: 0 <= m < |lines| ==> lines[m].minor >= 0.0
    ensures lines[k].minor <= SumMinors(lines)
  {
    var init := lines[..|lines| - 1];
    SumMinorsNonNegative(init);
    if k < |lines| - 1 {
      assert init[k] == lines[k];
      SumMinorsCovers(init, k);
    }
  }

  lemma {:induction false} SumMinorsNonNegative(lines: seq<StackLine>)
    requires forall m :: 0 <= m < |lines| ==> lines[m].minor >= 0.0
    ensures SumMinors(lines) >= 0.0
  {
    if |lines| > 0 {
      SumMinorsNonNegative(lines[..|lines| - 1]);
    }
  }
}
