/**
 * The path data of the stroker: the input segments it walks and the
 * drawing commands it emits into its output and `outside` accumulators.
 * (The `Curve` container itself lives in a file that is not part of this
 * model; only the commands the stroker issues on it are represented.)
 */
module Curves {
  import opened Geometry

  /** A segment of an input path, as iterated from a `Curve`. */
  datatype Segment =
    | Move(p: Vec)
    | Line(p: Vec)
    | Quad(p1: Vec, p2: Vec)
    | Cubic(p1: Vec, p2: Vec, p3: Vec)
    | Close
  {
    /** Line, quadratic and cubic segments draw; `Move` and `Close` do not. */
    predicate Draws() { Line? || Quad? || Cubic? }
  }

  /** A path is a sequence of segments. */
  type Path = seq<Segment>

  /**
   * A command emitted into an output `Curve`. `AppendReverse` records a
   * call of `append_reverse` together with the path appended, as it was at
   * the time of the call.
   */
  datatype Cmd =
    | MoveTo(p: Vec)
    | LineTo(p: Vec)
    | QuadTo(c: Vec, p: Vec)
    | ConicTo(c: Vec, p: Vec, w: real)
    | CubicTo(c1: Vec, c2: Vec, p: Vec)
    | ClosePath
    | AppendReverse(path: seq<Cmd>)
  {
    /** A command that continues the current contour with an edge. */
    predicate Edge() { LineTo? || QuadTo? || ConicTo? || CubicTo? }
  }

  /** Every command of `cs` is an edge: no move, close or append. */
  ghost predicate AllEdges(cs: seq<Cmd>) {
    forall i :: 0 <= i < |cs| ==> cs[i].Edge()
  }

  /** The number of commands in `cs` that satisfy `P`. */
  function Count(cs: seq<Cmd>, P: Cmd -> bool): (n: nat)
    ensures n <= |cs|
  {
    if |cs| == 0 then 0 else Count(cs[..|cs| - 1], P) + (if P(cs[|cs| - 1]) then 1 else 0)
  }

  lemma {:induction false} CountConcat(a: seq<Cmd>, b: seq<Cmd>, P: Cmd -> bool)
    ensures Count(a + b, P) == Count(a, P) + Count(b, P)
    decreases |b|
  {
    if |b| == 0 {
      assert a + b == a;
    } else {
      assert (a + b)[..|a + b| - 1] == a + b[..|b| - 1];
      CountConcat(a, b[..|b| - 1], P);
    }
  }

  /** Edges hold no command that is not an edge. */
  lemma {:induction false} CountOfEdges(cs: seq<Cmd>, P: Cmd -> bool)
    requires AllEdges(cs)
    requires forall c: Cmd :: c.Edge() ==> !P(c)
    ensures Count(cs, P) == 0
    decreases |cs|
  {
    if |cs| > 0 {
      CountOfEdges(cs[..|cs| - 1], P);
    }
  }
}
