/**
 * The shared part of ui/vg/SimpleVG.kt: points, colours, shape types, 4x4
 * transform matrices and the `Polyline` builder with its segment iterator.
 * Coordinates are reals: the backends only store, copy and compare them, and
 * single-precision rounding is not part of this model.
 */
module SimpleVg {
  import opened Wrappers

  datatype Point = Point(x: real, y: real)

  datatype Color = Color(r: real, g: real, b: real, a: real)

  const Black := Color(0.0, 0.0, 0.0, 1.0)
  const White := Color(1.0, 1.0, 1.0, 1.0)

  /** The stroke width and colours both backends paint with. */
  datatype Style = Style(strokeWidth: real, strokeColor: Color, fillColor: Color)

  /** `ShapeType(isFill, isStroke)`. */
  datatype ShapeType = Fill | Stroke | StrokeAndFill
  {
    predicate IsFill() { this != Stroke }
    predicate IsStroke() { this != Fill }
  }

  /** A libGDX `Matrix4`: sixteen values in column-major order. */
  type Matrix4 = m: seq<real> | |m| == 16 witness seq(16, _ => 0.0)

  datatype Failure = NoSuchElement | ArrayIndexOutOfBounds

  // ---------------------------------------------------------------------------
  // Interleaved coordinate arrays
  // ---------------------------------------------------------------------------

  /** The points as `x0, y0, x1, y1, ...`, the layout of `toArray` and of `polygon`'s argument. */
  function Flatten(ps: seq<Point>): (r: seq<real>)
    ensures |r| == 2 * |ps|
    ensures forall i :: 0 <= i < |ps| ==> r[2 * i] == ps[i].x && r[2 * i + 1] == ps[i].y
  {
    if ps == [] then [] else Flatten(ps[..|ps| - 1]) + [ps[|ps| - 1].x, ps[|ps| - 1].y]
  }

  /** An interleaved array read back as points, two values at a time. */
  function Pairs(c: seq<real>): (r: seq<Point>)
    requires |c| % 2 == 0
    ensures 2 * |r| == |c|
    ensures forall i :: 0 <= i < |r| ==> r[i] == Point(c[2 * i], c[2 * i + 1])
  {
    if c == [] then [] else [Point(c[0], c[1])] + Pairs(c[2..])
  }

  /** Any array laid out like `toArray`'s is the flattening of its points. */
  lemma {:induction false} FlattenUnique(r: seq<real>, ps: seq<Point>)
    requires |r| == 2 * |ps|
    requires forall i :: 0 <= i < |ps| ==> r[2 * i] == ps[i].x && r[2 * i + 1] == ps[i].y
    ensures r == Flatten(ps)
  {
    if ps != [] {
      var n := |ps| - 1;
      var front := r[..2 * n];
      forall i | 0 <= i < n
        ensures front[2 * i] == ps[..n][i].x && front[2 * i + 1] == ps[..n][i].y
      {
        assert front[2 * i] == r[2 * i] && front[2 * i + 1] == r[2 * i + 1];
      }
      FlattenUnique(front, ps[..n]);
      assert r == front + [r[2 * n], r[2 * n + 1]];
    }
  }

  /** Reading a flattened array back gives the points. */
  lemma PairsFlatten(ps: seq<Point>)
    ensures Pairs(Flatten(ps)) == ps
  {
  }

  /** Flattening the points of an even-length array gives the array. */
  lemma FlattenPairs(c: seq<real>)
    requires |c| % 2 == 0
    ensures Flatten(Pairs(c)) == c
  {
    FlattenUnique(c, Pairs(c));
  }

  // ---------------------------------------------------------------------------
  // Segments
  // ---------------------------------------------------------------------------

  /** `iterLines`' count: every point starts a segment when closed, all but the last when open. */
  function SegmentCount(n: nat, closed: bool): nat
  {
    if closed then n else if n == 0 then 0 else n - 1
  }

  /** The `i`-th segment: from point `i` to the next point, or back to the first after the last. */
  function Segment(points: seq<Point>, i: nat): (Point, Point)
    requires i < |points|
  {
    (points[i], if i + 1 < |points| then points[i + 1] else points[0])
  }

  /** What `iterLines()` yields, in order. */
  function Segments(points: seq<Point>, closed: bool): (r: seq<(Point, Point)>)
    ensures |r| == SegmentCount(|points|, closed)
  {
    seq(SegmentCount(|points|, closed), i requires 0 <= i < SegmentCount(|points|, closed) => Segment(points, i))
  }

  /** Consecutive segments meet, and the first starts at the first point. */
  lemma SegmentsChain(points: seq<Point>, closed: bool)
    ensures var r := Segments(points, closed);
      (r != [] ==> r[0].0 == points[0]) &&
      forall i :: 0 <= i < |r| - 1 ==> r[i].1 == r[i + 1].0
  {
  }

  /**
   * A closed polyline has the open one's segments and one more, from the last
   * point back to the first, so its segments form a loop.
   */
  lemma SegmentsClosed(points: seq<Point>)
    requires points != []
    ensures Segments(points, true) == Segments(points, false) + [(points[|points| - 1], points[0])]
    ensures var r := Segments(points, true); r[|r| - 1].1 == r[0].0
  {
    var c := Segments(points, true);
    var o := Segments(points, false);
    assert forall i :: 0 <= i < |o| ==> c[i] == o[i];
  }

  // ---------------------------------------------------------------------------
  // Polyline
  // ---------------------------------------------------------------------------

  /** The value of a `Polyline`: its points and whether it is closed. */
  datatype Shape = Shape(points: seq<Point>, closed: bool)

  class Polyline {
    var points: seq<Point>
    var closed: bool

    constructor ()
      ensures points == [] && !closed
    {
      points := [];
      closed := false;
    }

    function Value(): Shape
      reads this
    {
      Shape(points, closed)
    }

    method Add(p: Point)
      modifies this
      ensures points == old(points) + [p] && closed == old(closed)
    {
      points := points + [p];
    }

    method Close()
      modifies this
      ensures points == old(points) && closed
    {
      closed := true;
    }

    method Clear()
      modifies this
      ensures points == [] && !closed
    {
      points := [];
      closed := false;
    }

    /** `toArray()`: the points interleaved as `x0, y0, x1, y1, ...`. */
    method ToArray() returns (a: array<real>)
      ensures fresh(a)
      ensures a.Length == 2 * |points|
      ensures forall i :: 0 <= i < |points| ==> a[2 * i] == points[i].x && a[2 * i + 1] == points[i].y
      ensures a[..] == Flatten(points)
    {
      a := new real[2 * |points|];
      for i := 0 to |points|
        invariant forall k :: 0 <= k < i ==> a[2 * k] == points[k].x && a[2 * k + 1] == points[k].y
      {
        a[i * 2] := points[i].x;
        a[i * 2 + 1] := points[i].y;
      }
      FlattenUnique(a[..], points);
    }

    method IterLines() returns (it: LineIterator)
      ensures fresh(it) && it.line == this && it.index == 0
    {
      it := new LineIterator(this);
    }
  }

  /** The iterator `iterLines()` returns: a cursor over the live polyline. */
  class LineIterator {
    const line: Polyline
    var index: nat

    constructor (line: Polyline)
      ensures this.line == line && index == 0
    {
      this.line := line;
      index := 0;
    }

    predicate HasNext()
      reads this, line
      ensures HasNext() <==> index < SegmentCount(|line.points|, line.closed)
    {
      if line.closed then index < |line.points| else index < |line.points| - 1
    }

    /** `next()`: the segment at the cursor, or `NoSuchElementException` past the end. */
    method Next() returns (r: Result<(Point, Point), Failure>)
      modifies this
      ensures old(HasNext()) ==> r == Ok(Segments(line.points, line.closed)[old(index)]) && index == old(index) + 1
      ensures !old(HasNext()) ==> r == Err(NoSuchElement) && index == old(index)
    {
      if !HasNext() {
        return Err(NoSuchElement);
      }
      var start := line.points[index];
      var end := if index + 1 < |line.points| then line.points[index + 1] else line.points[0];
      index := index + 1;
      return Ok((start, end));
    }
  }

  /** `for (line in polyline.iterLines())`: every segment, in order. */
  method CollectLines(p: Polyline) returns (lines: seq<(Point, Point)>)
    ensures lines == Segments(p.points, p.closed)
  {
    var it := p.IterLines();
    lines := [];
    while it.HasNext()
      invariant it.line == p && it.index <= SegmentCount(|p.points|, p.closed)
      invariant lines == Segments(p.points, p.closed)[..it.index]
      decreases SegmentCount(|p.points|, p.closed) - it.index
    {
      var r := it.Next();
      lines := lines + [r.value];
    }
  }
}
