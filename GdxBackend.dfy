/**
 * `GDXSimpleVG` of ui/vg/SimpleVG.kt: the on-screen backend. Paths are built
 * as a list of `Polyline` objects (`paths`) with `path` the one being
 * extended; painting hands them to `drawPolyline` and starts over. What the
 * batch is asked to draw is kept as the log `drawn`; the group stack records
 * whether each entry is the batch's own matrix or a copy of it.
 */
module GdxBackend {
  import opened Wrappers
  import opened SimpleVg

  /** One drawing call on the libGDX batch, with the colour it was made in. */
  datatype Draw =
    | FillPolygon(vertices: seq<real>, color: Color)
    | StrokeLine(from: Point, to: Point, color: Color, width: real)
    | FillRect(x: real, y: real, w: real, h: real, color: Color)
    | DrawText(text: string, x: real, y: real, align: int, color: Color)

  lemma AppendAssoc(a: seq<Draw>, b: seq<Draw>, c: seq<Draw>)
    ensures a + (b + c) == a + b + c
  {
  }

  // ---------------------------------------------------------------------------
  // drawPolyline
  // ---------------------------------------------------------------------------

  /** One line per segment, in the stroke colour and width. */
  function StrokeLines(segments: seq<(Point, Point)>, style: Style): (r: seq<Draw>)
    ensures |r| == |segments|
    ensures forall i :: 0 <= i < |r| ==>
      r[i] == StrokeLine(segments[i].0, segments[i].1, style.strokeColor, style.strokeWidth)
  {
    seq(|segments|, i requires 0 <= i < |segments| =>
      StrokeLine(segments[i].0, segments[i].1, style.strokeColor, style.strokeWidth))
  }

  /**
   * The drawing of one polyline of at least two points: a filled polygon when
   * asked to fill and it has more than two points, then its segments when
   * asked to stroke.
   */
  function PolylineDraws(s: Shape, filled: bool, stroke: bool, style: Style): seq<Draw>
  {
    (if filled && |s.points| > 2 then [FillPolygon(Flatten(s.points), style.fillColor)] else []) +
    (if stroke then StrokeLines(Segments(s.points, s.closed), style) else [])
  }

  /** `drawPolyline` as written: it stops at the first polyline with fewer than two points. */
  function DrawPolylines(shapes: seq<Shape>, filled: bool, stroke: bool, style: Style): seq<Draw>
  {
    if shapes == [] || |shapes[0].points| < 2 then []
    else PolylineDraws(shapes[0], filled, stroke, style) + DrawPolylines(shapes[1..], filled, stroke, style)
  }

  /** `drawPolyline` skipping each polyline with fewer than two points and drawing the rest. */
  function DrawPolylinesFixed(shapes: seq<Shape>, filled: bool, stroke: bool, style: Style): seq<Draw>
  {
    if shapes == [] then []
    else
      (if |shapes[0].points| < 2 then [] else PolylineDraws(shapes[0], filled, stroke, style)) +
      DrawPolylinesFixed(shapes[1..], filled, stroke, style)
  }

  /** The two agree as long as no polyline is shorter than two points. */
  lemma {:induction false} DrawPolylinesAgree(shapes: seq<Shape>, filled: bool, stroke: bool, style: Style)
    requires forall i :: 0 <= i < |shapes| ==> |shapes[i].points| >= 2
    ensures DrawPolylines(shapes, filled, stroke, style) == DrawPolylinesFixed(shapes, filled, stroke, style)
  {
    if shapes != [] {
      DrawPolylinesAgree(shapes[1..], filled, stroke, style);
    }
  }

  /** Fixed, every sub-path is drawn on its own: drawing `a + b` draws `a`, then `b`. */
  lemma {:induction false} DrawPolylinesFixedConcat(a: seq<Shape>, b: seq<Shape>, filled: bool, stroke: bool, style: Style)
    ensures DrawPolylinesFixed(a + b, filled, stroke, style) ==
      DrawPolylinesFixed(a, filled, stroke, style) + DrawPolylinesFixed(b, filled, stroke, style)
  {
    if a != [] {
      assert (a + b)[1..] == a[1..] + b;
      DrawPolylinesFixedConcat(a[1..], b, filled, stroke, style);
      var h := if |a[0].points| < 2 then [] else PolylineDraws(a[0], filled, stroke, style);
      AppendAssoc(h, DrawPolylinesFixed(a[1..], filled, stroke, style), DrawPolylinesFixed(b, filled, stroke, style));
    } else {
      assert a + b == b;
    }
  }

  /**
   * As written, a lone `moveTo` before a real sub-path hides it: stroking
   * "move to p, move to q, line to r" draws nothing, where the fixed version
   * draws the line from q to r.
   */
  lemma DrawPolylinesStopsEarly(p: Point, q: Point, r: Point, style: Style)
    ensures DrawPolylines([Shape([p], false), Shape([q, r], false)], false, true, style) == []
    ensures DrawPolylinesFixed([Shape([p], false), Shape([q, r], false)], false, true, style) ==
      [StrokeLine(q, r, style.strokeColor, style.strokeWidth)]
  {
    var line := Shape([q, r], false);
    assert [Shape([p], false), line] == [Shape([p], false)] + [line];
    FixedSkip(Shape([p], false), [line], false, true, style);
    FixedSingle(line, false, true, style);
    assert Segments([q, r], false) == [(q, r)];
  }

  /** Fixed, a short polyline contributes nothing. */
  lemma FixedSkip(s: Shape, rest: seq<Shape>, filled: bool, stroke: bool, style: Style)
    requires |s.points| < 2
    ensures DrawPolylinesFixed([s] + rest, filled, stroke, style) == DrawPolylinesFixed(rest, filled, stroke, style)
  {
    assert ([s] + rest)[1..] == rest;
  }

  /** Fixed, a single polyline of at least two points is drawn as such. */
  lemma FixedSingle(s: Shape, filled: bool, stroke: bool, style: Style)
    requires |s.points| >= 2
    ensures DrawPolylinesFixed([s], filled, stroke, style) == PolylineDraws(s, filled, stroke, style)
  {
    assert [s][1..] == [];
    assert PolylineDraws(s, filled, stroke, style) + [] == PolylineDraws(s, filled, stroke, style);
  }

  /** `shapes` after `beginPath` has emptied the current polyline, when that is the last of them. */
  function ClearedLast(shapes: seq<Shape>, aliased: bool): (r: seq<Shape>)
    ensures |r| == |shapes|
  {
    if aliased && shapes != [] then shapes[..|shapes| - 1] + [Shape([], false)] else shapes
  }

  /**
   * As written, a shape drawn while a sub-path is pending is lost: its own
   * `beginPath` empties the pending polyline, and drawing stops there. Fixed,
   * the shape is drawn.
   */
  lemma ShapeAfterPendingPath(pending: seq<Shape>, shape: Shape, filled: bool, stroke: bool, style: Style)
    requires pending != [] && |shape.points| >= 2
    ensures DrawPolylines(ClearedLast(pending, true) + [shape], filled, stroke, style) ==
      DrawPolylines(pending[..|pending| - 1], filled, stroke, style)
    ensures var f := DrawPolylinesFixed(ClearedLast(pending, true) + [shape], filled, stroke, style);
      f == DrawPolylinesFixed(pending[..|pending| - 1], filled, stroke, style) +
           PolylineDraws(shape, filled, stroke, style)
  {
    var front := pending[..|pending| - 1];
    var empty := Shape([], false);
    assert ClearedLast(pending, true) + [shape] == front + ([empty] + [shape]);
    StopsAtEmpty(front, [empty] + [shape], filled, stroke, style);
    DrawPolylinesFixedConcat(front, [empty] + [shape], filled, stroke, style);
    FixedSkip(empty, [shape], filled, stroke, style);
    FixedSingle(shape, filled, stroke, style);
  }

  /** Drawing stops at a short polyline, whatever follows it. */
  lemma {:induction false} StopsAtEmpty(front: seq<Shape>, rest: seq<Shape>, filled: bool, stroke: bool, style: Style)
    requires rest != [] && |rest[0].points| < 2
    ensures DrawPolylines(front + rest, filled, stroke, style) == DrawPolylines(front, filled, stroke, style)
  {
    if front != [] {
      assert (front + rest)[1..] == front[1..] + rest;
      StopsAtEmpty(front[1..], rest, filled, stroke, style);
    } else {
      assert front + rest == rest;
    }
  }

  // ---------------------------------------------------------------------------
  // Curves
  // ---------------------------------------------------------------------------

  const CurveSteps: nat := 10

  /** The quadratic Bezier curve from `s` through control `c` to `e`, at `t = i / 10`. */
  function QuadPoint(s: Point, c: Point, e: Point, i: nat): Point
  {
    var t := i as real / CurveSteps as real;
    var u := 1.0 - t;
    Point(u * u * s.x + 2.0 * u * t * c.x + t * t * e.x,
          u * u * s.y + 2.0 * u * t * c.y + t * t * e.y)
  }

  /** The cubic Bezier curve from `s` through controls `c1`, `c2` to `e`, at `t = i / 10`. */
  function CubicPoint(s: Point, c1: Point, c2: Point, e: Point, i: nat): Point
  {
    var t := i as real / CurveSteps as real;
    var u := 1.0 - t;
    Point(u * u * u * s.x + 3.0 * u * u * t * c1.x + 3.0 * u * t * t * c2.x + t * t * t * e.x,
          u * u * u * s.y + 3.0 * u * u * t * c1.y + 3.0 * u * t * t * c2.y + t * t * t * e.y)
  }

  /** The points `quadraticCurveTo` adds: samples 1 to 10. */
  function QuadPoints(s: Point, c: Point, e: Point): (r: seq<Point>)
    ensures |r| == CurveSteps
  {
    seq(CurveSteps, k requires 0 <= k < CurveSteps => QuadPoint(s, c, e, k + 1))
  }

  function CubicPoints(s: Point, c1: Point, c2: Point, e: Point): (r: seq<Point>)
    ensures |r| == CurveSteps
  {
    seq(CurveSteps, k requires 0 <= k < CurveSteps => CubicPoint(s, c1, c2, e, k + 1))
  }

  /** The sampled curves start at the current point (sample 0, not added) and end exactly at the target. */
  lemma CurveEnds(s: Point, c: Point, c1: Point, c2: Point, e: Point)
    ensures QuadPoint(s, c, e, 0) == s && QuadPoints(s, c, e)[CurveSteps - 1] == e
    ensures CubicPoint(s, c1, c2, e, 0) == s && CubicPoints(s, c1, c2, e)[CurveSteps - 1] == e
  {
    assert QuadPoints(s, c, e)[CurveSteps - 1] == QuadPoint(s, c, e, 10);
    assert CubicPoints(s, c1, c2, e)[CurveSteps - 1] == CubicPoint(s, c1, c2, e, 10);
  }

  // ---------------------------------------------------------------------------
  // Group transforms
  // ---------------------------------------------------------------------------

  /**
   * What `groupTransformStack` holds. libGDX's `batch.transformMatrix` getter
   * hands out the batch's own matrix object and its setter copies values into
   * that object, so an entry is either that object (`BatchMatrix`) or a
   * detached copy made with `cpy()`.
   */
  datatype Saved = BatchMatrix | Copy(values: Matrix4)

  /** The group stack and the values of the batch's matrix. */
  datatype Groups = Groups(stack: seq<Saved>, transform: Matrix4)

  /** The values a saved entry holds now: the batch's own matrix holds the current transform. */
  function ValuesOf(e: Saved, current: Matrix4): Matrix4
  {
    if e.BatchMatrix? then current else e.values
  }

  /** `beginGroup(t)` as written: pushes the batch's own matrix, then copies `t` into it. */
  function PushGroup(g: Groups, t: Option<Matrix4>): Groups
  {
    Groups(g.stack + [BatchMatrix], if t.Some? then t.value else g.transform)
  }

  /** `beginGroup(t)` pushing `batch.transformMatrix.cpy()`, as VGWidget does around its own drawing. */
  function PushGroupCopy(g: Groups, t: Option<Matrix4>): Groups
  {
    Groups(g.stack + [Copy(g.transform)], if t.Some? then t.value else g.transform)
  }

  /** `endGroup()`: copies the last entry into the batch's matrix; `removeLast` on an empty stack throws. */
  function PopGroup(g: Groups): Result<Groups, Failure>
  {
    if g.stack == [] then Err(NoSuchElement)
    else Ok(Groups(g.stack[..|g.stack| - 1], ValuesOf(g.stack[|g.stack| - 1], g.transform)))
  }

  /**
   * As written, `endGroup` after `beginGroup(t)` restores the stack but not the
   * transform: the popped entry is the batch's matrix itself, which already
   * holds `t`.
   */
  lemma EndGroupKeepsGroupTransform(g: Groups, t: Option<Matrix4>)
    ensures PopGroup(PushGroup(g, t)) == Ok(Groups(g.stack, if t.Some? then t.value else g.transform))
    ensures PopGroup(PushGroup(g, t)) == Ok(g) <==> t.None? || t.value == g.transform
  {
    assert (g.stack + [BatchMatrix])[..|g.stack|] == g.stack;
  }

  /** A group that sets the identity inside an all-zero transform leaves the identity behind. */
  lemma EndGroupLeaksTransform()
    ensures var g := Groups([], Zero4); PopGroup(PushGroup(g, Some(Identity4))).value.transform != g.transform
  {
    EndGroupKeepsGroupTransform(Groups([], Zero4), Some(Identity4));
    assert Identity4[0] != Zero4[0];
  }

  const Zero4: Matrix4 := seq(16, _ => 0.0)
  const Identity4: Matrix4 := seq(16, i => if i % 5 == 0 then 1.0 else 0.0)

  /** With copies pushed, `endGroup` undoes `beginGroup`: the transform and the stack are as they were. */
  lemma PopPushGroupCopy(g: Groups, t: Option<Matrix4>)
    ensures PopGroup(PushGroupCopy(g, t)) == Ok(g)
  {
    assert (g.stack + [Copy(g.transform)])[..|g.stack|] == g.stack;
  }

  /** The `beginGroup`s of `ts`, in order, as written or with copies. */
  function PushAll(g: Groups, ts: seq<Option<Matrix4>>, copy: bool): Groups
  {
    if ts == [] then g
    else if copy then PushGroupCopy(PushAll(g, ts[..|ts| - 1], copy), ts[|ts| - 1])
    else PushGroup(PushAll(g, ts[..|ts| - 1], copy), ts[|ts| - 1])
  }

  /** `n` calls of `endGroup`, stopping at the first that throws. */
  function PopAll(g: Groups, n: nat): Result<Groups, Failure>
    decreases n
  {
    if n == 0 then Ok(g)
    else match PopGroup(g)
      case Err(e) => Err(e)
      case Ok(g1) => PopAll(g1, n - 1)
  }

  /** The transform left by the last group of `ts` that set one, or `m` when none did. */
  function LastSet(m: Matrix4, ts: seq<Option<Matrix4>>): Matrix4
  {
    if ts == [] then m
    else if ts[|ts| - 1].Some? then ts[|ts| - 1].value
    else LastSet(m, ts[..|ts| - 1])
  }

  /** As written, nested `beginGroup`s push only references to the batch's matrix. */
  lemma {:induction false} PushAllAliases(g: Groups, ts: seq<Option<Matrix4>>)
    ensures PushAll(g, ts, false) == Groups(g.stack + seq(|ts|, _ => BatchMatrix), LastSet(g.transform, ts))
  {
    if ts != [] {
      PushAllAliases(g, ts[..|ts| - 1]);
      assert g.stack + seq(|ts| - 1, _ => BatchMatrix) + [BatchMatrix] == g.stack + seq(|ts|, _ => BatchMatrix);
    }
  }

  /** Popping references to the batch's matrix shortens the stack and leaves the transform alone. */
  lemma {:induction false} PopAliases(g: Groups, n: nat)
    requires n <= |g.stack|
    requires forall i :: |g.stack| - n <= i < |g.stack| ==> g.stack[i] == BatchMatrix
    ensures PopAll(g, n) == Ok(Groups(g.stack[..|g.stack| - n], g.transform))
    decreases n
  {
    if n == 0 {
      assert g.stack[..|g.stack|] == g.stack;
    } else {
      var g1 := Groups(g.stack[..|g.stack| - 1], g.transform);
      assert PopGroup(g) == Ok(g1);
      PopAliases(g1, n - 1);
      assert g1.stack[..|g1.stack| - (n - 1)] == g.stack[..|g.stack| - n];
    }
  }

  /**
   * As written, closing properly nested groups restores the stack but leaves
   * the transform of the last group that set one.
   */
  lemma NestedGroups(g: Groups, ts: seq<Option<Matrix4>>)
    ensures PopAll(PushAll(g, ts, false), |ts|) == Ok(Groups(g.stack, LastSet(g.transform, ts)))
  {
    PushAllAliases(g, ts);
    var pushed := PushAll(g, ts, false);
    assert pushed.stack[..|pushed.stack| - |ts|] == g.stack;
    PopAliases(pushed, |ts|);
  }

  /** With copies pushed, properly nested groups leave the transform and the stack as they were. */
  lemma {:induction false} NestedGroupsCopy(g: Groups, ts: seq<Option<Matrix4>>)
    ensures PopAll(PushAll(g, ts, true), |ts|) == Ok(g)
  {
    if ts != [] {
      var inner := PushAll(g, ts[..|ts| - 1], true);
      PopPushGroupCopy(inner, ts[|ts| - 1]);
      NestedGroupsCopy(g, ts[..|ts| - 1]);
    }
  }

  // ---------------------------------------------------------------------------
  // The backend
  // ---------------------------------------------------------------------------

  lemma Parity(m: nat)
    ensures (2 * m) % 2 == 0 && (2 * m + 1) % 2 == 1
  {
  }

  /** Reading two more coordinates adds one point. */
  lemma PairsSnoc(c: seq<real>, i: nat)
    requires i % 2 == 0 && i + 2 <= |c|
    ensures Pairs(c[..i + 2]) == Pairs(c[..i]) + [Point(c[i], c[i + 1])]
  {
    var a := Pairs(c[..i + 2]);
    var b := Pairs(c[..i]) + [Point(c[i], c[i + 1])];
    forall k | 0 <= k < |a|
      ensures a[k] == b[k]
    {
      if k < |a| - 1 {
        assert c[..i + 2][2 * k] == c[..i][2 * k] && c[..i + 2][2 * k + 1] == c[..i][2 * k + 1];
      }
    }
  }

  /** The values of a list of polylines. */
  function ShapesOf(ps: seq<Polyline>): (r: seq<Shape>)
    reads set p | p in ps
    ensures |r| == |ps|
    ensures forall i :: 0 <= i < |ps| ==> r[i] == ps[i].Value()
  {
    if ps == [] then [] else ShapesOf(ps[..|ps| - 1]) + [ps[|ps| - 1].Value()]
  }

  class GdxSimpleVg {
    var path: Polyline
    var paths: seq<Polyline>
    var groupStack: seq<Saved>
    /** The values of the batch's own transform matrix. */
    var transform: Matrix4
    var drawn: seq<Draw>
    var strokeWidth: real
    var strokeColor: Color
    var fillColor: Color

    /** The polylines of `paths` are distinct, and `path` is the last of them or none of them. */
    ghost predicate Valid()
      reads this
    {
      (forall i, j :: 0 <= i < j < |paths| ==> paths[i] != paths[j]) &&
      (path in paths ==> path == paths[|paths| - 1])
    }

    function Style(): Style
      reads this
    {
      SimpleVg.Style(strokeWidth, strokeColor, fillColor)
    }

    function GroupState(): Groups
      reads this
    {
      Groups(groupStack, transform)
    }

    /** The sub-paths waiting to be painted. */
    function Pending(): seq<Shape>
      reads this, set p | p in paths
    {
      ShapesOf(paths)
    }

    /** The batch starts with `transform`. */
    constructor (transform: Matrix4)
      ensures Valid() && fresh(path)
      ensures path.points == [] && !path.closed && paths == []
      ensures GroupState() == Groups([], transform)
      ensures drawn == [] && Style() == SimpleVg.Style(1.0, Black, White)
    {
      path := new Polyline();
      paths := [];
      groupStack := [];
      this.transform := transform;
      drawn := [];
      strokeWidth := 1.0;
      strokeColor := Black;
      fillColor := White;
    }

    /** Empties the current polyline, which may be the last pending sub-path. */
    method BeginPath()
      requires Valid()
      modifies path
      ensures path.points == [] && !path.closed
      ensures Pending() == ClearedLast(old(Pending()), old(path in paths))
    {
      path.Clear();
      assert forall i :: 0 <= i < |paths| - 1 ==> paths[i] != path;
    }

    method ClosePath()
      requires Valid()
      modifies path
      ensures path.points == old(path.points) && path.closed
      ensures path in paths ==> Pending() == old(Pending())[|paths| - 1 := path.Value()]
      ensures path !in paths ==> Pending() == old(Pending())
    {
      path.Close();
      assert forall i :: 0 <= i < |paths| - 1 ==> paths[i] != path;
    }

    /** Starts a new sub-path of one point. */
    method MoveTo(p: Point)
      requires Valid()
      modifies this
      ensures Valid() && fresh(path)
      ensures paths == old(paths) + [path] && path.points == [p] && !path.closed
      ensures Pending() == old(Pending()) + [Shape([p], false)]
      ensures GroupState() == old(GroupState()) && drawn == old(drawn) && Style() == old(Style())
    {
      path := new Polyline();
      paths := paths + [path];
      path.Add(p);
      assert paths[..|paths| - 1] == old(paths);
    }

    /** Extends the current polyline, whether or not it is pending. */
    method LineTo(p: Point)
      requires Valid()
      modifies path
      ensures path.points == old(path.points) + [p] && path.closed == old(path.closed)
      ensures path in paths ==> Pending() == old(Pending())[|paths| - 1 := path.Value()]
      ensures path !in paths ==> Pending() == old(Pending())
    {
      path.Add(p);
      assert forall i :: 0 <= i < |paths| - 1 ==> paths[i] != path;
    }

    /** Adds ten points along the curve, or none when the current polyline is empty. */
    method QuadraticCurveTo(c: Point, e: Point)
      requires Valid()
      modifies path
      ensures old(path.points) == [] ==> path.points == []
      ensures old(path.points) != [] ==>
        path.points == old(path.points) + QuadPoints(old(path.points)[|old(path.points)| - 1], c, e)
      ensures path.closed == old(path.closed)
    {
      if path.points == [] {
        return;
      }
      var start := path.points[|path.points| - 1];
      for i := 1 to CurveSteps + 1
        invariant path.points == old(path.points) + QuadPoints(start, c, e)[..i - 1]
        invariant path.closed == old(path.closed)
      {
        LineTo(QuadPoint(start, c, e, i));
        assert QuadPoints(start, c, e)[..i] == QuadPoints(start, c, e)[..i - 1] + [QuadPoint(start, c, e, i)];
      }
    }

    /** Adds ten points along the curve, or none when the current polyline is empty. */
    method BezierCurveTo(c1: Point, c2: Point, e: Point)
      requires Valid()
      modifies path
      ensures old(path.points) == [] ==> path.points == []
      ensures old(path.points) != [] ==>
        path.points == old(path.points) + CubicPoints(old(path.points)[|old(path.points)| - 1], c1, c2, e)
      ensures path.closed == old(path.closed)
    {
      if path.points == [] {
        return;
      }
      var start := path.points[|path.points| - 1];
      for i := 1 to CurveSteps + 1
        invariant path.points == old(path.points) + CubicPoints(start, c1, c2, e)[..i - 1]
        invariant path.closed == old(path.closed)
      {
        LineTo(CubicPoint(start, c1, c2, e, i));
        assert CubicPoints(start, c1, c2, e)[..i] == CubicPoints(start, c1, c2, e)[..i - 1] + [CubicPoint(start, c1, c2, e, i)];
      }
    }

    /** `drawPolyline(polylines, filled, stroke)`. */
    method DrawPolyline(polylines: seq<Polyline>, filled: bool, stroke: bool)
      modifies this
      ensures drawn == old(drawn) + DrawPolylines(ShapesOf(polylines), filled, stroke, Style())
      ensures paths == old(paths) && path == old(path) && GroupState() == old(GroupState()) && Style() == old(Style())
    {
      ghost var shapes := ShapesOf(polylines);
      for k := 0 to |polylines|
        invariant old(drawn) + DrawPolylines(shapes, filled, stroke, Style()) ==
          drawn + DrawPolylines(shapes[k..], filled, stroke, Style())
        invariant paths == old(paths) && path == old(path) && GroupState() == old(GroupState()) && Style() == old(Style())
      {
        var polyline := polylines[k];
        assert shapes[k..][1..] == shapes[k + 1..];
        assert shapes[k..][0] == polyline.Value();
        if |polyline.points| < 2 {
          return;
        }
        ghost var before := drawn;
        DrawOne(polyline, filled, stroke);
        AppendAssoc(before, PolylineDraws(shapes[k], filled, stroke, Style()),
                    DrawPolylines(shapes[k + 1..], filled, stroke, Style()));
      }
    }

    /** The body of `drawPolyline`'s loop for a polyline of at least two points. */
    method DrawOne(polyline: Polyline, filled: bool, stroke: bool)
      modifies this
      ensures drawn == old(drawn) + PolylineDraws(polyline.Value(), filled, stroke, Style())
      ensures paths == old(paths) && path == old(path) && GroupState() == old(GroupState()) && Style() == old(Style())
    {
      var fills: seq<Draw> := [];
      if filled && |polyline.points| > 2 {
        var vertices := polyline.ToArray();
        fills := [FillPolygon(vertices[..], fillColor)];
      }
      var strokes: seq<Draw> := [];
      if stroke {
        var lines := CollectLines(polyline);
        strokes := StrokeLines(lines, Style());
      }
      drawn := drawn + fills + strokes;
      AppendAssoc(old(drawn), fills, strokes);
    }

    /** Draws and then drops every pending sub-path, and starts a new current polyline. */
    method PaintPaths(filled: bool, stroke: bool)
      modifies this
      ensures drawn == old(drawn) + DrawPolylines(old(Pending()), filled, stroke, Style())
      ensures Valid() && paths == [] && fresh(path) && path.points == [] && !path.closed
      ensures GroupState() == old(GroupState()) && Style() == old(Style())
    {
      DrawPolyline(paths, filled, stroke);
      paths := [];
      path := new Polyline();
    }

    method FillPath()
      modifies this
      ensures drawn == old(drawn) + DrawPolylines(old(Pending()), true, false, Style())
      ensures Valid() && paths == [] && fresh(path) && path.points == [] && !path.closed
      ensures GroupState() == old(GroupState()) && Style() == old(Style())
    {
      PaintPaths(true, false);
    }

    method StrokePath()
      modifies this
      ensures drawn == old(drawn) + DrawPolylines(old(Pending()), false, true, Style())
      ensures Valid() && paths == [] && fresh(path) && path.points == [] && !path.closed
      ensures GroupState() == old(GroupState()) && Style() == old(Style())
    {
      PaintPaths(false, true);
    }

    method StrokeAndFillPath()
      modifies this
      ensures drawn == old(drawn) + DrawPolylines(old(Pending()), true, true, Style())
      ensures Valid() && paths == [] && fresh(path) && path.points == [] && !path.closed
      ensures GroupState() == old(GroupState()) && Style() == old(Style())
    {
      PaintPaths(true, true);
    }

    /** `executeShapeType`: the painting call matching the shape type. */
    method ExecuteShapeType(shapeType: ShapeType)
      modifies this
      ensures drawn == old(drawn) + DrawPolylines(old(Pending()), shapeType.IsFill(), shapeType.IsStroke(), Style())
      ensures Valid() && paths == [] && fresh(path) && path.points == [] && !path.closed
      ensures GroupState() == old(GroupState()) && Style() == old(Style())
    {
      match shapeType
      case Fill => FillPath();
      case Stroke => StrokePath();
      case StrokeAndFill => StrokeAndFillPath();
    }

    /** Pushes `batch.transformMatrix`, the batch's own matrix rather than a copy, then copies `t` into it. */
    method BeginGroup(t: Option<Matrix4>)
      modifies this
      ensures GroupState() == PushGroup(old(GroupState()), t)
      ensures paths == old(paths) && path == old(path) && drawn == old(drawn) && Style() == old(Style())
    {
      groupStack := groupStack + [BatchMatrix];
      if t.Some? {
        transform := t.value;
      }
    }

    /** Pops the last entry and copies its values into the batch's matrix. */
    method EndGroup() returns (o: Outcome<Failure>)
      modifies this
      ensures PopGroup(old(GroupState())).Err? ==> o == Fail(NoSuchElement) && GroupState() == old(GroupState())
      ensures PopGroup(old(GroupState())).Ok? ==> o == Pass && GroupState() == PopGroup(old(GroupState())).value
      ensures paths == old(paths) && path == old(path) && drawn == old(drawn) && Style() == old(Style())
    {
      if groupStack == [] {
        return Fail(NoSuchElement);
      }
      var last := groupStack[|groupStack| - 1];
      groupStack := groupStack[..|groupStack| - 1];
      transform := ValuesOf(last, transform);
      return Pass;
    }

    method Line(x: real, y: real, x2: real, y2: real)
      modifies this
      ensures drawn == old(drawn) + [StrokeLine(Point(x, y), Point(x2, y2), strokeColor, strokeWidth)]
      ensures paths == old(paths) && path == old(path) && GroupState() == old(GroupState()) && Style() == old(Style())
    {
      drawn := drawn + [StrokeLine(Point(x, y), Point(x2, y2), strokeColor, strokeWidth)];
    }

    /** A filled rectangle and/or its four edges, drawn as the closed outline of its corners. */
    method Rect(x: real, y: real, w: real, h: real, shapeType: ShapeType)
      modifies this
      ensures drawn == old(drawn) +
        (if shapeType.IsFill() then [FillRect(x, y, w, h, fillColor)] else []) +
        (if shapeType.IsStroke() then StrokeLines(Segments(Corners(x, y, w, h), true), Style()) else [])
      ensures paths == old(paths) && path == old(path) && GroupState() == old(GroupState()) && Style() == old(Style())
    {
      if shapeType.IsFill() {
        drawn := drawn + [FillRect(x, y, w, h, fillColor)];
      }
      if shapeType.IsStroke() {
        var edges := [StrokeLine(Point(x, y), Point(x + w, y), strokeColor, strokeWidth),
                      StrokeLine(Point(x + w, y), Point(x + w, y + h), strokeColor, strokeWidth),
                      StrokeLine(Point(x + w, y + h), Point(x, y + h), strokeColor, strokeWidth),
                      StrokeLine(Point(x, y + h), Point(x, y), strokeColor, strokeWidth)];
        assert edges == StrokeLines(Segments(Corners(x, y, w, h), true), Style());
        drawn := drawn + edges;
      }
    }

    /**
     * `polygon(points, shapeType)`: nothing for fewer than four coordinates;
     * otherwise a new closed sub-path through the points, painted with
     * whatever else is pending. An odd count runs past the end of the array
     * after the sub-path has been started.
     */
    method Polygon(coords: seq<real>, shapeType: ShapeType) returns (o: Outcome<Failure>)
      requires Valid()
      modifies this, path
      ensures |coords| < 4 ==>
        o == Pass && drawn == old(drawn) && paths == old(paths) && path == old(path) &&
        path.points == old(path.points) && path.closed == old(path.closed) && Pending() == old(Pending())
      ensures |coords| >= 4 && |coords| % 2 == 1 ==>
        o == Fail(ArrayIndexOutOfBounds) && drawn == old(drawn) && Valid() &&
        Pending() == ClearedLast(old(Pending()), old(path in paths)) +
          [Shape(Pairs(coords[..|coords| - 1]), false)]
      ensures |coords| >= 4 && |coords| % 2 == 0 ==>
        o == Pass && Valid() && paths == [] && fresh(path) && path.points == [] &&
        drawn == old(drawn) + DrawPolylines(ClearedLast(old(Pending()), old(path in paths)) +
          [Shape(Pairs(coords), true)], shapeType.IsFill(), shapeType.IsStroke(), Style())
      ensures GroupState() == old(GroupState()) && Style() == old(Style())
    {
      if |coords| < 4 {
        return Pass;
      }
      var complete := TracePolygon(coords);
      if !complete {
        return Fail(ArrayIndexOutOfBounds);
      }
      ghost var pending := Pending();
      ClosePath();
      assert Pending() == pending[..|pending| - 1] + [Shape(Pairs(coords), true)];
      ExecuteShapeType(shapeType);
      return Pass;
    }

    /**
     * The path-building part of `polygon`: `beginPath`, a move to the first
     * point and a line to each further one, until the coordinates run out.
     */
    method TracePolygon(coords: seq<real>) returns (complete: bool)
      requires Valid() && |coords| >= 4
      modifies this, path
      ensures complete <==> |coords| % 2 == 0
      ensures Valid() && fresh(path) && !path.closed && path in paths
      ensures path.points == if complete then Pairs(coords) else Pairs(coords[..|coords| - 1])
      ensures Pending() == ClearedLast(old(Pending()), old(path in paths)) + [path.Value()]
      ensures drawn == old(drawn) && GroupState() == old(GroupState()) && Style() == old(Style())
    {
      ghost var base := StartPath(Point(coords[0], coords[1]));
      complete := LineToEach(coords);
      assert paths[..|paths| - 1] == base;
    }

    /** `beginPath` and `moveTo`: a new sub-path after the pending ones, the current polyline emptied. */
    method StartPath(p: Point) returns (ghost base: seq<Polyline>)
      requires Valid()
      modifies this, path
      ensures Valid() && fresh(path) && path.points == [p] && !path.closed
      ensures paths == base + [path] && path !in base
      ensures ShapesOf(base) == ClearedLast(old(Pending()), old(path in paths))
      ensures drawn == old(drawn) && GroupState() == old(GroupState()) && Style() == old(Style())
    {
      BeginPath();
      base := paths;
      MoveTo(p);
    }

    /**
     * `polygon`'s loop: a line to each further point of `coords`, the first
     * already being the current polyline's; false when an odd count leaves a
     * lone last coordinate.
     */
    method LineToEach(coords: seq<real>) returns (complete: bool)
      requires Valid() && |coords| >= 2 && path.points == [Point(coords[0], coords[1])]
      modifies path
      ensures complete <==> |coords| % 2 == 0
      ensures path.points == if complete then Pairs(coords) else Pairs(coords[..|coords| - 1])
      ensures path.closed == old(path.closed)
    {
      assert path.points == Pairs(coords[..2]);
      var i := 2;
      while i < |coords|
        invariant i <= |coords| && i == 2 * |path.points|
        invariant path.points == Pairs(coords[..i]) && path.closed == old(path.closed)
        decreases |coords| - i
      {
        if i + 1 >= |coords| {
          Parity(|path.points|);
          return false;
        }
        PairsSnoc(coords, i);
        LineTo(Point(coords[i], coords[i + 1]));
        i := i + 2;
      }
      assert coords[..i] == coords;
      Parity(|path.points|);
      return true;
    }

    /**
     * `ellipse(x, y, radiusX, radiusY, shapeType)`: a new closed sub-path
     * through the outline points, painted with whatever else is pending.
     * `unit` holds the 25 single-precision `(cos θ, sin θ)` pairs the source
     * computes for θ = 2πi/24.
     */
    method Ellipse(x: real, y: real, radiusX: real, radiusY: real, shapeType: ShapeType, unit: seq<(real, real)>)
      requires Valid() && |unit| == EllipseSegments + 1
      modifies this, path
      ensures Valid() && paths == [] && fresh(path) && path.points == []
      ensures drawn == old(drawn) + DrawPolylines(ClearedLast(old(Pending()), old(path in paths)) +
        [Shape(EllipsePoints(x, y, radiusX, radiusY, unit), true)], shapeType.IsFill(), shapeType.IsStroke(), Style())
      ensures GroupState() == old(GroupState()) && Style() == old(Style())
    {
      TraceEllipse(x, y, radiusX, radiusY, unit);
      ghost var pending := Pending();
      ClosePath();
      assert Pending() == pending[..|pending| - 1] + [Shape(EllipsePoints(x, y, radiusX, radiusY, unit), true)];
      ExecuteShapeType(shapeType);
    }

    /** `circle`: an ellipse with both radii equal. */
    method Circle(x: real, y: real, radius: real, shapeType: ShapeType, unit: seq<(real, real)>)
      requires Valid() && |unit| == EllipseSegments + 1
      modifies this, path
      ensures Valid() && paths == [] && fresh(path) && path.points == []
      ensures drawn == old(drawn) + DrawPolylines(ClearedLast(old(Pending()), old(path in paths)) +
        [Shape(EllipsePoints(x, y, radius, radius, unit), true)], shapeType.IsFill(), shapeType.IsStroke(), Style())
      ensures GroupState() == old(GroupState()) && Style() == old(Style())
    {
      Ellipse(x, y, radius, radius, shapeType, unit);
    }

    /** The path-building part of `ellipse`: `beginPath`, a move to the first outline point and a line to each further one. */
    method TraceEllipse(x: real, y: real, radiusX: real, radiusY: real, unit: seq<(real, real)>)
      requires Valid() && |unit| >= 1
      modifies this, path
      ensures Valid() && fresh(path) && !path.closed && path in paths
      ensures path.points == EllipsePoints(x, y, radiusX, radiusY, unit)
      ensures Pending() == ClearedLast(old(Pending()), old(path in paths)) + [path.Value()]
      ensures drawn == old(drawn) && GroupState() == old(GroupState()) && Style() == old(Style())
    {
      ghost var base := StartPath(EllipsePoint(x, y, radiusX, radiusY, unit[0]));
      LineToSamples(x, y, radiusX, radiusY, unit);
      assert paths[..|paths| - 1] == base;
    }

    /** `ellipse`'s loop after its first sample: a line to each further outline point. */
    method LineToSamples(x: real, y: real, radiusX: real, radiusY: real, unit: seq<(real, real)>)
      requires Valid() && |unit| >= 1 && path.points == [EllipsePoint(x, y, radiusX, radiusY, unit[0])]
      modifies path
      ensures path.points == EllipsePoints(x, y, radiusX, radiusY, unit)
      ensures path.closed == old(path.closed)
    {
      assert path.points == EllipsePoints(x, y, radiusX, radiusY, unit[..1]);
      for i := 1 to |unit|
        invariant path.points == EllipsePoints(x, y, radiusX, radiusY, unit[..i])
        invariant path.closed == old(path.closed)
      {
        LineTo(EllipsePoint(x, y, radiusX, radiusY, unit[i]));
        assert EllipsePoints(x, y, radiusX, radiusY, unit[..i + 1]) ==
          EllipsePoints(x, y, radiusX, radiusY, unit[..i]) + [EllipsePoint(x, y, radiusX, radiusY, unit[i])];
      }
      assert unit[..|unit|] == unit;
    }

    /** Drawn in the fill colour; the font's own colour is restored afterwards. */
    method Text(text: string, x: real, y: real, align: int)
      modifies this
      ensures drawn == old(drawn) + [DrawText(text, x, y, align, fillColor)]
      ensures paths == old(paths) && path == old(path) && GroupState() == old(GroupState()) && Style() == old(Style())
    {
      drawn := drawn + [DrawText(text, x, y, align, fillColor)];
    }

    method SetStrokeWidth(w: real)
      modifies this
      ensures Style() == old(Style()).(strokeWidth := w)
      ensures paths == old(paths) && path == old(path) && GroupState() == old(GroupState()) && drawn == old(drawn)
    {
      strokeWidth := w;
    }

    method SetStrokeColor(color: Color)
      modifies this
      ensures Style() == old(Style()).(strokeColor := color)
      ensures paths == old(paths) && path == old(path) && GroupState() == old(GroupState()) && drawn == old(drawn)
    {
      strokeColor := color;
    }

    method SetFillColor(color: Color)
      modifies this
      ensures Style() == old(Style()).(fillColor := color)
      ensures paths == old(paths) && path == old(path) && GroupState() == old(GroupState()) && drawn == old(drawn)
    {
      fillColor := color;
    }
  }

  /** The corners of a rectangle, counter-clockwise from `(x, y)`. */
  function Corners(x: real, y: real, w: real, h: real): seq<Point>
  {
    [Point(x, y), Point(x + w, y), Point(x + w, y + h), Point(x, y + h)]
  }

  // ---------------------------------------------------------------------------
  // Ellipses
  // ---------------------------------------------------------------------------

  /** `ellipse` samples the outline at this many equal angle steps, both ends included. */
  const EllipseSegments := 24

  /** The outline point for the unit-circle sample `u == (cos θ, sin θ)`. */
  function EllipsePoint(x: real, y: real, radiusX: real, radiusY: real, u: (real, real)): Point
  {
    Point(x + radiusX * u.0, y + radiusY * u.1)
  }

  /** The outline points, one per unit-circle sample, in order. */
  function EllipsePoints(x: real, y: real, radiusX: real, radiusY: real, unit: seq<(real, real)>): (r: seq<Point>)
    ensures |r| == |unit|
    ensures forall i :: 0 <= i < |unit| ==> r[i] == EllipsePoint(x, y, radiusX, radiusY, unit[i])
  {
    seq(|unit|, i requires 0 <= i < |unit| => EllipsePoint(x, y, radiusX, radiusY, unit[i]))
  }

  /** With equal radii and samples on the unit circle, every outline point lies on the circle. */
  lemma CirclePoints(x: real, y: real, radius: real, unit: seq<(real, real)>)
    requires forall i :: 0 <= i < |unit| ==> unit[i].0 * unit[i].0 + unit[i].1 * unit[i].1 == 1.0
    ensures forall p :: p in EllipsePoints(x, y, radius, radius, unit) ==>
      (p.x - x) * (p.x - x) + (p.y - y) * (p.y - y) == radius * radius
  {
    var r := EllipsePoints(x, y, radius, radius, unit);
    forall i | 0 <= i < |r|
      ensures (r[i].x - x) * (r[i].x - x) + (r[i].y - y) * (r[i].y - y) == radius * radius
    {
      ScaledUnit(radius, unit[i].0, unit[i].1);
    }
  }

  lemma ScaledUnit(radius: real, c: real, s: real)
    requires c * c + s * s == 1.0
    ensures (radius * c) * (radius * c) + (radius * s) * (radius * s) == radius * radius
  {
    calc {
      (radius * c) * (radius * c) + (radius * s) * (radius * s);
      radius * radius * (c * c + s * s);
      radius * radius;
    }
  }
}
