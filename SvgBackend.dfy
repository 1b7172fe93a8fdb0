/**
 * `SVGSimpleVG` of ui/vg/SimpleVG.kt: the SVG export backend. The two string
 * builders become sequences of structured items (`svg` for the document,
 * `path` for the `d` attribute of the path being built); number and colour
 * formatting is not modelled. Y coordinates are flipped against the canvas
 * height, as `transformY` does.
 */
module SvgBackend {
  import opened Wrappers
  import opened SimpleVg

  /** One command of a path's `d` attribute, named by its SVG letter. */
  datatype PathCmd =
    | M(x: real, y: real)
    | L(x: real, y: real)
    | Q(cx: real, cy: real, x: real, y: real)
    | C(cx1: real, cy1: real, cx2: real, cy2: real, x: real, y: real)
    | Z

  /** The `fill` and `stroke` attributes of an element; `None` is `"none"`. */
  datatype Paint = Paint(fill: Option<Color>, stroke: Option<(Color, real)>)

  datatype Element =
    | SvgOpen(width: int, height: int)
    | SvgClose
    | GroupOpen(transform: Option<Matrix4>)
    | GroupClose
    | PathElem(d: seq<PathCmd>, paint: Paint)
    | LineElem(x1: real, y1: real, x2: real, y2: real, stroke: Color, strokeWidth: real)
    | RectElem(x: real, y: real, w: real, h: real, paint: Paint)
    | CircleElem(cx: real, cy: real, r: real, paint: Paint)
    | EllipseElem(cx: real, cy: real, rx: real, ry: real, paint: Paint)
    | PolygonElem(points: seq<Point>, paint: Paint)
    | TextElem(text: string, x: real, y: real, size: real, anchor: string, fill: Color)

  datatype SvgState = SvgState(svg: seq<Element>, path: seq<PathCmd>, pathStarted: bool,
                               style: Style, width: int, height: int)

  /** `svgShapeTypeToSVG`, and the attributes of the three path-painting calls. */
  function ShapePaint(t: ShapeType, style: Style): (p: Paint)
    ensures p.fill.Some? <==> t.IsFill()
    ensures p.stroke.Some? <==> t.IsStroke()
    ensures p.fill.Some? ==> p.fill.value == style.fillColor
    ensures p.stroke.Some? ==> p.stroke.value == (style.strokeColor, style.strokeWidth)
  {
    match t
    case Fill => Paint(Some(style.fillColor), None)
    case Stroke => Paint(None, Some((style.strokeColor, style.strokeWidth)))
    case StrokeAndFill => Paint(Some(style.fillColor), Some((style.strokeColor, style.strokeWidth)))
  }

  // libGDX `Align` flags
  const AlignCenter: int := 1
  const AlignLeft: int := 8
  const AlignRight: int := 16

  /** The `text-anchor` of a libGDX alignment. */
  function Anchor(align: int): (r: string)
    ensures r == "middle" <==> align == AlignCenter
    ensures r == "end" <==> align == AlignRight
    ensures r == "start" <==> align != AlignCenter && align != AlignRight
  {
    if align == AlignLeft then "start"
    else if align == AlignCenter then "middle"
    else if align == AlignRight then "end"
    else "start"
  }

  /** The group transform in SVG's downward y axis: y scale negated, y translation mirrored. */
  function FlipY(m: Matrix4, height: int): (r: Matrix4)
  {
    m[5 := -m[5]][13 := height as real - m[13]]
  }

  /** Flipping twice against the same height gives the transform back. */
  lemma FlipYInvolution(m: Matrix4, height: int)
    ensures FlipY(FlipY(m, height), height) == m
  {
    var r := FlipY(FlipY(m, height), height);
    assert forall i :: 0 <= i < 16 ==> r[i] == m[i];
  }

  /** Points with their y coordinates mirrored against `height`. */
  function YFlipped(ps: seq<Point>, height: int): (r: seq<Point>)
    ensures |r| == |ps|
    ensures forall i :: 0 <= i < |ps| ==> r[i].x == ps[i].x && r[i].y + ps[i].y == height as real
  {
    seq(|ps|, i requires 0 <= i < |ps| => Point(ps[i].x, height as real - ps[i].y))
  }

  /** Mirroring twice gives the points back. */
  lemma YFlippedInvolution(ps: seq<Point>, height: int)
    ensures YFlipped(YFlipped(ps, height), height) == ps
  {
  }

  /** A path buffer is empty before its first move and otherwise opens with a move. */
  predicate PathOpensWithMove(path: seq<PathCmd>)
  {
    path != [] ==> path[0].M?
  }

  /** Every path element of the document draws a non-empty path that opens with a move. */
  predicate PathsOpenWithMove(svg: seq<Element>)
  {
    forall i :: 0 <= i < |svg| && svg[i].PathElem? ==> svg[i].d != [] && svg[i].d[0].M?
  }

  class SvgSimpleVg {
    var svg: seq<Element>
    var path: seq<PathCmd>
    var strokeWidth: real
    var strokeColor: Color
    var fillColor: Color
    var pathStarted: bool
    var width: int
    var height: int

    function State(): SvgState
      reads this
    {
      SvgState(svg, path, pathStarted, Style(strokeWidth, strokeColor, fillColor), width, height)
    }

    /**
     * A path has started exactly when the path buffer holds something, the
     * buffer opens with a move, and so does every path already emitted.
     */
    ghost predicate Valid()
      reads this
    {
      (pathStarted <==> path != []) && PathOpensWithMove(path) && PathsOpenWithMove(svg)
    }

    /** `transformY`: the mirror image of `y` against the document height. */
    function TransformY(y: real): (r: real)
      reads this
      ensures r + y == height as real
    {
      height as real - y
    }

    constructor ()
      ensures State() == SvgState([], [], false, Style(1.0, Black, White), 0, 0)
      ensures Valid()
    {
      svg := [];
      path := [];
      strokeWidth := 1.0;
      strokeColor := Black;
      fillColor := White;
      pathStarted := false;
      width := 0;
      height := 0;
    }

    method BeginSvg(width: int, height: int)
      requires Valid()
      modifies this
      ensures State() == old(State()).(svg := [SvgOpen(width, height)], width := width, height := height)
      ensures Valid()
    {
      this.width := width;
      this.height := height;
      svg := [SvgOpen(width, height)];
    }

    method EndSvg() returns (doc: seq<Element>)
      requires Valid()
      modifies this
      ensures State() == old(State()).(svg := old(svg) + [SvgClose])
      ensures doc == svg
      ensures Valid()
    {
      svg := svg + [SvgClose];
      doc := svg;
    }

    method BeginPath()
      requires Valid()
      modifies this
      ensures State() == old(State()).(path := [], pathStarted := false)
      ensures Valid()
    {
      path := [];
      pathStarted := false;
    }

    /** Appends ` Z` only to a started path. */
    method ClosePath()
      requires Valid()
      modifies this
      ensures State() == old(State()).(path := old(path) + if old(pathStarted) then [Z] else [])
      ensures Valid()
    {
      if pathStarted {
        path := path + [Z];
      }
    }

    method BeginGroup(transform: Option<Matrix4>)
      requires Valid()
      modifies this
      ensures State() == old(State()).(svg := old(svg) +
        [GroupOpen(if transform.Some? then Some(FlipY(transform.value, height)) else None)])
      ensures Valid()
    {
      var flipped := if transform.Some? then Some(FlipY(transform.value, height)) else None;
      svg := svg + [GroupOpen(flipped)];
    }

    method EndGroup()
      requires Valid()
      modifies this
      ensures State() == old(State()).(svg := old(svg) + [GroupClose])
      ensures Valid()
    {
      svg := svg + [GroupClose];
    }

    method MoveTo(x: real, y: real)
      requires Valid()
      modifies this
      ensures State() == old(State()).(path := old(path) + [M(x, TransformY(y))], pathStarted := true)
      ensures Valid()
    {
      path := path + [M(x, TransformY(y))];
      pathStarted := true;
    }

    /** Before any move, a line acts as a move to its end point. */
    method LineTo(x: real, y: real)
      requires Valid()
      modifies this
      ensures old(pathStarted) ==> State() == old(State()).(path := old(path) + [L(x, TransformY(y))])
      ensures !old(pathStarted) ==>
        State() == old(State()).(path := [M(x, TransformY(y))], pathStarted := true)
      ensures Valid()
    {
      if pathStarted {
        path := path + [L(x, TransformY(y))];
      } else {
        MoveTo(x, y);
      }
    }

    /** Before any move, a curve acts as a move to its end point. */
    method QuadraticCurveTo(cx: real, cy: real, x: real, y: real)
      requires Valid()
      modifies this
      ensures old(pathStarted) ==>
        State() == old(State()).(path := old(path) + [Q(cx, TransformY(cy), x, TransformY(y))])
      ensures !old(pathStarted) ==>
        State() == old(State()).(path := [M(x, TransformY(y))], pathStarted := true)
      ensures Valid()
    {
      if pathStarted {
        path := path + [Q(cx, TransformY(cy), x, TransformY(y))];
      } else {
        MoveTo(x, y);
      }
    }

    /** Before any move, a curve acts as a move to its end point. */
    method BezierCurveTo(cx1: real, cy1: real, cx2: real, cy2: real, x: real, y: real)
      requires Valid()
      modifies this
      ensures old(pathStarted) ==> State() == old(State()).(path := old(path) +
        [C(cx1, TransformY(cy1), cx2, TransformY(cy2), x, TransformY(y))])
      ensures !old(pathStarted) ==>
        State() == old(State()).(path := [M(x, TransformY(y))], pathStarted := true)
      ensures Valid()
    {
      if pathStarted {
        path := path + [C(cx1, TransformY(cy1), cx2, TransformY(cy2), x, TransformY(y))];
      } else {
        MoveTo(x, y);
      }
    }

    /** Emits the current path, which stays in the buffer; nothing when no path has started. */
    method FillPath()
      requires Valid()
      modifies this
      ensures State() == old(State()).(svg := old(svg) +
        if pathStarted then [PathElem(path, ShapePaint(Fill, State().style))] else [])
      ensures Valid()
    {
      if !pathStarted {
        return;
      }
      svg := svg + [PathElem(path, ShapePaint(Fill, State().style))];
    }

    method StrokePath()
      requires Valid()
      modifies this
      ensures State() == old(State()).(svg := old(svg) +
        if pathStarted then [PathElem(path, ShapePaint(Stroke, State().style))] else [])
      ensures Valid()
    {
      if !pathStarted {
        return;
      }
      svg := svg + [PathElem(path, ShapePaint(Stroke, State().style))];
    }

    method StrokeAndFillPath()
      requires Valid()
      modifies this
      ensures State() == old(State()).(svg := old(svg) +
        if pathStarted then [PathElem(path, ShapePaint(StrokeAndFill, State().style))] else [])
      ensures Valid()
    {
      if !pathStarted {
        return;
      }
      svg := svg + [PathElem(path, ShapePaint(StrokeAndFill, State().style))];
    }

    method Line(x: real, y: real, x2: real, y2: real)
      requires Valid()
      modifies this
      ensures State() == old(State()).(svg := old(svg) +
        [LineElem(x, TransformY(y), x2, TransformY(y2), strokeColor, strokeWidth)])
      ensures Valid()
    {
      svg := svg + [LineElem(x, TransformY(y), x2, TransformY(y2), strokeColor, strokeWidth)];
    }

    /** SVG places a rectangle by its top-left corner, so y is that of the far edge, flipped. */
    method Rect(x: real, y: real, w: real, h: real, shapeType: ShapeType)
      requires Valid()
      modifies this
      ensures State() == old(State()).(svg := old(svg) +
        [RectElem(x, TransformY(y + h), w, h, ShapePaint(shapeType, State().style))])
      ensures Valid()
    {
      svg := svg + [RectElem(x, TransformY(y + h), w, h, ShapePaint(shapeType, State().style))];
    }

    method Circle(x: real, y: real, radius: real, shapeType: ShapeType)
      requires Valid()
      modifies this
      ensures State() == old(State()).(svg := old(svg) +
        [CircleElem(x, TransformY(y), radius, ShapePaint(shapeType, State().style))])
      ensures Valid()
    {
      svg := svg + [CircleElem(x, TransformY(y), radius, ShapePaint(shapeType, State().style))];
    }

    method Ellipse(x: real, y: real, radiusX: real, radiusY: real, shapeType: ShapeType)
      requires Valid()
      modifies this
      ensures State() == old(State()).(svg := old(svg) +
        [EllipseElem(x, TransformY(y), radiusX, radiusY, ShapePaint(shapeType, State().style))])
      ensures Valid()
    {
      svg := svg + [EllipseElem(x, TransformY(y), radiusX, radiusY, ShapePaint(shapeType, State().style))];
    }

    /**
     * `polygon(points, shapeType)`: nothing for fewer than four coordinates;
     * an odd count runs past the end of the array before anything is emitted.
     */
    method Polygon(coords: seq<real>, shapeType: ShapeType) returns (o: Outcome<Failure>)
      requires Valid()
      modifies this
      ensures |coords| < 4 ==> o == Pass && State() == old(State())
      ensures |coords| >= 4 && |coords| % 2 == 1 ==> o == Fail(ArrayIndexOutOfBounds) && State() == old(State())
      ensures |coords| >= 4 && |coords| % 2 == 0 ==>
        o == Pass &&
        State() == old(State()).(svg := old(svg) +
          [PolygonElem(YFlipped(Pairs(coords), height), ShapePaint(shapeType, State().style))])
      ensures Valid()
    {
      if |coords| < 4 {
        return Pass;
      }
      var points: seq<Point> := [];
      var i := 0;
      while i < |coords|
        invariant i % 2 == 0 && i <= |coords| && 2 * |points| == i
        invariant forall k :: 0 <= k < |points| ==> points[k] == Point(coords[2 * k], TransformY(coords[2 * k + 1]))
        decreases |coords| - i
      {
        if i + 1 >= |coords| {
          return Fail(ArrayIndexOutOfBounds);
        }
        points := points + [Point(coords[i], TransformY(coords[i + 1]))];
        i := i + 2;
      }
      assert points == YFlipped(Pairs(coords), height);
      svg := svg + [PolygonElem(points, ShapePaint(shapeType, State().style))];
      return Pass;
    }

    /** The y coordinate is moved down by the font size to approximate SVG's baseline. */
    method Text(text: string, x: real, y: real, size: real, align: int)
      requires Valid()
      modifies this
      ensures State() == old(State()).(svg := old(svg) +
        [TextElem(text, x, TransformY(y) + size, size, Anchor(align), fillColor)])
      ensures Valid()
    {
      svg := svg + [TextElem(text, x, TransformY(y) + size, size, Anchor(align), fillColor)];
    }

    method SetStrokeWidth(w: real)
      requires Valid()
      modifies this
      ensures State() == old(State()).(style := old(State().style).(strokeWidth := w))
      ensures Valid()
    {
      strokeWidth := w;
    }

    method SetStrokeColor(color: Color)
      requires Valid()
      modifies this
      ensures State() == old(State()).(style := old(State().style).(strokeColor := color))
      ensures Valid()
    {
      strokeColor := color;
    }

    method SetFillColor(color: Color)
      requires Valid()
      modifies this
      ensures State() == old(State()).(style := old(State().style).(fillColor := color))
      ensures Valid()
    {
      fillColor := color;
    }

    /**
     * Empties both buffers but leaves `pathStarted` as it was, so after it a
     * started path would continue without its opening move.
     */
    method Dispose()
      modifies this
      ensures State() == old(State()).(svg := [], path := [])
      ensures Valid() <==> !pathStarted
    {
      svg := [];
      path := [];
    }
  }
}
