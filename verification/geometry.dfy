/** Pixel geometry shared by the experiment canvas and the game canvas: the
    mapping from mathematical coordinates to canvas pixels, and the segment
    drawn for the line y = a x + b.  Everything is exact real arithmetic; the
    floating-point rounding of the browser is not modelled. */
module Geometry {

  datatype Point = Point(x: real, y: real)

  /** Canvas size in pixels. */
  datatype Canvas = Canvas(width: real, height: real)

  /** A segment from `start` to `end`, both in pixels. */
  datatype Segment = Segment(start: Point, end: Point)

  /** Pixels per unit, the same on both axes. */
  const Scale: real := 20.0

  /** The mathematical origin sits at the canvas centre. */
  function OriginX(c: Canvas): real { c.width / 2.0 }
  function OriginY(c: Canvas): real { c.height / 2.0 }

  /** Value of y = a x + b at x. */
  function LineAt(a: real, b: real, x: real): real { a * x + b }

  /** The mathematical point displayed at pixel `q`. */
  function FromPixel(c: Canvas, q: Point): Point
  {
    Point((q.x - OriginX(c)) / Scale, (OriginY(c) - q.y) / Scale)
  }

  /** Pixel position of a mathematical point; pixel rows grow downwards, so
      the y-axis is flipped.  No information is lost: reading the pixel back
      gives the point again. */
  function ToPixel(c: Canvas, p: Point): (q: Point)
    ensures FromPixel(c, q) == p
  {
    Point(OriginX(c) + p.x * Scale, OriginY(c) - p.y * Scale)
  }

  /** Every pixel shows exactly one mathematical point. */
  lemma PixelRoundTrip(c: Canvas, q: Point)
    ensures ToPixel(c, FromPixel(c, q)) == q
  {
  }

  /** The mapping keeps left-to-right order and turns "higher" into
      "nearer the top row". */
  lemma ToPixelOrientation(c: Canvas, p: Point, p': Point)
    ensures p.x < p'.x <==> ToPixel(c, p).x < ToPixel(c, p').x
    ensures p.y < p'.y <==> ToPixel(c, p).y > ToPixel(c, p').y
  {
  }

  /** Leftmost and rightmost mathematical x visible on the canvas. */
  function XMin(c: Canvas): real { -OriginX(c) / Scale }
  function XMax(c: Canvas): real { OriginX(c) / Scale }

  /** The segment stroked for y = a x + b: the line evaluated at both
      visible x-extremes, written with the pixel formula of the drawing
      routine.  It spans the canvas from its left to its right edge, and its
      ends are exactly the pixel images of the two extreme points of the
      line. */
  function LineSegment(c: Canvas, a: real, b: real): (s: Segment)
    ensures s.start.x == 0.0 && s.end.x == c.width
    ensures s.start == ToPixel(c, Point(XMin(c), LineAt(a, b, XMin(c))))
    ensures s.end == ToPixel(c, Point(XMax(c), LineAt(a, b, XMax(c))))
  {
    var y1 := -(a * XMin(c) + b) * Scale + OriginY(c);
    var y2 := -(a * XMax(c) + b) * Scale + OriginY(c);
    Segment(Point(0.0, y1), Point(c.width, y2))
  }

  /** `q` lies on the closed segment `s` (between its x-extremes and
      collinear with its ends). */
  predicate OnSegment(q: Point, s: Segment)
  {
    && (s.start.x <= q.x <= s.end.x || s.end.x <= q.x <= s.start.x)
    && (q.x - s.start.x) * (s.end.y - s.start.y) == (q.y - s.start.y) * (s.end.x - s.start.x)
  }

  /** A point of the line inside the visible x-range is drawn on the stroked
      segment of that line: the dots of the game sit on its faint line. */
  lemma PointOnLineIsOnSegment(c: Canvas, a: real, b: real, p: Point)
    requires p.y == LineAt(a, b, p.x)
    requires XMin(c) <= p.x <= XMax(c)
    ensures OnSegment(ToPixel(c, p), LineSegment(c, a, b))
  {
    var s := LineSegment(c, a, b);
    var q := ToPixel(c, p);
    var ox := OriginX(c);
    assert s.start.y == OriginY(c) + a * ox - b * Scale;
    assert s.end.y == OriginY(c) - a * ox - b * Scale;
    assert s.end.y - s.start.y == -a * c.width;
    assert q.y - s.start.y == -a * q.x;
    assert 0.0 <= q.x <= c.width;
  }
}
