/** Point-in-shape tests (`rutils.py`). */
module Geometry {

  datatype Point = Point(x: int, y: int)

  /** `is_point_inside_rect`: inclusive on every side; `p0` is the upper-left
      and `p1` the lower-right corner. */
  function InsideRect(p0: Point, p1: Point, pt: Point): (r: bool)
    ensures r <==> p0.x <= pt.x <= p1.x && p0.y <= pt.y <= p1.y
    ensures r ==> p0.x <= p1.x && p0.y <= p1.y
  {
    if pt.x >= p0.x && pt.x <= p1.x && pt.y >= p0.y && pt.y <= p1.y then true else false
  }

  /** Both given corners lie inside a well-ordered rectangle, and so does
      every point between them. */
  lemma RectCornersInside(p0: Point, p1: Point)
    requires p0.x <= p1.x && p0.y <= p1.y
    ensures InsideRect(p0, p1, p0) && InsideRect(p0, p1, p1)
    ensures InsideRect(p0, p1, Point(p0.x, p1.y)) && InsideRect(p0, p1, Point(p1.x, p0.y))
  {
  }

  /** An inverted rectangle contains no point at all. */
  lemma RectInvertedIsEmpty(p0: Point, p1: Point, pt: Point)
    requires p0.x > p1.x || p0.y > p1.y
    ensures !InsideRect(p0, p1, pt)
  {
  }

  /** The determinant of the two edges leaving vertex 1. */
  function Det(pg: seq<Point>): int
    requires |pg| >= 3
  {
    (pg[0].x - pg[1].x) * (pg[2].y - pg[1].y) - (pg[0].y - pg[1].y) * (pg[2].x - pg[1].x)
  }

  /** `is_point_inside_parallelogram`: fewer than four points or collinear
      first three vertices give False; otherwise the point's coordinates in
      the frame of the two edges at vertex 1 must both lie in [0, 1]. The
      source computes those coordinates in floating point; here they are
      exact rationals. */
  function InsideParallelogram(pg: seq<Point>, pt: Point): (r: bool)
    ensures |pg| < 4 ==> !r
    ensures |pg| >= 4 && Det(pg) == 0 ==> !r
  {
    if |pg| < 4 then false
    else
      var xb := pg[0].x - pg[1].x;
      var yb := pg[0].y - pg[1].y;
      var xc := pg[2].x - pg[1].x;
      var yc := pg[2].y - pg[1].y;
      var xp := pt.x - pg[1].x;
      var yp := pt.y - pg[1].y;
      var ddd := xb * yc - yb * xc;
      if ddd != 0 then
        var bbb := (xp * yc - xc * yp) as real / ddd as real;
        var ccc := (xb * yp - xp * yb) as real / ddd as real;
        bbb >= 0.0 && ccc >= 0.0 && bbb <= 1.0 && ccc <= 1.0
      else false
  }

  /** Only vertices 0, 1 and 2 are read: the fourth (and any further) point
      never changes the verdict. */
  lemma ParallelogramIgnoresLastVertex(pg: seq<Point>, pg': seq<Point>, pt: Point)
    requires |pg| >= 4 && |pg'| >= 4 && pg[..3] == pg'[..3]
    ensures InsideParallelogram(pg, pt) == InsideParallelogram(pg', pt)
  {
    assert pg[0] == pg[..3][0] && pg[1] == pg[..3][1] && pg[2] == pg[..3][2];
    assert pg'[0] == pg'[..3][0] && pg'[1] == pg'[..3][1] && pg'[2] == pg'[..3][2];
  }

  /** A non-degenerate parallelogram contains its three given vertices and
      the fourth corner they determine. */
  lemma ParallelogramContainsCorners(pg: seq<Point>)
    requires |pg| >= 4 && Det(pg) != 0
    ensures InsideParallelogram(pg, pg[0])
    ensures InsideParallelogram(pg, pg[1])
    ensures InsideParallelogram(pg, pg[2])
    ensures InsideParallelogram(pg, Point(pg[0].x + pg[2].x - pg[1].x, pg[0].y + pg[2].y - pg[1].y))
  {
    var d := Det(pg) as real;
    assert d / d == 1.0;
    assert 0.0 / d == 0.0;
  }
}
