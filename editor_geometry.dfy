/** Geometry helpers of the editor: minima and maxima of coordinates, the
    axis-aligned bounding box of a point list and its centre, squared
    distances, and the square root the host supplies. */
module EditorGeometry {
  import opened Types
  import opened RealArith

  /** An axis-aligned rectangle (also the shape of an SVG viewBox). */
  datatype Box = Box(x: real, y: real, width: real, height: real)

  predicate Inside(p: Point, b: Box) {
    b.x <= p.x <= b.x + b.width && b.y <= p.y <= b.y + b.height
  }

  /** The smallest element (`Math.min(...xs)`). */
  function Min(xs: seq<real>): (r: real)
    requires |xs| > 0
    ensures r in xs
    ensures forall i :: 0 <= i < |xs| ==> r <= xs[i]
  {
    if |xs| == 1 then xs[0]
    else
      var m := Min(xs[1..]);
      if xs[0] <= m then xs[0] else m
  }

  /** The largest element (`Math.max(...xs)`). */
  function Max(xs: seq<real>): (r: real)
    requires |xs| > 0
    ensures r in xs
    ensures forall i :: 0 <= i < |xs| ==> xs[i] <= r
  {
    if |xs| == 1 then xs[0]
    else
      var m := Max(xs[1..]);
      if xs[0] >= m then xs[0] else m
  }

  function Xs(pts: seq<Point>): seq<real> {
    seq(|pts|, i requires 0 <= i < |pts| => pts[i].x)
  }

  function Ys(pts: seq<Point>): seq<real> {
    seq(|pts|, i requires 0 <= i < |pts| => pts[i].y)
  }

  /** The editor's bounding box of a point list; an empty list gives the
      zero box at the origin. */
  function BoundingBox(pts: seq<Point>): (r: Box)
    ensures r.width >= 0.0 && r.height >= 0.0
    ensures forall p :: p in pts ==> Inside(p, r)
    ensures |pts| > 0 ==>
      (exists i :: 0 <= i < |pts| && pts[i].x == r.x) &&
      (exists i :: 0 <= i < |pts| && pts[i].x == r.x + r.width) &&
      (exists i :: 0 <= i < |pts| && pts[i].y == r.y) &&
      (exists i :: 0 <= i < |pts| && pts[i].y == r.y + r.height)
    ensures |pts| == 0 ==> r == Box(0.0, 0.0, 0.0, 0.0)
  {
    if |pts| == 0 then Box(0.0, 0.0, 0.0, 0.0)
    else
      var minX, minY := Min(Xs(pts)), Min(Ys(pts));
      var maxX, maxY := Max(Xs(pts)), Max(Ys(pts));
      assert forall p :: p in pts ==> minX <= p.x <= maxX && minY <= p.y <= maxY by {
        forall p | p in pts ensures minX <= p.x <= maxX && minY <= p.y <= maxY {
          var i :| 0 <= i < |pts| && pts[i] == p;
          assert Xs(pts)[i] == p.x && Ys(pts)[i] == p.y;
        }
      }
      Box(minX, minY, maxX - minX, maxY - minY)
  }

  /** The bounding box of every joint of a pose. */
  function PoseBox(pose: Pose): (r: Box)
    ensures r.width >= 0.0 && r.height >= 0.0
    ensures forall j :: Inside(pose.Get(j), r)
  {
    var r := BoundingBox(pose.Values());
    assert forall j :: Inside(pose.Get(j), r) by {
      forall j ensures Inside(pose.Get(j), r) {
        ValuesCover(pose, j);
      }
    }
    r
  }

  /** The midpoint of a box (`getCenter`). */
  function Center(b: Box): (c: Point)
    ensures c.x - b.x == (b.x + b.width) - c.x
    ensures c.y - b.y == (b.y + b.height) - c.y
  {
    Point(b.x + b.width / 2.0, b.y + b.height / 2.0)
  }

  /** The centre of a box with non-negative size lies inside it. */
  lemma CenterInside(b: Box)
    requires b.width >= 0.0 && b.height >= 0.0
    ensures Inside(Center(b), b)
  {
  }

  /** The squared distance between two points; products are written with
      `Mul`, so that proofs about it can name each product. */
  function DistSq(p: Point, q: Point): (r: real)
    ensures r >= 0.0
    ensures r == 0.0 <==> p == q
  {
    var dx, dy := p.x - q.x, p.y - q.y;
    Square(dx);
    Square(dy);
    assert dx == 0.0 && dy == 0.0 ==> p == q;
    Mul(dx, dx) + Mul(dy, dy)
  }

  /** The dot product of two vectors. */
  function Dot(a: Point, b: Point): real {
    Mul(a.x, b.x) + Mul(a.y, b.y)
  }

  /** The cross product of two vectors; zero exactly when they are parallel. */
  function Cross(a: Point, b: Point): real {
    Mul(a.x, b.y) - Mul(a.y, b.x)
  }

  /** `sqrt` behaves as `Math.sqrt` on the non-negative reals. Real arithmetic
      has no square root of its own, so the host supplies one. */
  ghost predicate IsSqrt(sqrt: real -> real) {
    forall x :: x >= 0.0 ==> sqrt(x) >= 0.0 && sqrt(x) * sqrt(x) == x
  }

  /** The distance between two points, `Math.sqrt` of the sum of the
      squared coordinate differences. */
  function Dist(p: Point, q: Point, sqrt: real -> real): real {
    sqrt(DistSq(p, q))
  }

  /** Comparisons of a square root reduce to comparisons of squares. */
  lemma SqrtCompare(sqrt: real -> real, x: real, m: real)
    requires IsSqrt(sqrt)
    requires x >= 0.0 && m >= 0.0
    ensures sqrt(x) > m <==> x > m * m
    ensures sqrt(x) == 0.0 <==> x == 0.0
  {
    var s := sqrt(x);
    assert Mul(s, s) == x;
    if s > m {
      MulStrict(m, s, s);
      MulLe(m, s, m);
      MulComm(m, s);
    } else {
      MulLe(s, m, s);
      MulLe(s, m, m);
      MulComm(m, s);
    }
    assert Mul(m, m) == m * m;
    Square(s);
  }

  /** The square root of a square is the non-negative base. */
  lemma SqrtOfSquare(sqrt: real -> real, a: real)
    requires IsSqrt(sqrt) && a >= 0.0
    ensures sqrt(a * a) == a
  {
    SqrtCompare(sqrt, a * a, a);
    var s := sqrt(a * a);
    assert Mul(s, s) == Mul(a, a);
    if s < a {
      MulLe(s, a, s);
      MulStrict(s, a, a);
      MulComm(s, a);
    }
  }

  /** Two points whose squared distance is the square of `a` are `a` apart. */
  lemma DistOfSquare(sqrt: real -> real, p: Point, q: Point, a: real)
    requires IsSqrt(sqrt) && a >= 0.0 && DistSq(p, q) == a * a
    ensures Dist(p, q, sqrt) == a
  {
    SqrtOfSquare(sqrt, a);
  }
}
