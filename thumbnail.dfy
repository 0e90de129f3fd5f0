/** The framing of a pose in a library thumbnail: the bounding box widened
    to a minimum size about its own centre, then padded on every side. */
module Thumbnail {
  import opened Types
  import opened EditorGeometry

  /** The smallest width or height of a thumbnail box. */
  const MinDimension := 20.0

  /** The margin around a thumbnail box. */
  const Padding := 40.0

  /** The thumbnail's box of a point list (`calculateBoundingBox` of the
      thumbnail). The box is at least `MinDimension` in each direction and
      grows symmetrically, so it keeps the centre of the plain bounding box:
      a shorter axis becomes exactly `MinDimension` long, and an axis already
      long enough keeps its exact extent. An empty list
      gives the box (0, 0, 100, 100). */
  function ThumbnailBox(pts: seq<Point>): (r: Box)
    ensures r.width >= MinDimension && r.height >= MinDimension
    ensures |pts| == 0 ==> r == Box(0.0, 0.0, 100.0, 100.0)
    ensures |pts| > 0 ==>
      var raw := BoundingBox(pts);
      Center(r) == Center(raw) &&
      (raw.width >= MinDimension ==> r.x == raw.x && r.width == raw.width) &&
      (raw.width < MinDimension ==> r.width == MinDimension) &&
      (raw.height >= MinDimension ==> r.y == raw.y && r.height == raw.height) &&
      (raw.height < MinDimension ==> r.height == MinDimension) &&
      forall p :: p in pts ==> Inside(p, r)
  {
    if |pts| == 0 then Box(0.0, 0.0, 100.0, 100.0)
    else
      var minX, minY := Min(Xs(pts)), Min(Ys(pts));
      var maxX, maxY := Max(Xs(pts)), Max(Ys(pts));
      var width, height := maxX - minX, maxY - minY;
      var x, w :=
        if width < MinDimension then minX - (MinDimension - width) / 2.0 else minX,
        if width < MinDimension then MinDimension else width;
      var y, h :=
        if height < MinDimension then minY - (MinDimension - height) / 2.0 else minY,
        if height < MinDimension then MinDimension else height;
      assert BoundingBox(pts) == Box(minX, minY, width, height);
      Box(x, y, w, h)
  }

  /** The thumbnail's SVG viewBox: the pose's thumbnail box with `Padding`
      added on every side, so every joint lies at least `Padding` inside
      each edge. */
  function ThumbnailViewBox(pose: Pose): (r: Box)
    ensures var b := ThumbnailBox(pose.Values());
      r.x == b.x - Padding && r.y == b.y - Padding &&
      r.width == b.width + 2.0 * Padding && r.height == b.height + 2.0 * Padding
    ensures r.width >= MinDimension + 2.0 * Padding && r.height >= MinDimension + 2.0 * Padding
    ensures forall j :: r.x + Padding <= pose.Get(j).x <= r.x + r.width - Padding &&
                        r.y + Padding <= pose.Get(j).y <= r.y + r.height - Padding
  {
    var box := ThumbnailBox(pose.Values());
    assert forall j :: Inside(pose.Get(j), box) by {
      forall j ensures Inside(pose.Get(j), box) {
        ValuesCover(pose, j);
      }
    }
    Box(box.x - Padding, box.y - Padding, box.width + Padding * 2.0, box.height + Padding * 2.0)
  }
}
