/** The pose transforms behind the editor's gestures: whole-figure
    translation, uniform scaling about a centre, the joint drag with its
    hierarchical dependents and anatomical distance constraints, and the
    rectangle selection test. */
module EditorTransforms {
  import opened Types
  import opened RealArith
  import opened EditorGeometry

  // ---------------------------------------------------------------------
  // Whole-figure move

  /** Every joint moved by `d`. */
  function Translate(pose: Pose, d: Point): Pose {
    Pose(
      pose.head.Plus(d), pose.neck.Plus(d), pose.waist.Plus(d), pose.pelvis.Plus(d),
      pose.leftShoulder.Plus(d), pose.rightShoulder.Plus(d), pose.leftElbow.Plus(d), pose.rightElbow.Plus(d),
      pose.leftHand.Plus(d), pose.rightHand.Plus(d), pose.leftHip.Plus(d), pose.rightHip.Plus(d),
      pose.leftKnee.Plus(d), pose.rightKnee.Plus(d), pose.leftAnkle.Plus(d), pose.rightAnkle.Plus(d))
  }

  lemma TranslateGet(pose: Pose, d: Point, j: JointName)
    ensures Translate(pose, d).Get(j) == pose.Get(j).Plus(d)
  {
  }

  /** Moving by the zero vector leaves the pose as it was. */
  lemma TranslateZero(pose: Pose)
    ensures Translate(pose, Origin) == pose
  {
    PoseExt(Translate(pose, Origin), pose);
  }

  /** Moving by `d` and then by `-d` restores the pose. */
  lemma TranslateInverse(pose: Pose, d: Point)
    ensures Translate(Translate(pose, d), Point(-d.x, -d.y)) == pose
  {
    PoseExt(Translate(Translate(pose, d), Point(-d.x, -d.y)), pose);
  }

  /** A translation is rigid: the vector between any two joints is kept. */
  lemma TranslateRigid(pose: Pose, d: Point, a: JointName, b: JointName)
    ensures Translate(pose, d).Get(a).Minus(Translate(pose, d).Get(b)) == pose.Get(a).Minus(pose.Get(b))
  {
    TranslateGet(pose, d, a);
    TranslateGet(pose, d, b);
  }

  // ---------------------------------------------------------------------
  // Uniform scaling

  /** Every joint moved to `c + (joint - c) * k`. */
  function ScaleAbout(pose: Pose, c: Point, k: real): Pose {
    Pose(
      ScalePoint(pose.head, c, k), ScalePoint(pose.neck, c, k), ScalePoint(pose.waist, c, k), ScalePoint(pose.pelvis, c, k),
      ScalePoint(pose.leftShoulder, c, k), ScalePoint(pose.rightShoulder, c, k), ScalePoint(pose.leftElbow, c, k), ScalePoint(pose.rightElbow, c, k),
      ScalePoint(pose.leftHand, c, k), ScalePoint(pose.rightHand, c, k), ScalePoint(pose.leftHip, c, k), ScalePoint(pose.rightHip, c, k),
      ScalePoint(pose.leftKnee, c, k), ScalePoint(pose.rightKnee, c, k), ScalePoint(pose.leftAnkle, c, k), ScalePoint(pose.rightAnkle, c, k))
  }

  /** `p` moved to `c + (p - c) * k`. */
  function ScalePoint(p: Point, c: Point, k: real): Point {
    c.Plus(p.Minus(c).Times(k))
  }

  lemma ScaleGet(pose: Pose, c: Point, k: real, j: JointName)
    ensures ScaleAbout(pose, c, k).Get(j) == c.Plus(pose.Get(j).Minus(c).Times(k))
  {
  }

  /** Scaling by 1 leaves the pose as it was. */
  lemma ScaleOne(pose: Pose, c: Point)
    ensures ScaleAbout(pose, c, 1.0) == pose
  {
    PoseExt(ScaleAbout(pose, c, 1.0), pose);
  }

  /** Two scalings about the same centre compose by multiplying factors. */
  lemma ScaleCompose(pose: Pose, c: Point, a: real, b: real)
    ensures ScaleAbout(ScaleAbout(pose, c, a), c, b) == ScaleAbout(pose, c, a * b)
  {
    forall j ensures ScaleAbout(ScaleAbout(pose, c, a), c, b).Get(j) == ScaleAbout(pose, c, a * b).Get(j) {
      ScalePointCompose(pose.Get(j), c, a, b);
    }
    PoseExt(ScaleAbout(ScaleAbout(pose, c, a), c, b), ScaleAbout(pose, c, a * b));
  }

  lemma ScalePointCompose(p: Point, c: Point, a: real, b: real)
    ensures c.Plus(c.Plus(p.Minus(c).Times(a)).Minus(c).Times(b)) == c.Plus(p.Minus(c).Times(a * b))
  {
    var v := p.Minus(c);
    assert c.Plus(v.Times(a)).Minus(c) == v.Times(a);
    MulAssoc(v.x, a, b);
    MulAssoc(v.y, a, b);
  }

  /** Scaling by a non-zero factor is undone by scaling by its reciprocal. */
  lemma ScaleInverse(pose: Pose, c: Point, k: real)
    requires k != 0.0
    ensures ScaleAbout(ScaleAbout(pose, c, k), c, 1.0 / k) == pose
  {
    var inv := 1.0 / k;
    assert k * inv == 1.0;
    ScaleCompose(pose, c, k, inv);
    ScaleOne(pose, c);
  }

  /** A joint at the centre stays at the centre. */
  lemma ScaleFixesCenter(pose: Pose, c: Point, k: real, j: JointName)
    requires pose.Get(j) == c
    ensures ScaleAbout(pose, c, k).Get(j) == c
  {
    ScaleGet(pose, c, k, j);
    assert c.Minus(c).Times(k) == Origin;
  }

  // ---------------------------------------------------------------------
  // Joint drag

  /** Joints carried along when `j` is dragged: the neck carries the head and
      both shoulders, the pelvis both hips. */
  function Dependents(j: JointName): set<JointName> {
    if j == Neck then {Head, LeftShoulder, RightShoulder}
    else if j == Pelvis then {LeftHip, RightHip}
    else {}
  }

  /** The joints a drag of `joint` moves: the whole multi-selection when it
      has more than one member and holds `joint`, otherwise `joint` alone,
      plus the dependents of `joint` in either case. */
  function Affected(joint: JointName, selected: set<JointName>): set<JointName> {
    (if |selected| > 1 && joint in selected then selected else {joint}) + Dependents(joint)
  }

  /** The dragged joint is always affected, and so are its dependents. */
  lemma AffectedContains(joint: JointName, selected: set<JointName>)
    ensures joint in Affected(joint, selected)
    ensures Dependents(joint) <= Affected(joint, selected)
    ensures |selected| > 1 && joint in selected ==> selected <= Affected(joint, selected)
  {
  }

  /** Exactly one joint is affected precisely when the drag is neither a group
      drag nor a drag of the neck or the pelvis; that joint is the dragged one. */
  lemma AffectedLone(joint: JointName, selected: set<JointName>)
    ensures |Affected(joint, selected)| == 1 <==>
      !(|selected| > 1 && joint in selected) && joint != Neck && joint != Pelvis
    ensures |Affected(joint, selected)| == 1 ==> Affected(joint, selected) == {joint}
  {
    var a := Affected(joint, selected);
    if |selected| > 1 && joint in selected {
      assert selected <= a;
      SubsetCard(selected, a);
    } else if joint == Neck {
      assert {Neck, Head} <= a;
      SubsetCard({Neck, Head}, a);
    } else if joint == Pelvis {
      assert {Pelvis, LeftHip} <= a;
      SubsetCard({Pelvis, LeftHip}, a);
    } else {
      assert a == {joint};
    }
  }

  lemma {:induction false} SubsetCard<T>(a: set<T>, b: set<T>)
    requires a <= b
    ensures |a| <= |b|
  {
    if a != {} {
      var x :| x in a;
      SubsetCard(a - {x}, b - {x});
    }
  }

  /** Every joint in `moved` shifted by `delta`; the rest as in `pose`. */
  function ShiftSet(pose: Pose, moved: set<JointName>, delta: Point): Pose {
    Pose(
      ShiftIf(Head, moved, pose.head, delta), ShiftIf(Neck, moved, pose.neck, delta), ShiftIf(Waist, moved, pose.waist, delta), ShiftIf(Pelvis, moved, pose.pelvis, delta),
      ShiftIf(LeftShoulder, moved, pose.leftShoulder, delta), ShiftIf(RightShoulder, moved, pose.rightShoulder, delta), ShiftIf(LeftElbow, moved, pose.leftElbow, delta), ShiftIf(RightElbow, moved, pose.rightElbow, delta),
      ShiftIf(LeftHand, moved, pose.leftHand, delta), ShiftIf(RightHand, moved, pose.rightHand, delta), ShiftIf(LeftHip, moved, pose.leftHip, delta), ShiftIf(RightHip, moved, pose.rightHip, delta),
      ShiftIf(LeftKnee, moved, pose.leftKnee, delta), ShiftIf(RightKnee, moved, pose.rightKnee, delta), ShiftIf(LeftAnkle, moved, pose.leftAnkle, delta), ShiftIf(RightAnkle, moved, pose.rightAnkle, delta))
  }

  /** `p`, the point of joint `j`, shifted by `delta` if `j` is moved. */
  function ShiftIf(j: JointName, moved: set<JointName>, p: Point, delta: Point): Point {
    if j in moved then p.Plus(delta) else p
  }

  /** The anatomical distance limit of a joint: its parent and radius. */
  datatype Constraint = Constraint(parent: JointName, radius: real)

  /** The head stays within 40 of the neck, either shoulder within 50 of the
      neck, either hip within 30 of the pelvis; other joints are free. */
  function ConstraintOf(j: JointName): Option<Constraint> {
    match j
    case Head => Some(Constraint(Neck, 40.0))
    case LeftShoulder => Some(Constraint(Neck, 50.0))
    case RightShoulder => Some(Constraint(Neck, 50.0))
    case LeftHip => Some(Constraint(Pelvis, 30.0))
    case RightHip => Some(Constraint(Pelvis, 30.0))
    case _ => None
  }

  /** The constraint table is well formed: positive radii, and a parent that
      is neither the joint itself nor constrained in turn. */
  lemma ConstraintTable(j: JointName)
    ensures ConstraintOf(j).Some? ==>
      var c := ConstraintOf(j).value;
      c.radius > 0.0 && c.parent != j && ConstraintOf(c.parent).None?
  {
  }

  /** `point` pulled along the ray from `center` to lie within `maxDist` of
      `center`; unchanged when it already does (the inner `constrain`). */
  function Constrain(center: Point, point: Point, maxDist: real, sqrt: real -> real): Point
    requires maxDist >= 0.0
  {
    var vecX := point.x - center.x;
    var vecY := point.y - center.y;
    var dist := Dist(point, center, sqrt);
    if dist > maxDist then
      Point(center.x + (vecX / dist) * maxDist, center.y + (vecY / dist) * maxDist)
    else point
  }

  /** `Constrain` keeps its result within the radius, returns a point already
      within the radius unchanged, puts a point beyond the radius exactly on
      the circle of that radius, and keeps the result on the ray from the
      centre through the point (parallel to it and never behind the centre). */
  lemma ConstrainSpec(center: Point, point: Point, maxDist: real, sqrt: real -> real)
    requires IsSqrt(sqrt) && maxDist >= 0.0
    ensures var r := Constrain(center, point, maxDist, sqrt);
      DistSq(r, center) <= maxDist * maxDist &&
      (DistSq(point, center) <= maxDist * maxDist ==> r == point) &&
      (DistSq(point, center) > maxDist * maxDist ==> DistSq(r, center) == maxDist * maxDist) &&
      Cross(r.Minus(center), point.Minus(center)) == 0.0 &&
      Dot(r.Minus(center), point.Minus(center)) >= 0.0
  {
    var v := point.Minus(center);
    var d2 := DistSq(point, center);
    var dist := Dist(point, center, sqrt);
    ConstrainUnfold(center, point, maxDist, sqrt);
    SqrtCompare(sqrt, d2, maxDist);
    assert Mul(maxDist, maxDist) == maxDist * maxDist;
    if dist > maxDist {
      var w := Point(Mul(v.x, maxDist / dist), Mul(v.y, maxDist / dist));
      assert Mul(dist, dist) == d2;
      ClampBranch(v, dist, maxDist);
      assert center.Plus(w).Minus(center) == w;
      assert DistSq(center.Plus(w), center) == Dot(w, w);
    } else {
      KeepBranch(v);
    }
  }

  /** `Constrain` with its products named: the clamped point is the centre
      plus the vector to `point` rescaled by `maxDist / dist`. */
  lemma ConstrainUnfold(center: Point, point: Point, maxDist: real, sqrt: real -> real)
    requires maxDist >= 0.0
    ensures var v := point.Minus(center);
      var dist := Dist(point, center, sqrt);
      Constrain(center, point, maxDist, sqrt) ==
        if dist > maxDist then center.Plus(Point(Mul(v.x, maxDist / dist), Mul(v.y, maxDist / dist)))
        else point
  {
    var v := point.Minus(center);
    var dist := Dist(point, center, sqrt);
    if dist > maxDist {
      DivMul(v.x, dist, maxDist);
      DivMul(v.y, dist, maxDist);
    }
  }

  /** A vector is parallel to itself and has a non-negative square. */
  lemma KeepBranch(v: Point)
    ensures Cross(v, v) == 0.0 && Dot(v, v) >= 0.0
  {
    Square(v.x);
    Square(v.y);
    MulComm(v.x, v.y);
  }

  /** The arithmetic of the clamping branch: a vector `v` of length `dist`,
      rescaled by `m / dist`, has length `m`, stays parallel to `v` and
      points the same way. */
  lemma ClampBranch(v: Point, dist: real, m: real)
    requires dist > m >= 0.0 && Mul(dist, dist) == Dot(v, v)
    ensures var w := Point(Mul(v.x, m / dist), Mul(v.y, m / dist));
      Dot(w, w) == Mul(m, m) && Cross(w, v) == 0.0 && Dot(w, v) >= 0.0
  {
    var vx, vy, u := v.x, v.y, m / dist;
    DivCancel(m, dist);
    SquareOfProduct(vx, u);
    SquareOfProduct(vy, u);
    MulDistrib(Mul(vx, vx), Mul(vy, vy), Mul(u, u));
    SquareOfProduct(dist, u);
    MulComm(dist, u);
    MulSwap(vx, vy, u);
    MulRight(vx, u, vx);
    MulRight(vy, u, vy);
    MulDistrib(Mul(vx, vx), Mul(vy, vy), u);
    Square(vx);
    Square(vy);
    MulLe(0.0, Mul(vx, vx) + Mul(vy, vy), u);
  }

  /** The clamp pass of a lone drag: the joint pulled back within the
      radius of its parent, if it has a constraint. */
  function ConstrainJoint(pose: Pose, j: JointName, sqrt: real -> real): Pose {
    match ConstraintOf(j)
    case None => pose
    case Some(c) => pose.Set(j, Constrain(pose.Get(c.parent), pose.Get(j), c.radius, sqrt))
  }

  /** The pose after dragging `joint` of `initial` to the pointer `p`. */
  function DragPose(initial: Pose, joint: JointName, selected: set<JointName>, p: Point, sqrt: real -> real): Pose {
    var affected := Affected(joint, selected);
    var moved := ShiftSet(initial, affected, p.Minus(initial.Get(joint)));
    if |affected| == 1 then ConstrainJoint(moved, joint, sqrt) else moved
  }

  /** Joints outside the affected set keep their snapshot positions. */
  lemma DragKeepsUnaffected(initial: Pose, joint: JointName, selected: set<JointName>, p: Point, sqrt: real -> real, k: JointName)
    requires k !in Affected(joint, selected)
    ensures DragPose(initial, joint, selected, p, sqrt).Get(k) == initial.Get(k)
  {
    AffectedContains(joint, selected);
    if |Affected(joint, selected)| == 1 {
      ConstraintTable(joint);
    }
  }

  /** When more than one joint is affected, they all move rigidly by the
      dragged joint's displacement and no clamping happens. */
  lemma DragGroupRigid(initial: Pose, joint: JointName, selected: set<JointName>, p: Point, sqrt: real -> real, k: JointName)
    requires |Affected(joint, selected)| > 1 && k in Affected(joint, selected)
    ensures DragPose(initial, joint, selected, p, sqrt).Get(k) == initial.Get(k).Plus(p.Minus(initial.Get(joint)))
  {
  }

  /** A lone drag of an unconstrained joint puts it exactly on the pointer. */
  lemma DragLoneFree(initial: Pose, joint: JointName, selected: set<JointName>, p: Point, sqrt: real -> real)
    requires |Affected(joint, selected)| == 1 && ConstraintOf(joint).None?
    ensures DragPose(initial, joint, selected, p, sqrt).Get(joint) == p
  {
    AffectedContains(joint, selected);
  }

  /** A lone drag of a constrained joint leaves its parent in place, keeps
      the joint within the radius of the parent, puts it exactly on the
      pointer when the pointer is within that radius, and exactly on the
      circle of that radius when the pointer is beyond it. */
  lemma DragLoneClamped(initial: Pose, joint: JointName, selected: set<JointName>, p: Point, sqrt: real -> real, c: Constraint)
    requires IsSqrt(sqrt)
    requires |Affected(joint, selected)| == 1 && ConstraintOf(joint) == Some(c)
    ensures var r := DragPose(initial, joint, selected, p, sqrt);
      r.Get(c.parent) == initial.Get(c.parent) &&
      DistSq(r.Get(joint), r.Get(c.parent)) <= c.radius * c.radius &&
      (DistSq(p, initial.Get(c.parent)) <= c.radius * c.radius ==> r.Get(joint) == p) &&
      (DistSq(p, initial.Get(c.parent)) > c.radius * c.radius ==>
         DistSq(r.Get(joint), r.Get(c.parent)) == c.radius * c.radius)
  {
    DragLoneShape(initial, joint, selected, p, sqrt);
    ClampJointSpec(initial, joint, p, sqrt, c);
  }

  /** A lone drag of a constrained joint puts it where `Constrain` sends the
      pointer, about the parent's snapshot position. */
  lemma DragLoneTarget(initial: Pose, joint: JointName, selected: set<JointName>, p: Point, sqrt: real -> real, c: Constraint)
    requires |Affected(joint, selected)| == 1 && ConstraintOf(joint) == Some(c)
    ensures c.radius > 0.0 &&
      DragPose(initial, joint, selected, p, sqrt).Get(joint) == Constrain(initial.Get(c.parent), p, c.radius, sqrt)
  {
    DragLoneShape(initial, joint, selected, p, sqrt);
    ConstraintTable(joint);
    SetGet(initial, joint, p, c.parent);
  }

  /** Moving a constrained joint onto `p` and clamping it leaves its parent
      in place and the joint within the radius: on `p` if `p` is within it,
      and at exactly the radius otherwise. */
  lemma ClampJointSpec(initial: Pose, joint: JointName, p: Point, sqrt: real -> real, c: Constraint)
    requires IsSqrt(sqrt) && ConstraintOf(joint) == Some(c)
    ensures var r := ConstrainJoint(initial.Set(joint, p), joint, sqrt);
      r.Get(c.parent) == initial.Get(c.parent) &&
      DistSq(r.Get(joint), r.Get(c.parent)) <= c.radius * c.radius &&
      (DistSq(p, initial.Get(c.parent)) <= c.radius * c.radius ==> r.Get(joint) == p) &&
      (DistSq(p, initial.Get(c.parent)) > c.radius * c.radius ==>
         DistSq(r.Get(joint), r.Get(c.parent)) == c.radius * c.radius)
  {
    ConstraintTable(joint);
    var q := Constrain(initial.Get(c.parent), p, c.radius, sqrt);
    SetGet(initial, joint, p, c.parent);
    SetSet(initial, joint, p, q);
    ConstrainWithin(initial.Get(c.parent), p, c.radius, sqrt);
  }

  lemma SetGet(pose: Pose, j: JointName, p: Point, k: JointName)
    requires k != j
    ensures pose.Set(j, p).Get(k) == pose.Get(k)
  {
  }

  lemma SetSet(pose: Pose, j: JointName, p: Point, q: Point)
    ensures pose.Set(j, p).Set(j, q) == pose.Set(j, q)
  {
    PoseExt(pose.Set(j, p).Set(j, q), pose.Set(j, q));
  }

  /** The distance part of `ConstrainSpec`. */
  lemma ConstrainWithin(center: Point, point: Point, maxDist: real, sqrt: real -> real)
    requires IsSqrt(sqrt) && maxDist >= 0.0
    ensures DistSq(Constrain(center, point, maxDist, sqrt), center) <= maxDist * maxDist
    ensures DistSq(point, center) <= maxDist * maxDist ==> Constrain(center, point, maxDist, sqrt) == point
    ensures DistSq(point, center) > maxDist * maxDist ==>
      DistSq(Constrain(center, point, maxDist, sqrt), center) == maxDist * maxDist
  {
    ConstrainSpec(center, point, maxDist, sqrt);
  }

  /** A lone drag moves the dragged joint onto the pointer and then applies
      its constraint. */
  lemma DragLoneShape(initial: Pose, joint: JointName, selected: set<JointName>, p: Point, sqrt: real -> real)
    requires |Affected(joint, selected)| == 1
    ensures DragPose(initial, joint, selected, p, sqrt) == ConstrainJoint(initial.Set(joint, p), joint, sqrt)
  {
    AffectedLone(joint, selected);
    ShiftOne(initial, joint, p);
  }

  /** Shifting the dragged joint alone by its offset to the pointer puts it
      on the pointer. */
  lemma ShiftOne(initial: Pose, joint: JointName, p: Point)
    ensures ShiftSet(initial, {joint}, p.Minus(initial.Get(joint))) == initial.Set(joint, p)
  {
    var shifted := ShiftSet(initial, {joint}, p.Minus(initial.Get(joint)));
    forall k ensures shifted.Get(k) == initial.Set(joint, p).Get(k) {
      ShiftSetGet(initial, {joint}, p.Minus(initial.Get(joint)), k);
      assert initial.Get(joint).Plus(p.Minus(initial.Get(joint))) == p;
    }
    PoseExt(shifted, initial.Set(joint, p));
  }

  lemma ShiftSetGet(pose: Pose, moved: set<JointName>, delta: Point, k: JointName)
    ensures ShiftSet(pose, moved, delta).Get(k) == if k in moved then pose.Get(k).Plus(delta) else pose.Get(k)
  {
  }

  /** Dragging the neck carries the head and both shoulders by the same
      displacement, with or without a multi-selection. */
  lemma DragNeckCarries(initial: Pose, selected: set<JointName>, p: Point, sqrt: real -> real)
    ensures var r := DragPose(initial, Neck, selected, p, sqrt);
      var delta := p.Minus(initial.Get(Neck));
      r.Get(Neck) == p &&
      r.Get(Head) == initial.Get(Head).Plus(delta) &&
      r.Get(LeftShoulder) == initial.Get(LeftShoulder).Plus(delta) &&
      r.Get(RightShoulder) == initial.Get(RightShoulder).Plus(delta)
  {
    AffectedLone(Neck, selected);
    AffectedContains(Neck, selected);
  }

  /** Dragging the pelvis carries both hips by the same displacement, with or
      without a multi-selection. */
  lemma DragPelvisCarries(initial: Pose, selected: set<JointName>, p: Point, sqrt: real -> real)
    ensures var r := DragPose(initial, Pelvis, selected, p, sqrt);
      var delta := p.Minus(initial.Get(Pelvis));
      r.Get(Pelvis) == p &&
      r.Get(LeftHip) == initial.Get(LeftHip).Plus(delta) &&
      r.Get(RightHip) == initial.Get(RightHip).Plus(delta)
  {
    AffectedLone(Pelvis, selected);
    AffectedContains(Pelvis, selected);
  }

  // ---------------------------------------------------------------------
  // Rectangle selection

  function MinR(a: real, b: real): real { if a <= b then a else b }
  function MaxR(a: real, b: real): real { if a >= b then a else b }

  /** The joints of `pose` inside the rectangle spanned by `start` and
      `current`, edges included. */
  function JointsInBox(pose: Pose, start: Point, current: Point): set<JointName> {
    var x1, y1 := MinR(start.x, current.x), MinR(start.y, current.y);
    var x2, y2 := MaxR(start.x, current.x), MaxR(start.y, current.y);
    set j | j in JointSet && x1 <= pose.Get(j).x <= x2 && y1 <= pose.Get(j).y <= y2
  }

  /** The rectangle drawn while selecting: from the smaller corner
      coordinates, with the absolute extents as its size. */
  function SelectionRect(start: Point, current: Point): Box {
    Box(MinR(start.x, current.x), MinR(start.y, current.y),
        if start.x >= current.x then start.x - current.x else current.x - start.x,
        if start.y >= current.y then start.y - current.y else current.y - start.y)
  }

  /** A joint is selected exactly when it lies inside the drawn rectangle,
      edges included. */
  lemma JointsInBoxSpec(pose: Pose, start: Point, current: Point, j: JointName)
    ensures j in JointsInBox(pose, start, current) <==>
      Inside(pose.Get(j), SelectionRect(start, current))
  {
    JointSetComplete();
  }

  /** The drawn rectangle spans exactly from the smaller to the larger
      coordinate of its two corners, so both corners lie on it. */
  lemma SelectionRectCorners(start: Point, current: Point)
    ensures var r := SelectionRect(start, current);
      r.width >= 0.0 && r.height >= 0.0 &&
      r.x == MinR(start.x, current.x) && r.x + r.width == MaxR(start.x, current.x) &&
      r.y == MinR(start.y, current.y) && r.y + r.height == MaxR(start.y, current.y) &&
      Inside(start, r) && Inside(current, r)
  {
  }

  /** Swapping the corners of the rectangle selects the same joints. */
  lemma JointsInBoxSymmetric(pose: Pose, start: Point, current: Point)
    ensures JointsInBox(pose, start, current) == JointsInBox(pose, current, start)
  {
  }
}
