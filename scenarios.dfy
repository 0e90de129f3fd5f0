/** Worked instances of the editor's behaviour on the built-in poses. */
module Scenarios {
  import opened Types
  import opened EditorGeometry
  import opened EditorTransforms
  import opened Editor
  import opened Constants
  import opened PoseLibrary
  import opened App
  import opened RealArith

  /** Applying the standing pose to a figure whose pelvis is at (100, 100)
      keeps the pelvis there and puts the head at (100, -60). */
  lemma ApplyStandingAt(target: Pose)
    requires target.Get(Pelvis) == Point(100.0, 100.0)
    ensures Applied(StandingPose, target).Get(Pelvis) == Point(100.0, 100.0)
    ensures Applied(StandingPose, target).Get(Head) == Point(100.0, -60.0)
  {
    DefaultPosesShape();
    AppliedPelvis(StandingPose, target, Head);
  }

  /** Dragging the pelvis of the standing pose to (30, 10) carries both
      hips with it and leaves every other joint where it was. */
  lemma DragStandingPelvis(sqrt: real -> real)
    ensures var r := DragPose(StandingPose, Pelvis, {}, Point(30.0, 10.0), sqrt);
      r.Get(Pelvis) == Point(30.0, 10.0) &&
      r.Get(LeftHip) == Point(5.0, 10.0) && r.Get(RightHip) == Point(55.0, 10.0) &&
      forall k :: k != Pelvis && k != LeftHip && k != RightHip ==> r.Get(k) == StandingPose.Get(k)
  {
    DragPelvisAt(StandingPose, sqrt);
  }

  lemma DragPelvisAt(pose: Pose, sqrt: real -> real)
    requires pose.Get(Pelvis) == Origin
    requires pose.Get(LeftHip) == Point(-25.0, 0.0) && pose.Get(RightHip) == Point(25.0, 0.0)
    ensures var r := DragPose(pose, Pelvis, {}, Point(30.0, 10.0), sqrt);
      r.Get(Pelvis) == Point(30.0, 10.0) &&
      r.Get(LeftHip) == Point(5.0, 10.0) && r.Get(RightHip) == Point(55.0, 10.0) &&
      forall k :: k != Pelvis && k != LeftHip && k != RightHip ==> r.Get(k) == pose.Get(k)
  {
    DragPelvisCarries(pose, {}, Point(30.0, 10.0), sqrt);
    forall k | k != Pelvis && k != LeftHip && k != RightHip
      ensures DragPose(pose, Pelvis, {}, Point(30.0, 10.0), sqrt).Get(k) == pose.Get(k)
    {
      DragKeepsUnaffected(pose, Pelvis, {}, Point(30.0, 10.0), sqrt, k);
    }
  }

  /** Dragging the head of the standing pose far above the neck leaves it
      40 above the neck, on the line to the pointer. */
  lemma DragStandingHeadClamped(sqrt: real -> real)
    requires IsSqrt(sqrt)
    ensures DragPose(StandingPose, Head, {}, Point(0.0, -300.0), sqrt).Get(Head) == Point(0.0, -160.0)
  {
    DragHeadAt(StandingPose, sqrt);
  }

  lemma DragHeadAt(pose: Pose, sqrt: real -> real)
    requires IsSqrt(sqrt) && pose.Get(Neck) == Point(0.0, -120.0)
    ensures DragPose(pose, Head, {}, Point(0.0, -300.0), sqrt).Get(Head) == Point(0.0, -160.0)
  {
    AffectedLone(Head, {});
    DragLoneTarget(pose, Head, {}, Point(0.0, -300.0), sqrt, Constraint(Neck, 40.0));
    ClampVertical(sqrt, Point(0.0, -120.0), Point(0.0, -300.0), 180.0, 40.0);
  }

  /** A point `a` straight above `center`, clamped to a smaller radius `m`,
      lands `m` straight above it. */
  lemma ClampVertical(sqrt: real -> real, center: Point, p: Point, a: real, m: real)
    requires IsSqrt(sqrt) && a > m >= 0.0 && p.x == center.x && p.y == center.y - a
    ensures Constrain(center, p, m, sqrt) == Point(center.x, center.y - m)
  {
    VerticalDist(sqrt, p, center, a);
    ConstrainUnfold(center, p, m, sqrt);
    DivCancel(m, a);
    MulComm(m / a, a);
    assert Mul(-a, m / a) == -Mul(a, m / a);
  }

  /** A point `a` straight above another is at distance `a` from it. */
  lemma VerticalDist(sqrt: real -> real, p: Point, q: Point, a: real)
    requires IsSqrt(sqrt) && a >= 0.0 && p.x == q.x && p.y == q.y - a
    ensures Dist(p, q, sqrt) == a
  {
    assert DistSq(p, q) == a * a;
    DistOfSquare(sqrt, p, q, a);
  }

  /** A rectangle around the top of the standing pose selects the head, the
      neck and both shoulders, and nothing else. */
  lemma SelectUpperBody()
    ensures JointsInBox(StandingPose, Point(-50.0, -170.0), Point(50.0, -100.0)) ==
            {Head, Neck, LeftShoulder, RightShoulder}
  {
    JointSetComplete();
  }

  /** A flat rectangle whose ends are exactly the two shoulders selects
      just the shoulders: the edges are inclusive. */
  lemma SelectShouldersOnEdge()
    ensures JointsInBox(StandingPose, Point(-40.0, -110.0), Point(40.0, -110.0)) ==
            {LeftShoulder, RightShoulder}
  {
    JointSetComplete();
  }

  /** With one figure on the canvas, the next figure gets the first palette
      colour. */
  lemma SecondFigureColor(id: Id)
    ensures PickColor([Figure(id, InitialPose, "black")]) == "#0891b2"
  {
    var figures := [Figure(id, InitialPose, "black")];
    PickColorFirstUnused(figures);
    assert UsedColors(figures) == {"black"};
  }

  /** A press and release at the same point on the empty canvas deselects
      the figure and leaves no joint selected. */
  method ClickOnCanvas(sqrt: real -> real, p: Point, figures: seq<Figure>, selected: Option<Id>)
    returns (selection: Selection, joints: set<JointName>)
    requires IsSqrt(sqrt)
    ensures selection == Select(None) && joints == {}
  {
    var editor := new StickFigureEditor(sqrt);
    var pressed := editor.MouseDown(p, Target(None, None, false, false), false, figures, selected);
    assert pressed == Keep;
    selection := editor.MouseUp(figures, selected);
    joints := editor.selectedJoints;
  }
}
