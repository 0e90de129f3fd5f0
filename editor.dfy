/** The canvas editor's gesture state machine. A press picks a gesture by
    what lies under the pointer and snapshots the pose; each move derives a
    new pose from that snapshot and reports it to the parent; a release
    (or the pointer leaving the canvas) finishes a rectangle selection or a
    click on empty canvas and ends every gesture.

    Pointer positions arrive already in logical canvas units. The parent's
    callbacks `onSelectFigure` and `onPoseChange` become return values. */
module Editor {
  import opened Types
  import opened RealArith
  import opened EditorGeometry
  import opened EditorTransforms

  /** The `data-*` attributes of the SVG element under the pointer. */
  datatype Target = Target(joint: Option<JointName>, figureId: Option<Id>, scaleHandle: bool, moveHandle: bool)

  /** What a handler asks of `onSelectFigure`: nothing, or a new selection. */
  datatype Selection = Keep | Select(id: Option<Id>)

  /** A call of `onPoseChange`. */
  datatype PoseChange = PoseChange(figureId: Id, pose: Pose)

  datatype DragInfo = DragInfo(figureId: Id, joint: JointName, initialPose: Pose)
  datatype SelectionBox = SelectionBox(start: Point, current: Point)
  datatype ScaleInfo = ScaleInfo(figureId: Id, startPose: Pose, center: Point, startPoint: Point)
  datatype MoveInfo = MoveInfo(figureId: Id, startPose: Pose, startPoint: Point)

  // ---------------------------------------------------------------------
  // The loops that build a new pose from a snapshot

  /** The `for…in` loop of a whole-figure move: every joint of the
      snapshot shifted by `d`. */
  method TranslatePose(startPose: Pose, d: Point) returns (newPose: Pose)
    ensures newPose == Translate(startPose, d)
  {
    newPose := startPose;
    for i := 0 to |AllJoints|
      invariant forall j :: newPose.Get(j) ==
                              if j in AllJoints[..i] then startPose.Get(j).Plus(d) else startPose.Get(j)
    {
      var j := AllJoints[i];
      newPose := newPose.Set(j, Point(startPose.Get(j).x + d.x, startPose.Get(j).y + d.y));
      assert AllJoints[..i + 1] == AllJoints[..i] + [j];
    }
    AllJointsComplete();
    assert AllJoints[..|AllJoints|] == AllJoints;
    forall j ensures newPose.Get(j) == Translate(startPose, d).Get(j) {
      TranslateGet(startPose, d, j);
    }
    PoseExt(newPose, Translate(startPose, d));
  }

  /** The `for…in` loop of a scale gesture: every joint of the snapshot
      moved to `center + (joint - center) * k`. */
  method ScalePose(startPose: Pose, center: Point, k: real) returns (newPose: Pose)
    ensures newPose == ScaleAbout(startPose, center, k)
  {
    newPose := startPose;
    for i := 0 to |AllJoints|
      invariant forall j :: newPose.Get(j) ==
                              if j in AllJoints[..i] then center.Plus(startPose.Get(j).Minus(center).Times(k)) else startPose.Get(j)
    {
      var j := AllJoints[i];
      var vecX := startPose.Get(j).x - center.x;
      var vecY := startPose.Get(j).y - center.y;
      assert Point(center.x + vecX * k, center.y + vecY * k) == center.Plus(startPose.Get(j).Minus(center).Times(k));
      newPose := newPose.Set(j, Point(center.x + vecX * k, center.y + vecY * k));
      assert AllJoints[..i + 1] == AllJoints[..i] + [j];
    }
    AllJointsComplete();
    assert AllJoints[..|AllJoints|] == AllJoints;
    forall j ensures newPose.Get(j) == ScaleAbout(startPose, center, k).Get(j) {
      ScaleGet(startPose, center, k, j);
    }
    PoseExt(newPose, ScaleAbout(startPose, center, k));
  }

  /** The `forEach` of a joint drag: every joint to update shifted by
      `delta` from the snapshot, the rest as in the snapshot. */
  method ShiftJoints(initialPose: Pose, jointsToUpdate: set<JointName>, delta: Point) returns (newPose: Pose)
    ensures newPose == ShiftSet(initialPose, jointsToUpdate, delta)
  {
    newPose := initialPose;
    var remaining := jointsToUpdate;
    while remaining != {}
      invariant remaining <= jointsToUpdate
      invariant forall j :: newPose.Get(j) ==
                              if j in jointsToUpdate && j !in remaining then initialPose.Get(j).Plus(delta) else initialPose.Get(j)
      decreases |remaining|
    {
      var j :| j in remaining;
      newPose := newPose.Set(j, Point(initialPose.Get(j).x + delta.x, initialPose.Get(j).y + delta.y));
      remaining := remaining - {j};
    }
    forall j ensures newPose.Get(j) == ShiftSet(initialPose, jointsToUpdate, delta).Get(j) {
      ShiftSetGet(initialPose, jointsToUpdate, delta, j);
    }
    PoseExt(newPose, ShiftSet(initialPose, jointsToUpdate, delta));
  }

  /** The joint-drag branch of a move: the joints to update are collected,
      shifted by the dragged joint's offset to the pointer, and a lone
      head, shoulder or hip is clamped to its radius. */
  method DragJoints(info: DragInfo, selectedJoints: set<JointName>, coords: Point, sqrt: real -> real)
    returns (newPose: Pose)
    ensures newPose == DragPose(info.initialPose, info.joint, selectedJoints, coords, sqrt)
  {
    var primaryJoint := info.joint;
    var originalJointPos := info.initialPose.Get(primaryJoint);
    var dx := coords.x - originalJointPos.x;
    var dy := coords.y - originalJointPos.y;
    var jointsToUpdate :=
      if |selectedJoints| > 1 && primaryJoint in selectedJoints then selectedJoints else {primaryJoint};
    if primaryJoint == Neck {
      jointsToUpdate := jointsToUpdate + {Head, LeftShoulder, RightShoulder};
    }
    if primaryJoint == Pelvis {
      jointsToUpdate := jointsToUpdate + {LeftHip, RightHip};
    }
    assert jointsToUpdate == Affected(primaryJoint, selectedJoints);
    assert Point(dx, dy) == coords.Minus(originalJointPos);
    newPose := ShiftJoints(info.initialPose, jointsToUpdate, Point(dx, dy));
    if |jointsToUpdate| == 1 {
      AffectedLone(primaryJoint, selectedJoints);
      var movedJoint :| movedJoint in jointsToUpdate;
      assert movedJoint == primaryJoint;
      newPose := ClampMoved(newPose, movedJoint, sqrt);
    }
  }

  /** The clamp of a lone drag: a moved head, shoulder or hip pulled back
      within the radius of its parent. */
  method ClampMoved(pose: Pose, movedJoint: JointName, sqrt: real -> real) returns (newPose: Pose)
    ensures newPose == ConstrainJoint(pose, movedJoint, sqrt)
  {
    newPose := pose;
    if movedJoint == Head {
      newPose := newPose.Set(Head, Constrain(newPose.Get(Neck), newPose.Get(Head), 40.0, sqrt));
    } else if movedJoint == LeftShoulder || movedJoint == RightShoulder {
      newPose := newPose.Set(movedJoint, Constrain(newPose.Get(Neck), newPose.Get(movedJoint), 50.0, sqrt));
    } else if movedJoint == LeftHip || movedJoint == RightHip {
      newPose := newPose.Set(movedJoint, Constrain(newPose.Get(Pelvis), newPose.Get(movedJoint), 30.0, sqrt));
    }
  }

  // ---------------------------------------------------------------------
  // The editor component

  /** The editor's interaction state: the five state slots of the
      component, and the host's square root. */
  class StickFigureEditor {
    var draggingInfo: Option<DragInfo>
    var selectedJoints: set<JointName>
    var selectionBox: Option<SelectionBox>
    var scalingInfo: Option<ScaleInfo>
    var movingInfo: Option<MoveInfo>
    /** `Math.sqrt`. */
    const sqrt: real -> real

    /** No gesture is in progress. */
    predicate Idle()
      reads this
    {
      draggingInfo.None? && selectionBox.None? && scalingInfo.None? && movingInfo.None?
    }

    /** At most one gesture slot is set. */
    predicate AtMostOneGesture()
      reads this
    {
      (if draggingInfo.Some? then 1 else 0) + (if selectionBox.Some? then 1 else 0) +
      (if scalingInfo.Some? then 1 else 0) + (if movingInfo.Some? then 1 else 0) <= 1
    }

    /** A freshly mounted editor: no gesture and no selected joints. */
    constructor(s: real -> real)
      ensures Idle() && selectedJoints == {} && sqrt == s
    {
      draggingInfo := None;
      selectedJoints := {};
      selectionBox := None;
      scalingInfo := None;
      movingInfo := None;
      sqrt := s;
    }

    /** A press at `coords` on `target`. The first matching case wins: the
        move handle of a selected figure, a joint, the scale handle of a
        selected figure, a figure's body, the empty canvas. */
    method MouseDown(coords: Point, target: Target, shiftKey: bool, figures: seq<Figure>, selectedFigureId: Option<Id>)
      returns (selection: Selection)
      modifies this
      // move handle: snapshot the selected figure
      ensures target.moveHandle && selectedFigureId.Some? ==>
        var found := Find(figures, selectedFigureId.value);
        selection == Keep && selectedJoints == old(selectedJoints) &&
        draggingInfo == old(draggingInfo) && selectionBox == old(selectionBox) && scalingInfo == old(scalingInfo) &&
        movingInfo == (if found.Some? then Some(MoveInfo(selectedFigureId.value, found.value.pose, coords)) else old(movingInfo))
      // joint: select its figure, update the joint selection, snapshot for a drag
      ensures !(target.moveHandle && selectedFigureId.Some?) && target.joint.Some? && target.figureId.Some? ==>
        var j, id := target.joint.value, target.figureId.value;
        var found := Find(figures, id);
        selection == Select(Some(id)) &&
        selectionBox == old(selectionBox) && scalingInfo == old(scalingInfo) && movingInfo == old(movingInfo) &&
        (found.None? ==> selectedJoints == old(selectedJoints) && draggingInfo == old(draggingInfo)) &&
        (found.Some? ==>
          draggingInfo == Some(DragInfo(id, j, found.value.pose)) &&
          (shiftKey ==> (j in selectedJoints <==> j !in old(selectedJoints)) &&
                        selectedJoints - {j} == old(selectedJoints) - {j}) &&
          (!shiftKey ==> selectedJoints == if j in old(selectedJoints) then old(selectedJoints) else {j}))
      // scale handle: snapshot the selected figure and its bounding-box centre
      ensures !(target.moveHandle && selectedFigureId.Some?) && !(target.joint.Some? && target.figureId.Some?) &&
              target.scaleHandle && selectedFigureId.Some? ==>
        var found := Find(figures, selectedFigureId.value);
        selection == Keep && selectedJoints == old(selectedJoints) &&
        draggingInfo == old(draggingInfo) && selectionBox == old(selectionBox) && movingInfo == old(movingInfo) &&
        scalingInfo == (if found.Some?
                        then Some(ScaleInfo(selectedFigureId.value, found.value.pose, Center(PoseBox(found.value.pose)), coords))
                        else old(scalingInfo))
      // body: select the figure (clearing the joint selection) if it is not selected
      ensures !(target.moveHandle && selectedFigureId.Some?) && !(target.joint.Some? && target.figureId.Some?) &&
              !(target.scaleHandle && selectedFigureId.Some?) && target.figureId.Some? ==>
        draggingInfo == old(draggingInfo) && selectionBox == old(selectionBox) &&
        scalingInfo == old(scalingInfo) && movingInfo == old(movingInfo) &&
        (selectedFigureId == target.figureId ==> selection == Keep && selectedJoints == old(selectedJoints)) &&
        (selectedFigureId != target.figureId ==> selection == Select(target.figureId) && selectedJoints == {})
      // empty canvas: clear the joint selection and start a rectangle
      ensures !(target.moveHandle && selectedFigureId.Some?) && !(target.joint.Some? && target.figureId.Some?) &&
              !(target.scaleHandle && selectedFigureId.Some?) && target.figureId.None? ==>
        selection == Keep && selectedJoints == {} && selectionBox == Some(SelectionBox(coords, coords)) &&
        draggingInfo == old(draggingInfo) && scalingInfo == old(scalingInfo) && movingInfo == old(movingInfo)
      ensures old(Idle()) ==> AtMostOneGesture()
    {
      selection := Keep;
      if target.moveHandle && selectedFigureId.Some? {
        var figure := Find(figures, selectedFigureId.value);
        if figure.None? {
          return;
        }
        movingInfo := Some(MoveInfo(selectedFigureId.value, figure.value.pose, coords));
      } else if target.joint.Some? && target.figureId.Some? {
        var figureId, jointName := target.figureId.value, target.joint.value;
        selection := Select(Some(figureId));
        var figure := Find(figures, figureId);
        if figure.None? {
          return;
        }
        if shiftKey {
          if jointName in selectedJoints {
            selectedJoints := selectedJoints - {jointName};
          } else {
            selectedJoints := selectedJoints + {jointName};
          }
        } else if jointName !in selectedJoints {
          selectedJoints := {jointName};
        }
        draggingInfo := Some(DragInfo(figureId, jointName, figure.value.pose));
      } else if target.scaleHandle && selectedFigureId.Some? {
        var figure := Find(figures, selectedFigureId.value);
        if figure.None? {
          return;
        }
        var box := PoseBox(figure.value.pose);
        scalingInfo := Some(ScaleInfo(selectedFigureId.value, figure.value.pose, Center(box), coords));
      } else if target.figureId.Some? {
        if selectedFigureId != target.figureId {
          selection := Select(target.figureId);
          selectedJoints := {};
        }
      } else {
        selectedJoints := {};
        selectionBox := Some(SelectionBox(coords, coords));
      }
    }

    /** A pointer move to `coords`. The first gesture in progress decides:
        a whole-figure move, a joint drag, a scale, or a growing rectangle. */
    method MouseMove(coords: Point) returns (change: Option<PoseChange>)
      requires IsSqrt(sqrt)
      modifies this
      ensures draggingInfo == old(draggingInfo) && selectedJoints == old(selectedJoints) &&
              scalingInfo == old(scalingInfo) && movingInfo == old(movingInfo)
      ensures movingInfo.Some? ==>
        var m := movingInfo.value;
        selectionBox == old(selectionBox) &&
        change == Some(PoseChange(m.figureId, Translate(m.startPose, coords.Minus(m.startPoint))))
      ensures movingInfo.None? && draggingInfo.Some? ==>
        var d := draggingInfo.value;
        selectionBox == old(selectionBox) &&
        change == Some(PoseChange(d.figureId, DragPose(d.initialPose, d.joint, selectedJoints, coords, sqrt)))
      ensures movingInfo.None? && draggingInfo.None? && scalingInfo.Some? ==>
        var s := scalingInfo.value;
        selectionBox == old(selectionBox) &&
        (s.startPoint == s.center ==> change == None) &&
        (s.startPoint != s.center ==>
          change == Some(PoseChange(s.figureId, ScaleAbout(s.startPose, s.center, ScaleFactor(sqrt, s, coords)))))
      ensures movingInfo.None? && draggingInfo.None? && scalingInfo.None? ==>
        change == None &&
        selectionBox == (if old(selectionBox).Some? then Some(SelectionBox(old(selectionBox).value.start, coords)) else None)
      ensures old(AtMostOneGesture()) ==> AtMostOneGesture()
    {
      change := None;
      if movingInfo.Some? {
        var m := movingInfo.value;
        var dx := coords.x - m.startPoint.x;
        var dy := coords.y - m.startPoint.y;
        var newPose := TranslatePose(m.startPose, Point(dx, dy));
        change := Some(PoseChange(m.figureId, newPose));
      } else if draggingInfo.Some? {
        var newPose := DragJoints(draggingInfo.value, selectedJoints, coords, sqrt);
        change := Some(PoseChange(draggingInfo.value.figureId, newPose));
      } else if scalingInfo.Some? {
        var s := scalingInfo.value;
        var distCurrent := sqrt(DistSq(coords, s.center));
        var distStart := sqrt(DistSq(s.startPoint, s.center));
        SqrtCompare(sqrt, DistSq(s.startPoint, s.center), 0.0);
        if distStart == 0.0 {
          return;
        }
        var scaleFactor := distCurrent / distStart;
        var newPose := ScalePose(s.startPose, s.center, scaleFactor);
        change := Some(PoseChange(s.figureId, newPose));
      } else if selectionBox.Some? {
        selectionBox := Some(selectionBox.value.(current := coords));
      }
    }

    /** A release, or the pointer leaving the canvas. A rectangle longer than
        5 selects the selected figure's joints inside it; a shorter one is a
        click on empty canvas and deselects the figure. Every gesture ends. */
    method MouseUp(figures: seq<Figure>, selectedFigureId: Option<Id>) returns (selection: Selection)
      requires IsSqrt(sqrt)
      modifies this
      ensures Idle()
      ensures old(selectionBox).None? ==> selection == Keep && selectedJoints == old(selectedJoints)
      ensures old(selectionBox).Some? ==>
        var b := old(selectionBox).value;
        var d2 := DistSq(b.current, b.start);
        (d2 <= 25.0 ==> selection == Select(None) && selectedJoints == old(selectedJoints)) &&
        (d2 > 25.0 ==>
           selection == Keep &&
           selectedJoints == if selectedFigureId.Some? && Find(figures, selectedFigureId.value).Some?
                             then JointsInBox(Find(figures, selectedFigureId.value).value.pose, b.start, b.current)
                             else old(selectedJoints))
    {
      selection := Keep;
      if selectionBox.Some? {
        var start, current := selectionBox.value.start, selectionBox.value.current;
        var dragDistance := sqrt(DistSq(current, start));
        SqrtCompare(sqrt, DistSq(current, start), 5.0);
        if dragDistance > 5.0 && selectedFigureId.Some? {
          var figure := Find(figures, selectedFigureId.value);
          if figure.Some? {
            selectedJoints := JointsInBox(figure.value.pose, start, current);
          }
        } else if dragDistance <= 5.0 {
          selection := Select(None);
        }
      }
      draggingInfo := None;
      selectionBox := None;
      scalingInfo := None;
      movingInfo := None;
    }
  }

  /** The selection repair after the figures change: a selected id that no
      longer names a figure is replaced by the first figure's id, or by none
      when there are no figures; otherwise the selection is kept. */
  function Reselect(figures: seq<Figure>, selectedFigureId: Option<Id>): (s: Selection)
    ensures s == Keep <==> selectedFigureId.None? || Find(figures, selectedFigureId.value).Some?
    ensures s.Select? ==> (s.id.Some? <==> |figures| > 0)
    ensures s.Select? && |figures| > 0 ==> s.id == Some(figures[0].id)
  {
    if selectedFigureId.Some? && Find(figures, selectedFigureId.value).None? then
      Select(if |figures| > 0 then Some(figures[0].id) else None)
    else Keep
  }

  /** A repaired selection needs no further repair. */
  lemma ReselectSettles(figures: seq<Figure>, selectedFigureId: Option<Id>)
    ensures Reselect(figures, selectedFigureId).Select? ==>
      Reselect(figures, Reselect(figures, selectedFigureId).id) == Keep
  {
    if |figures| > 0 {
      assert figures[0].id == figures[0].id;
    }
  }

  /** The scale factor of a scale gesture with the pointer at `coords`: the
      pointer's distance from the centre over the press point's. It is never
      negative, and it is 1 exactly when the pointer is as far from the
      centre as the press point was. Its square times the press point's
      squared distance is the pointer's squared distance, so scaling the
      press point by it puts that point as far from the centre as the
      pointer (`ScaleReachesPointer`). */
  function ScaleFactor(sqrt: real -> real, s: ScaleInfo, coords: Point): (k: real)
    requires s.startPoint != s.center
    requires IsSqrt(sqrt)
    ensures k >= 0.0
    ensures k == 1.0 <==> DistSq(coords, s.center) == DistSq(s.startPoint, s.center)
    ensures Mul(Mul(k, k), DistSq(s.startPoint, s.center)) == DistSq(coords, s.center)
  {
    var a, b := DistSq(coords, s.center), DistSq(s.startPoint, s.center);
    SqrtCompare(sqrt, b, 0.0);
    SqrtCompare(sqrt, a, 0.0);
    assert Mul(sqrt(a), sqrt(a)) == a && Mul(sqrt(b), sqrt(b)) == b;
    DivCancel(sqrt(a), sqrt(b));
    DivOne(sqrt(a), sqrt(b));
    SquareOfProduct(sqrt(a) / sqrt(b), sqrt(b));
    sqrt(a) / sqrt(b)
  }

  /** Scaling the snapshot by the gesture's factor moves any joint that sat
      on the press point to the pointer's distance from the centre. */
  lemma ScaleReachesPointer(sqrt: real -> real, s: ScaleInfo, coords: Point, j: JointName)
    requires s.startPoint != s.center && IsSqrt(sqrt) && s.startPose.Get(j) == s.startPoint
    ensures DistSq(ScaleAbout(s.startPose, s.center, ScaleFactor(sqrt, s, coords)).Get(j), s.center) ==
            DistSq(coords, s.center)
  {
    var k := ScaleFactor(sqrt, s, coords);
    ScaleGet(s.startPose, s.center, k, j);
    ScaledDist(s.center, s.startPoint, k);
  }

  /** A point scaled by `k` about `c` is `k` times as far from `c`, in
      squares. */
  lemma ScaledDist(c: Point, p: Point, k: real)
    ensures DistSq(c.Plus(p.Minus(c).Times(k)), c) == Mul(Mul(k, k), DistSq(p, c))
  {
    var v := p.Minus(c);
    var q := c.Plus(v.Times(k));
    assert q.x - c.x == Mul(v.x, k) && q.y - c.y == Mul(v.y, k);
    SquareOfProduct(v.x, k);
    SquareOfProduct(v.y, k);
    MulDistrib(Mul(v.x, v.x), Mul(v.y, v.y), Mul(k, k));
    MulComm(Mul(v.x, v.x) + Mul(v.y, v.y), Mul(k, k));
  }

  /** Bringing the scale handle back to where it was pressed restores the
      snapshot. */
  lemma ScaleAtPressPoint(sqrt: real -> real, s: ScaleInfo)
    requires s.startPoint != s.center && IsSqrt(sqrt)
    ensures ScaleAbout(s.startPose, s.center, ScaleFactor(sqrt, s, s.startPoint)) == s.startPose
  {
    ScaleOne(s.startPose, s.center);
  }

  /** Bringing the move handle back to where it was pressed restores the
      snapshot. */
  lemma MoveAtPressPoint(m: MoveInfo)
    ensures Translate(m.startPose, m.startPoint.Minus(m.startPoint)) == m.startPose
  {
    assert m.startPoint.Minus(m.startPoint) == Origin;
    TranslateZero(m.startPose);
  }
}
