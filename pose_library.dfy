/** Library poses are stored relative to the pelvis: saving a pose moves its
    pelvis to the origin, and applying a stored pose moves it onto the
    pelvis of the figure it is applied to. */
module PoseLibrary {
  import opened Types
  import opened EditorTransforms
  import Constants

  /** The pose moved so that its pelvis sits at the origin. */
  function Normalized(pose: Pose): Pose {
    Translate(pose, Origin.Minus(pose.Get(Pelvis)))
  }

  /** A pelvis-relative pose placed on the pelvis of `target`. */
  function Applied(normalizedPose: Pose, target: Pose): Pose {
    Translate(normalizedPose, target.Get(Pelvis))
  }

  /** A pose is normalised when its pelvis is at the origin. */
  predicate IsNormalized(pose: Pose) {
    pose.Get(Pelvis) == Origin
  }

  /** The `for…in` loop of `normalizePose`: every joint minus the pelvis. */
  method NormalizePose(pose: Pose) returns (normalized: Pose)
    ensures normalized == Normalized(pose)
  {
    var pelvis := pose.Get(Pelvis);
    normalized := pose;
    for i := 0 to |AllJoints|
      invariant forall j :: normalized.Get(j) ==
                              if j in AllJoints[..i] then pose.Get(j).Plus(Origin.Minus(pelvis)) else pose.Get(j)
    {
      var j := AllJoints[i];
      assert Point(pose.Get(j).x - pelvis.x, pose.Get(j).y - pelvis.y) == pose.Get(j).Plus(Origin.Minus(pelvis));
      normalized := normalized.Set(j, Point(pose.Get(j).x - pelvis.x, pose.Get(j).y - pelvis.y));
      assert AllJoints[..i + 1] == AllJoints[..i] + [j];
    }
    AllJointsComplete();
    assert AllJoints[..|AllJoints|] == AllJoints;
    forall j ensures normalized.Get(j) == Normalized(pose).Get(j) {
      TranslateGet(pose, Origin.Minus(pelvis), j);
    }
    PoseExt(normalized, Normalized(pose));
  }

  /** The `for…in` loop of `applyNormalizedPose`: every joint plus the
      target's pelvis. */
  method ApplyNormalizedPose(normalizedPose: Pose, targetPose: Pose) returns (newPose: Pose)
    ensures newPose == Applied(normalizedPose, targetPose)
  {
    var targetPelvis := targetPose.Get(Pelvis);
    newPose := normalizedPose;
    for i := 0 to |AllJoints|
      invariant forall j :: newPose.Get(j) ==
                              if j in AllJoints[..i] then normalizedPose.Get(j).Plus(targetPelvis) else normalizedPose.Get(j)
    {
      var j := AllJoints[i];
      newPose := newPose.Set(j, Point(normalizedPose.Get(j).x + targetPelvis.x, normalizedPose.Get(j).y + targetPelvis.y));
      assert AllJoints[..i + 1] == AllJoints[..i] + [j];
    }
    AllJointsComplete();
    assert AllJoints[..|AllJoints|] == AllJoints;
    forall j ensures newPose.Get(j) == Applied(normalizedPose, targetPose).Get(j) {
      TranslateGet(normalizedPose, targetPelvis, j);
    }
    PoseExt(newPose, Applied(normalizedPose, targetPose));
  }

  /** A normalised pose has its pelvis at the origin, and every joint keeps
      its offset from the pelvis. */
  lemma NormalizedSpec(pose: Pose, j: JointName)
    ensures IsNormalized(Normalized(pose))
    ensures Normalized(pose).Get(j) == pose.Get(j).Minus(pose.Get(Pelvis))
  {
    TranslateGet(pose, Origin.Minus(pose.Get(Pelvis)), j);
    TranslateGet(pose, Origin.Minus(pose.Get(Pelvis)), Pelvis);
  }

  /** Applying the normalised form of a pose to that same pose gives the
      pose back. */
  lemma ApplyNormalizedRoundTrip(pose: Pose)
    ensures Applied(Normalized(pose), pose) == pose
  {
    var n := Normalized(pose);
    forall j ensures Applied(n, pose).Get(j) == pose.Get(j) {
      TranslateGet(n, pose.Get(Pelvis), j);
      NormalizedSpec(pose, j);
    }
    PoseExt(Applied(n, pose), pose);
  }

  /** Normalising a placed pose recovers the stored pose exactly when the
      stored pose was normalised. */
  lemma NormalizeAppliedRoundTrip(normalizedPose: Pose, target: Pose)
    ensures Normalized(Applied(normalizedPose, target)) == normalizedPose <==> IsNormalized(normalizedPose)
  {
    NormalizedSpec(Applied(normalizedPose, target), Pelvis);
    if IsNormalized(normalizedPose) {
      NormalizeApplied(normalizedPose, target);
    }
  }

  lemma NormalizeApplied(normalizedPose: Pose, target: Pose)
    requires IsNormalized(normalizedPose)
    ensures Normalized(Applied(normalizedPose, target)) == normalizedPose
  {
    var t := target.Get(Pelvis);
    var a := Applied(normalizedPose, target);
    AppliedPelvis(normalizedPose, target, Pelvis);
    assert Origin.Minus(a.Get(Pelvis)) == Point(-t.x, -t.y);
    assert Normalized(a) == Translate(Translate(normalizedPose, t), Point(-t.x, -t.y));
    TranslateInverse(normalizedPose, t);
  }

  /** A normalised pose is its own normal form. */
  lemma NormalizedFixed(pose: Pose)
    requires IsNormalized(pose)
    ensures Normalized(pose) == pose
  {
    assert Origin.Minus(pose.Get(Pelvis)) == Origin;
    TranslateZero(pose);
  }

  /** Applying a normalised pose puts its pelvis on the target's pelvis and
      keeps every joint's offset from the pelvis. */
  lemma AppliedPelvis(normalizedPose: Pose, target: Pose, j: JointName)
    requires IsNormalized(normalizedPose)
    ensures Applied(normalizedPose, target).Get(Pelvis) == target.Get(Pelvis)
    ensures Applied(normalizedPose, target).Get(j).Minus(target.Get(Pelvis)) == normalizedPose.Get(j)
  {
    TranslateGet(normalizedPose, target.Get(Pelvis), Pelvis);
    TranslateGet(normalizedPose, target.Get(Pelvis), j);
  }

  /** Normalising is idempotent. */
  lemma NormalizeIdempotent(pose: Pose)
    ensures Normalized(Normalized(pose)) == Normalized(pose)
  {
    NormalizedSpec(pose, Pelvis);
    NormalizedFixed(Normalized(pose));
  }

  /** The built-in library poses are already normalised. */
  lemma DefaultsNormalized(i: nat)
    requires i < |Constants.DefaultPoses|
    ensures Normalized(Constants.DefaultPoses[i].pose) == Constants.DefaultPoses[i].pose
  {
    Constants.DefaultPosesShape();
    NormalizedFixed(Constants.DefaultPoses[i].pose);
  }
}
