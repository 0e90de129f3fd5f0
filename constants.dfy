/** The fixed tables of the editor: the pose of a new figure, the limbs
    drawn between joints, the library's built-in poses and the palette. */
module Constants {
  import opened Types

  /** The pose of the first figure; added figures are shifted copies. */
  const InitialPose := Pose(
    Point(250.0, 80.0), Point(250.0, 120.0), Point(250.0, 180.0), Point(250.0, 240.0),
    Point(210.0, 130.0), Point(290.0, 130.0), Point(180.0, 190.0), Point(320.0, 190.0),
    Point(150.0, 250.0), Point(350.0, 250.0), Point(225.0, 240.0), Point(275.0, 240.0),
    Point(215.0, 320.0), Point(285.0, 320.0), Point(205.0, 400.0), Point(295.0, 400.0))

  /** The segments drawn for a figure; the head is drawn as a circle and is
      the end of no segment. */
  const Limbs: seq<Limb> := [
    Limb(Neck, Waist), Limb(Waist, Pelvis),
    Limb(Neck, LeftShoulder), Limb(Neck, RightShoulder),
    Limb(Pelvis, LeftHip), Limb(Pelvis, RightHip),
    Limb(LeftShoulder, LeftElbow), Limb(LeftElbow, LeftHand),
    Limb(RightShoulder, RightElbow), Limb(RightElbow, RightHand),
    Limb(LeftHip, LeftKnee), Limb(LeftKnee, LeftAnkle),
    Limb(RightHip, RightKnee), Limb(RightKnee, RightAnkle)]

  /** The standing pose of the library, relative to the pelvis. */
  const StandingPose := Pose(
    Point(0.0, -160.0), Point(0.0, -120.0), Point(0.0, -60.0), Point(0.0, 0.0),
    Point(-40.0, -110.0), Point(40.0, -110.0), Point(-70.0, -50.0), Point(70.0, -50.0),
    Point(-100.0, 10.0), Point(100.0, 10.0), Point(-25.0, 0.0), Point(25.0, 0.0),
    Point(-35.0, 80.0), Point(35.0, 80.0), Point(-45.0, 160.0), Point(45.0, 160.0))

  /** The waving pose: the standing pose with the right arm raised. */
  const WavePose := StandingPose.(rightElbow := Point(90.0, -90.0), rightHand := Point(120.0, -160.0))

  /** The library's built-in entries, used when nothing is stored. */
  const DefaultPoses: seq<SavedPose> := [
    SavedPose("default-standing", StandingPose, Some(true)),
    SavedPose("default-wave", WavePose, Some(true))]

  /** The colours given to added figures. */
  const Palette: seq<Color> := ["#0891b2", "#be185d", "#16a34a", "#c026d3", "#d97706"]

  /** The new-figure pose has its pelvis at (250, 240). */
  lemma InitialPelvis()
    ensures InitialPose.Get(Pelvis) == Point(250.0, 240.0)
  {
  }

  /** Joint `j` is an end of limb `l`. */
  predicate InLimb(j: JointName, l: Limb) {
    l.start == j || l.end == j
  }

  /** Joint `j` is an end of some limb. */
  predicate Drawn(j: JointName) {
    exists i :: 0 <= i < |Limbs| && InLimb(j, Limbs[i])
  }

  /** There are 14 limbs; the head is in none of them and no limb joins a
      joint to itself. */
  lemma LimbTopology()
    ensures |Limbs| == 14
    ensures forall i :: 0 <= i < |Limbs| ==> !InLimb(Head, Limbs[i])
    ensures forall i :: 0 <= i < |Limbs| ==> Limbs[i].start != Limbs[i].end
  {
  }

  /** Every joint but the head is an end of some limb. */
  lemma EveryJointDrawn(j: JointName)
    ensures Drawn(j) <==> j != Head
  {
    LimbTopology();
    if j != Head {
      var i := match j
        case Head => 0
        case Neck => 0
        case Waist => 0
        case Pelvis => 1
        case LeftShoulder => 2
        case RightShoulder => 3
        case LeftHip => 4
        case RightHip => 5
        case LeftElbow => 6
        case LeftHand => 7
        case RightElbow => 8
        case RightHand => 9
        case LeftKnee => 10
        case LeftAnkle => 11
        case RightKnee => 12
        case RightAnkle => 13;
      assert InLimb(j, Limbs[i]);
    }
  }

  /** Both built-in poses have the pelvis at the origin, are marked as
      defaults, and have different ids. */
  lemma DefaultPosesShape()
    ensures |DefaultPoses| == 2
    ensures forall i :: 0 <= i < |DefaultPoses| ==>
      DefaultPoses[i].pose.Get(Pelvis) == Origin && DefaultPoses[i].IsDefault()
    ensures DefaultPoses[0].id != DefaultPoses[1].id
  {
  }

  /** The palette has five different colours. */
  lemma PaletteDistinct()
    ensures |Palette| == 5
    ensures forall a, b :: 0 <= a < b < |Palette| ==> Palette[a] != Palette[b]
  {
  }
}
