/** The value types of the editor: points, the closed set of joint names,
    the total pose record, limbs, figures and saved library poses. */
module Types {

  datatype Option<+T> = None | Some(value: T)

  /** A figure or library-entry identifier (a UUID or a fixed default id). */
  type Id = string

  /** A CSS colour string such as "#0891b2". */
  type Color = string

  /** A point in logical canvas units. */
  datatype Point = Point(x: real, y: real) {
    function Plus(d: Point): Point { Point(x + d.x, y + d.y) }
    function Minus(q: Point): Point { Point(x - q.x, y - q.y) }
    function Times(k: real): Point { Point(x * k, y * k) }
  }

  const Origin := Point(0.0, 0.0)

  /** The sixteen joints of the skeleton. */
  datatype JointName =
    | Head | Neck | Waist | Pelvis
    | LeftShoulder | RightShoulder | LeftElbow | RightElbow
    | LeftHand | RightHand | LeftHip | RightHip
    | LeftKnee | RightKnee | LeftAnkle | RightAnkle

  /** Every joint, in the key order of the pose record. */
  const AllJoints: seq<JointName> :=
    [Head, Neck, Waist, Pelvis, LeftShoulder, RightShoulder, LeftElbow, RightElbow,
     LeftHand, RightHand, LeftHip, RightHip, LeftKnee, RightKnee, LeftAnkle, RightAnkle]

  lemma AllJointsComplete()
    ensures |AllJoints| == 16
    ensures forall j: JointName :: j in AllJoints
    ensures forall a, b :: 0 <= a < b < |AllJoints| ==> AllJoints[a] != AllJoints[b]
  {
    forall j: JointName ensures j in AllJoints {
      match j
      case Head => assert AllJoints[0] == j;
      case Neck => assert AllJoints[1] == j;
      case Waist => assert AllJoints[2] == j;
      case Pelvis => assert AllJoints[3] == j;
      case LeftShoulder => assert AllJoints[4] == j;
      case RightShoulder => assert AllJoints[5] == j;
      case LeftElbow => assert AllJoints[6] == j;
      case RightElbow => assert AllJoints[7] == j;
      case LeftHand => assert AllJoints[8] == j;
      case RightHand => assert AllJoints[9] == j;
      case LeftHip => assert AllJoints[10] == j;
      case RightHip => assert AllJoints[11] == j;
      case LeftKnee => assert AllJoints[12] == j;
      case RightKnee => assert AllJoints[13] == j;
      case LeftAnkle => assert AllJoints[14] == j;
      case RightAnkle => assert AllJoints[15] == j;
    }
  }

  /** The set of all joints. */
  const JointSet: set<JointName> := set j | j in AllJoints

  lemma JointSetComplete()
    ensures forall j: JointName :: j in JointSet
    ensures |JointSet| == 16
  {
    AllJointsComplete();
    DistinctSeqCard(AllJoints);
  }

  /** A sequence without repetitions has as many elements as its set. */
  lemma {:induction false} DistinctSeqCard<T>(s: seq<T>)
    requires forall a, b :: 0 <= a < b < |s| ==> s[a] != s[b]
    ensures |set x | x in s| == |s|
  {
    if s != [] {
      DistinctSeqCard(s[1..]);
      var rest := set x | x in s[1..];
      assert (set x | x in s) == rest + {s[0]};
      assert forall b :: 1 <= b < |s| ==> s[b] != s[0];
      assert s[0] !in s[1..];
    }
  }

  /** A pose: exactly one point for every joint. */
  datatype Pose = Pose(
    head: Point, neck: Point, waist: Point, pelvis: Point,
    leftShoulder: Point, rightShoulder: Point, leftElbow: Point, rightElbow: Point,
    leftHand: Point, rightHand: Point, leftHip: Point, rightHip: Point,
    leftKnee: Point, rightKnee: Point, leftAnkle: Point, rightAnkle: Point)
  {
    /** The point of joint `j` (the record lookup `pose[j]`). */
    function Get(j: JointName): Point {
      match j
      case Head => head
      case Neck => neck
      case Waist => waist
      case Pelvis => pelvis
      case LeftShoulder => leftShoulder
      case RightShoulder => rightShoulder
      case LeftElbow => leftElbow
      case RightElbow => rightElbow
      case LeftHand => leftHand
      case RightHand => rightHand
      case LeftHip => leftHip
      case RightHip => rightHip
      case LeftKnee => leftKnee
      case RightKnee => rightKnee
      case LeftAnkle => leftAnkle
      case RightAnkle => rightAnkle
    }

    /** The pose with joint `j` moved to `p` (the record write `pose[j] = p`). */
    function Set(j: JointName, p: Point): (r: Pose)
      ensures r.Get(j) == p
      ensures forall k :: k != j ==> r.Get(k) == Get(k)
    {
      match j
      case Head => this.(head := p)
      case Neck => this.(neck := p)
      case Waist => this.(waist := p)
      case Pelvis => this.(pelvis := p)
      case LeftShoulder => this.(leftShoulder := p)
      case RightShoulder => this.(rightShoulder := p)
      case LeftElbow => this.(leftElbow := p)
      case RightElbow => this.(rightElbow := p)
      case LeftHand => this.(leftHand := p)
      case RightHand => this.(rightHand := p)
      case LeftHip => this.(leftHip := p)
      case RightHip => this.(rightHip := p)
      case LeftKnee => this.(leftKnee := p)
      case RightKnee => this.(rightKnee := p)
      case LeftAnkle => this.(leftAnkle := p)
      case RightAnkle => this.(rightAnkle := p)
    }

    /** The points of the pose, in key order (`Object.values(pose)`). */
    function Values(): (r: seq<Point>)
      ensures |r| == |AllJoints|
      ensures forall i :: 0 <= i < |AllJoints| ==> r[i] == Get(AllJoints[i])
    {
      [head, neck, waist, pelvis, leftShoulder, rightShoulder, leftElbow, rightElbow,
       leftHand, rightHand, leftHip, rightHip, leftKnee, rightKnee, leftAnkle, rightAnkle]
    }
  }

  /** Every joint's point occurs among the pose's values. */
  lemma ValuesCover(pose: Pose, j: JointName)
    ensures pose.Get(j) in pose.Values()
  {
    AllJointsComplete();
    assert j in AllJoints;
    var i :| 0 <= i < |AllJoints| && AllJoints[i] == j;
    assert pose.Values()[i] == pose.Get(j);
  }

  /** Two poses that agree on every joint are the same pose. */
  lemma PoseExt(a: Pose, b: Pose)
    requires forall j :: a.Get(j) == b.Get(j)
    ensures a == b
  {
    assert a.Get(Head) == b.Get(Head) && a.Get(Neck) == b.Get(Neck);
    assert a.Get(Waist) == b.Get(Waist) && a.Get(Pelvis) == b.Get(Pelvis);
    assert a.Get(LeftShoulder) == b.Get(LeftShoulder) && a.Get(RightShoulder) == b.Get(RightShoulder);
    assert a.Get(LeftElbow) == b.Get(LeftElbow) && a.Get(RightElbow) == b.Get(RightElbow);
    assert a.Get(LeftHand) == b.Get(LeftHand) && a.Get(RightHand) == b.Get(RightHand);
    assert a.Get(LeftHip) == b.Get(LeftHip) && a.Get(RightHip) == b.Get(RightHip);
    assert a.Get(LeftKnee) == b.Get(LeftKnee) && a.Get(RightKnee) == b.Get(RightKnee);
    assert a.Get(LeftAnkle) == b.Get(LeftAnkle) && a.Get(RightAnkle) == b.Get(RightAnkle);
  }

  /** A rendered segment between two joints. */
  datatype Limb = Limb(start: JointName, end: JointName)

  /** A figure on the canvas. */
  datatype Figure = Figure(id: Id, pose: Pose, color: Color)

  /** The first figure whose id is `id` (`figures.find(f => f.id === id)`). */
  function Find(figures: seq<Figure>, id: Id): (r: Option<Figure>)
    ensures r.Some? <==> exists i :: 0 <= i < |figures| && figures[i].id == id
    ensures r.Some? ==> r.value.id == id
    ensures r.Some? ==> exists i :: 0 <= i < |figures| && figures[i] == r.value &&
                          forall k :: 0 <= k < i ==> figures[k].id != id
  {
    if |figures| == 0 then None
    else if figures[0].id == id then Some(figures[0])
    else
      var r := Find(figures[1..], id);
      assert r.Some? ==> exists i :: 1 <= i < |figures| && figures[i] == r.value &&
                           forall k :: 0 <= k < i ==> figures[k].id != id by {
        if r.Some? {
          var i :| 0 <= i < |figures[1..]| && figures[1..][i] == r.value &&
                   forall k :: 0 <= k < i ==> figures[1..][k].id != id;
          assert figures[i + 1] == r.value;
          assert forall k :: 1 <= k < i + 1 ==> figures[k].id == figures[1..][k - 1].id;
        }
      }
      assert (exists i :: 0 <= i < |figures| && figures[i].id == id) ==>
        exists i :: 0 <= i < |figures[1..]| && figures[1..][i].id == id by {
        if exists i :: 0 <= i < |figures| && figures[i].id == id {
          var i :| 0 <= i < |figures| && figures[i].id == id;
          assert figures[1..][i - 1].id == id;
        }
      }
      r
  }

  /** A library entry; an absent `isDefault` flag means "not a default". */
  datatype SavedPose = SavedPose(id: Id, pose: Pose, isDefault: Option<bool>)
  {
    predicate IsDefault() { isDefault == Some(true) }
  }
}
