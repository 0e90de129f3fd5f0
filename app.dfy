/** The application state around the editor: the figures on the canvas and
    which one is selected, the pose library, the viewBox and the canvas
    size. Identifiers that the application draws at random arrive as
    parameters. */
module App {
  import opened Types
  import opened RealArith
  import opened EditorGeometry
  import opened EditorTransforms
  import opened PoseLibrary
  import opened Constants
  import Editor

  /** The most figures the canvas holds. */
  const MaxFigures := 5

  /** The horizontal distance between successively added figures. */
  const FigureSpacing := 40.0

  /** The viewBox "0 0 500 500". */
  const DefaultViewBox := Box(0.0, 0.0, 500.0, 500.0)

  /** The padding of the canvas container, taken off the measured size. */
  const ContainerPadding := 32.0

  /** A canvas shape: the whole available area, or a `w:h` ratio. */
  datatype AspectRatio = Screen | Ratio(w: real, h: real)

  datatype Size = Size(width: real, height: real)

  // ---------------------------------------------------------------------
  // Lists

  function FigureId(f: Figure): Id { f.id }

  function EntryId(e: SavedPose): Id { e.id }

  /** No two elements share a key. */
  predicate UniqueKeys<T>(xs: seq<T>, key: T -> Id) {
    forall a, b :: 0 <= a < b < |xs| ==> key(xs[a]) != key(xs[b])
  }

  /** Appending an element with a new key keeps the keys unique. */
  lemma UniqueAppend<T>(xs: seq<T>, key: T -> Id, x: T)
    requires UniqueKeys(xs, key)
    requires forall i :: 0 <= i < |xs| ==> key(xs[i]) != key(x)
    ensures UniqueKeys(xs + [x], key)
  {
  }

  /** The elements whose key is not `id`, in their order (`filter`).
      `FilterOutCount` and `FilterOutConcat` state that each kept element
      keeps its multiplicity and that the order is kept. */
  function FilterOut<T(!new)>(xs: seq<T>, key: T -> Id, id: Id): (r: seq<T>)
    ensures forall x :: x in r <==> x in xs && key(x) != id
    ensures |r| <= |xs|
  {
    if |xs| == 0 then []
    else (if key(xs[0]) != id then [xs[0]] else []) + FilterOut(xs[1..], key, id)
  }

  lemma SeqAssoc<T>(a: seq<T>, b: seq<T>, c: seq<T>)
    ensures a + (b + c) == (a + b) + c
  {
  }

  /** An element with key `id` no longer occurs; any other element occurs as
      often as in `xs`. */
  lemma {:induction false} FilterOutCount<T(!new)>(xs: seq<T>, key: T -> Id, id: Id)
    ensures forall x :: multiset(FilterOut(xs, key, id))[x] == if key(x) != id then multiset(xs)[x] else 0
  {
    if |xs| > 0 {
      FilterOutCount(xs[1..], key, id);
      assert xs == [xs[0]] + xs[1..];
    }
  }

  /** Filtering a concatenation filters each part and keeps them in order, so
      the kept elements stay in their original order. */
  lemma {:induction false} FilterOutConcat<T(!new)>(a: seq<T>, b: seq<T>, key: T -> Id, id: Id)
    ensures FilterOut(a + b, key, id) == FilterOut(a, key, id) + FilterOut(b, key, id)
  {
    if |a| == 0 {
      assert a + b == b;
    } else {
      var head := if key(a[0]) != id then [a[0]] else [];
      assert (a + b)[0] == a[0] && (a + b)[1..] == a[1..] + b;
      assert FilterOut(a + b, key, id) == head + FilterOut(a[1..] + b, key, id);
      FilterOutConcat(a[1..], b, key, id);
      assert FilterOut(a, key, id) == head + FilterOut(a[1..], key, id);
      SeqAssoc(head, FilterOut(a[1..], key, id), FilterOut(b, key, id));
    }
  }

  /** Removing a key that no element has changes nothing. */
  lemma {:induction false} FilterOutAbsent<T(!new)>(xs: seq<T>, key: T -> Id, id: Id)
    requires forall i :: 0 <= i < |xs| ==> key(xs[i]) != id
    ensures FilterOut(xs, key, id) == xs
  {
    if |xs| > 0 {
      FilterOutAbsent(xs[1..], key, id);
      assert [xs[0]] + xs[1..] == xs;
    }
  }

  /** Removing the key of exactly one element removes that element and
      keeps the others in order. */
  lemma {:induction false} FilterOutOne<T(!new)>(xs: seq<T>, key: T -> Id, k: nat)
    requires k < |xs| && forall i :: 0 <= i < |xs| && i != k ==> key(xs[i]) != key(xs[k])
    ensures FilterOut(xs, key, key(xs[k])) == xs[..k] + xs[k + 1..]
  {
    var id := key(xs[k]);
    if k == 0 {
      FilterOutAbsent(xs[1..], key, id);
    } else {
      FilterOutOne(xs[1..], key, k - 1);
      assert xs[1..][k - 1] == xs[k];
      assert [xs[0]] + (xs[1..][..k - 1] + xs[1..][k..]) == xs[..k] + xs[k + 1..];
    }
  }

  /** Removing elements keeps the keys unique. */
  lemma {:induction false} FilterOutUnique<T(!new)>(xs: seq<T>, key: T -> Id, id: Id)
    requires UniqueKeys(xs, key)
    ensures UniqueKeys(FilterOut(xs, key, id), key)
  {
    if |xs| > 0 {
      FilterOutUnique(xs[1..], key, id);
      var rest := FilterOut(xs[1..], key, id);
      forall x | x in rest ensures key(x) != key(xs[0]) {
        var i :| 0 <= i < |xs[1..]| && xs[1..][i] == x;
        assert xs[i + 1] == x;
      }
    }
  }

  /** With unique keys, removing one key removes at most one element. */
  lemma FilterOutUniqueLength<T(!new)>(xs: seq<T>, key: T -> Id, id: Id)
    requires UniqueKeys(xs, key)
    ensures |FilterOut(xs, key, id)| >= |xs| - 1
  {
    if k :| 0 <= k < |xs| && key(xs[k]) == id {
      FilterOutOne(xs, key, k);
    } else {
      FilterOutAbsent(xs, key, id);
    }
  }

  /** The figures with the pose of every figure whose id is `id` replaced
      (`handlePoseChange`'s `map`); ids, colours and order are kept. */
  function ReplacePose(figures: seq<Figure>, id: Id, pose: Pose): (r: seq<Figure>)
    ensures |r| == |figures|
    ensures forall i :: 0 <= i < |r| ==>
      r[i].id == figures[i].id && r[i].color == figures[i].color &&
      (figures[i].id == id ==> r[i].pose == pose) &&
      (figures[i].id != id ==> r[i] == figures[i])
  {
    seq(|figures|, i requires 0 <= i < |figures| =>
      if figures[i].id == id then figures[i].(pose := pose) else figures[i])
  }

  /** After a replacement, looking the figure up finds the new pose. */
  lemma FindAfterReplace(figures: seq<Figure>, id: Id, pose: Pose)
    requires Find(figures, id).Some?
    ensures Find(ReplacePose(figures, id, pose), id).Some?
    ensures Find(ReplacePose(figures, id, pose), id).value.pose == pose
    ensures Find(ReplacePose(figures, id, pose), id).value.color == Find(figures, id).value.color
  {
    var r := ReplacePose(figures, id, pose);
    var i :| 0 <= i < |figures| && figures[i].id == id;
    assert r[i].id == id;
    var f := Find(r, id).value;
    var k :| 0 <= k < |r| && r[k] == f && forall m :: 0 <= m < k ==> r[m].id != id;
    var g := Find(figures, id).value;
    var n :| 0 <= n < |figures| && figures[n] == g && forall m :: 0 <= m < n ==> figures[m].id != id;
  }

  // ---------------------------------------------------------------------
  // Colour of a new figure

  function UsedColors(figures: seq<Figure>): set<Color> {
    set f | f in figures :: f.color
  }

  /** The palette colours not in `used`, in palette order. */
  function Unused(palette: seq<Color>, used: set<Color>): (r: seq<Color>)
    ensures forall c :: c in r <==> c in palette && c !in used
    ensures |r| > 0 ==> exists i :: 0 <= i < |palette| && palette[i] == r[0] &&
                                    forall k :: 0 <= k < i ==> palette[k] in used
  {
    if |palette| == 0 then []
    else
      var rest := Unused(palette[1..], used);
      assert palette == [palette[0]] + palette[1..];
      if palette[0] !in used then [palette[0]] + rest
      else
        assert |rest| > 0 ==> exists i :: 1 <= i < |palette| && palette[i] == rest[0] &&
                                         forall k :: 0 <= k < i ==> palette[k] in used by {
          if |rest| > 0 {
            var i :| 0 <= i < |palette[1..]| && palette[1..][i] == rest[0] &&
                     forall k :: 0 <= k < i ==> palette[1..][k] in used;
            assert palette[i + 1] == rest[0];
            assert forall k :: 1 <= k < i + 1 ==> palette[k] == palette[1..][k - 1];
          }
        }
        rest
  }

  /** The number of figures whose colour is in the palette. */
  function PaletteCount(figures: seq<Figure>): (n: nat)
    ensures n <= |figures|
  {
    if |figures| == 0 then 0
    else (if figures[0].color in Palette then 1 else 0) + PaletteCount(figures[1..])
  }

  /** The colour of an added figure: the first palette colour no figure
      uses, or, when every palette colour is taken, the palette entry at the
      count of palette-coloured figures modulo the palette size. */
  function PickColor(figures: seq<Figure>): (c: Color)
    ensures c in Palette
  {
    var available := Unused(Palette, UsedColors(figures));
    if |available| > 0 then available[0]
    else Palette[PaletteCount(figures) % |Palette|]
  }

  /** Every palette colour some figure uses is counted by `PaletteCount`:
      the distinct palette colours in use never outnumber it. */
  lemma {:induction false} PaletteCountCovers(figures: seq<Figure>)
    ensures |(set c | c in Palette) * UsedColors(figures)| <= PaletteCount(figures)
  {
    var colors := set c | c in Palette;
    if |figures| > 0 {
      PaletteCountCovers(figures[1..]);
      var first := if figures[0].color in Palette then {figures[0].color} else {};
      assert colors * UsedColors(figures) <= colors * UsedColors(figures[1..]) + first by {
        forall c | c in colors * UsedColors(figures) ensures c in colors * UsedColors(figures[1..]) + first {
          var f :| f in figures && f.color == c;
          var i :| 0 <= i < |figures| && figures[i] == f;
          if i > 0 {
            assert figures[1..][i - 1] == f;
          }
        }
      }
      SubsetCard(colors * UsedColors(figures), colors * UsedColors(figures[1..]) + first);
    }
  }

  /** `PickColor` falls back to cycling only when every palette colour is
      in use, and then at least one figure per palette colour is counted. */
  lemma PickColorFallback(figures: seq<Figure>)
    requires |Unused(Palette, UsedColors(figures))| == 0
    ensures PaletteCount(figures) >= |Palette|
    ensures PickColor(figures) == Palette[PaletteCount(figures) % |Palette|]
  {
    var colors := set c | c in Palette;
    PaletteDistinct();
    DistinctSeqCard(Palette);
    forall c | c in colors ensures c in UsedColors(figures) {
      assert c !in Unused(Palette, UsedColors(figures));
    }
    assert colors * UsedColors(figures) == colors;
    PaletteCountCovers(figures);
  }

  /** A list of figures uses at most as many colours as it has figures. */
  lemma {:induction false} UsedColorsCard(figures: seq<Figure>)
    ensures |UsedColors(figures)| <= |figures|
  {
    if |figures| > 0 {
      UsedColorsCard(figures[1..]);
      assert UsedColors(figures) <= UsedColors(figures[1..]) + {figures[0].color} by {
        forall c | c in UsedColors(figures) ensures c in UsedColors(figures[1..]) + {figures[0].color} {
          var f :| f in figures && f.color == c;
          var i :| 0 <= i < |figures| && figures[i] == f;
          if i > 0 {
            assert figures[1..][i - 1] == f;
          }
        }
      }
      SubsetCard(UsedColors(figures), UsedColors(figures[1..]) + {figures[0].color});
    }
  }

  /** With fewer figures than the cap, some palette colour is unused, so
      the cyclic fallback is never taken and the new figure gets the first
      unused palette colour. */
  lemma PickColorFirstUnused(figures: seq<Figure>)
    requires |figures| < MaxFigures
    ensures PickColor(figures) !in UsedColors(figures)
    ensures exists i :: 0 <= i < |Palette| && Palette[i] == PickColor(figures) &&
                        forall k :: 0 <= k < i ==> Palette[k] in UsedColors(figures)
  {
    var used := UsedColors(figures);
    UsedColorsCard(figures);
    PaletteDistinct();
    DistinctSeqCard(Palette);
    if |Unused(Palette, used)| == 0 {
      var colors := set c | c in Palette;
      assert |colors| == 5;
      forall c | c in colors ensures c in used {
        assert c !in Unused(Palette, used);
      }
      SubsetCard(colors, used);
      assert false;
    }
  }

  // ---------------------------------------------------------------------
  // Pose of a new figure

  /** The loop of `addFigure`: every joint of `pose` moved right by
      `offset`. */
  method OffsetPose(pose: Pose, offset: real) returns (newPose: Pose)
    ensures newPose == Translate(pose, Point(offset, 0.0))
  {
    AllJointsComplete();
    newPose := pose;
    for i := 0 to |AllJoints|
      invariant forall j :: newPose.Get(j) ==
                              if j in AllJoints[..i] then pose.Get(j).Plus(Point(offset, 0.0)) else pose.Get(j)
    {
      var j := AllJoints[i];
      assert j !in AllJoints[..i];
      newPose := newPose.Set(j, Point(newPose.Get(j).x + offset, newPose.Get(j).y));
      assert AllJoints[..i + 1] == AllJoints[..i] + [j];
    }
    assert AllJoints[..|AllJoints|] == AllJoints;
    forall j ensures newPose.Get(j) == Translate(pose, Point(offset, 0.0)).Get(j) {
      TranslateGet(pose, Point(offset, 0.0), j);
    }
    PoseExt(newPose, Translate(pose, Point(offset, 0.0)));
  }

  /** The pose of the figure added to `n` figures. */
  function SpawnPose(n: nat): Pose {
    Translate(InitialPose, Point(n as real * FigureSpacing, 0.0))
  }

  /** The added figure is the initial pose moved right by 40 per existing
      figure, so its pelvis is at (250 + 40n, 240). */
  lemma SpawnPoseSpec(n: nat, j: JointName)
    ensures SpawnPose(n).Get(j) == InitialPose.Get(j).Plus(Point(n as real * FigureSpacing, 0.0))
    ensures SpawnPose(n).Get(Pelvis) == Point(250.0 + n as real * FigureSpacing, 240.0)
  {
    TranslateGet(InitialPose, Point(n as real * FigureSpacing, 0.0), j);
    TranslateGet(InitialPose, Point(n as real * FigureSpacing, 0.0), Pelvis);
    InitialPelvis();
  }

  /** The figure `addFigure` appends to `figures`: the initial pose moved
      right by 40 per existing figure, in the colour `PickColor` gives. */
  method NewFigure(figures: seq<Figure>, newId: Id) returns (newFigure: Figure)
    requires |figures| < MaxFigures
    ensures newFigure == Figure(newId, SpawnPose(|figures|), PickColor(figures))
  {
    var offset := (|figures| % 5) as real * FigureSpacing;
    assert |figures| % 5 == |figures|;
    var newPose := OffsetPose(InitialPose, offset);
    var newColor := PickColor(figures);
    newFigure := Figure(newId, newPose, newColor);
  }

  // ---------------------------------------------------------------------
  // Viewport

  /** The viewBox scaled by `factor` about its centre (`handleZoom`). */
  function Zoom(vb: Box, factor: real): (r: Box)
    ensures Center(r) == Center(vb)
    ensures r.width == Mul(vb.width, factor) && r.height == Mul(vb.height, factor)
  {
    var newW := vb.width * factor;
    var newH := vb.height * factor;
    Box(vb.x + (vb.width - newW) / 2.0, vb.y + (vb.height - newH) / 2.0, newW, newH)
  }

  /** Zooming by a non-zero factor and then by its reciprocal restores the
      viewBox. */
  lemma ZoomInverse(vb: Box, factor: real)
    requires factor != 0.0
    ensures Zoom(Zoom(vb, factor), 1.0 / factor) == vb
  {
    var inv := 1.0 / factor;
    assert Mul(factor, inv) == 1.0;
    MulAssoc(vb.width, factor, inv);
    MulAssoc(vb.height, factor, inv);
  }

  /** The canvas size for `ratio` in the available area
      (`handleSetAspectRatio`): the whole area for `Screen`; otherwise the
      full width, or the full height when the full width would be too tall,
      with the other side in proportion. */
  method FitCanvas(ratio: AspectRatio, availableWidth: real, availableHeight: real) returns (size: Size)
    requires ratio.Ratio? ==> ratio.w > 0.0 && ratio.h > 0.0
    ensures ratio.Screen? ==> size == Size(availableWidth, availableHeight)
    ensures ratio.Ratio? ==>
      size.width <= availableWidth && size.height <= availableHeight &&
      Mul(size.width, ratio.h) == Mul(size.height, ratio.w) &&
      (size.width == availableWidth || size.height == availableHeight)
  {
    if ratio.Screen? {
      return Size(availableWidth, availableHeight);
    }
    var w, h := ratio.w, ratio.h;
    var newWidth := availableWidth;
    var newHeight := (availableWidth * h) / w;
    ProportionalSide(availableWidth, h, w);
    if newHeight > availableHeight {
      FitHeight(availableWidth, availableHeight, w, h);
      newHeight := availableHeight;
      newWidth := (availableHeight * w) / h;
    }
    size := Size(newWidth, newHeight);
  }

  /** `(a * h) / w` is the side in proportion `h : w` to `a`. */
  lemma ProportionalSide(a: real, h: real, w: real)
    requires w > 0.0
    ensures Mul(a, h) == Mul((a * h) / w, w)
  {
  }

  /** When the full width is too tall, the width that fits the full height
      is less than the full width and in proportion. */
  lemma FitHeight(aw: real, ah: real, w: real, h: real)
    requires w > 0.0 && h > 0.0 && (aw * h) / w > ah
    ensures (ah * w) / h < aw
    ensures Mul((ah * w) / h, h) == Mul(ah, w)
  {
    MulStrict(ah, (aw * h) / w, w);
    assert Mul((aw * h) / w, w) == aw * h;
    assert Mul(ah, w) < Mul(aw, h);
    MulComm(ah, w);
    assert Mul((ah * w) / h, h) == Mul(ah, w);
    if (ah * w) / h >= aw {
      MulLe(aw, (ah * w) / h, h);
      assert false;
    }
  }

  // ---------------------------------------------------------------------
  // The application

  class StickFigureApp {
    var figures: seq<Figure>
    var selectedId: Option<Id>
    var library: seq<SavedPose>
    var viewBox: Box
    var canvasSize: Size
    var aspectRatio: AspectRatio

    /** Between one and `MaxFigures` figures, with distinct ids. */
    predicate Valid()
      reads this
    {
      1 <= |figures| <= MaxFigures && UniqueKeys(figures, FigureId)
    }

    /** The first figure at the initial pose, selected; an empty library;
        the default viewBox and canvas. */
    constructor(id: Id, color: Color)
      ensures Valid()
      ensures figures == [Figure(id, InitialPose, color)] && selectedId == Some(id)
      ensures library == [] && viewBox == DefaultViewBox
      ensures canvasSize == Size(500.0, 500.0) && aspectRatio == Screen
    {
      figures := [Figure(id, InitialPose, color)];
      selectedId := Some(id);
      library := [];
      viewBox := DefaultViewBox;
      canvasSize := Size(500.0, 500.0);
      aspectRatio := Screen;
    }

    /** The library as first loaded: the stored entries, or the built-in
        poses when nothing usable is stored. */
    method LoadLibrary(stored: Option<seq<SavedPose>>)
      modifies this
      ensures library == if stored.Some? then stored.value else DefaultPoses
      ensures figures == old(figures) && selectedId == old(selectedId)
      ensures viewBox == old(viewBox) && canvasSize == old(canvasSize) && aspectRatio == old(aspectRatio)
    {
      library := if stored.Some? then stored.value else DefaultPoses;
    }

    /** Selects a figure, or none (`onSelectFigure`). */
    method SelectFigure(id: Option<Id>)
      modifies this
      ensures selectedId == id
      ensures figures == old(figures) && library == old(library)
      ensures viewBox == old(viewBox) && canvasSize == old(canvasSize) && aspectRatio == old(aspectRatio)
    {
      selectedId := id;
    }

    /** Adds a figure and selects it, unless the canvas is full. The new
        figure is the initial pose moved right by 40 per existing figure,
        in the first palette colour no figure uses. */
    method AddFigure(newId: Id)
      requires Valid()
      requires forall i :: 0 <= i < |figures| ==> figures[i].id != newId
      modifies this
      ensures Valid()
      ensures |old(figures)| >= MaxFigures ==> figures == old(figures) && selectedId == old(selectedId)
      ensures |old(figures)| < MaxFigures ==>
        figures == old(figures) + [Figure(newId,
                                          SpawnPose(|old(figures)|),
                                          PickColor(old(figures)))] &&
        selectedId == Some(newId)
      ensures library == old(library)
      ensures viewBox == old(viewBox) && canvasSize == old(canvasSize) && aspectRatio == old(aspectRatio)
    {
      if |figures| < MaxFigures {
        var newFigure := NewFigure(figures, newId);
        UniqueAppend(figures, FigureId, newFigure);
        figures := figures + [newFigure];
        selectedId := Some(newId);
      }
    }

    /** Deletes the selected figure, unless it is the last one or nothing
        is selected, and selects the first remaining figure. */
    method DeleteSelectedFigure()
      requires Valid()
      modifies this
      ensures Valid()
      ensures |old(figures)| <= 1 || old(selectedId).None? ==>
        figures == old(figures) && selectedId == old(selectedId)
      ensures |old(figures)| > 1 && old(selectedId).Some? ==>
        figures == FilterOut(old(figures), FigureId, old(selectedId).value) &&
        selectedId == Some(figures[0].id) &&
        Editor.Reselect(figures, selectedId) == Editor.Keep
      ensures library == old(library)
      ensures viewBox == old(viewBox) && canvasSize == old(canvasSize) && aspectRatio == old(aspectRatio)
    {
      if |figures| <= 1 || selectedId.None? {
        return;
      }
      var newFigures := FilterOut(figures, FigureId, selectedId.value);
      FilterOutUniqueLength(figures, FigureId, selectedId.value);
      FilterOutUnique(figures, FigureId, selectedId.value);
      figures := newFigures;
      selectedId := Some(newFigures[0].id);
    }

    /** Replaces the pose of the figure with id `figureId`
        (`onPoseChange`). */
    method HandlePoseChange(figureId: Id, newPose: Pose)
      requires Valid()
      modifies this
      ensures Valid()
      ensures figures == ReplacePose(old(figures), figureId, newPose)
      ensures selectedId == old(selectedId) && library == old(library)
      ensures viewBox == old(viewBox) && canvasSize == old(canvasSize) && aspectRatio == old(aspectRatio)
    {
      figures := ReplacePose(figures, figureId, newPose);
    }

    /** Applies a library pose to the selected figure, placing it on the
        figure's pelvis; nothing happens without a selected figure. */
    method HandleApplyPose(pose: Pose)
      requires Valid()
      modifies this
      ensures Valid()
      ensures old(selectedId).None? || Find(old(figures), old(selectedId).value).None? ==>
        figures == old(figures)
      ensures old(selectedId).Some? && Find(old(figures), old(selectedId).value).Some? ==>
        var id := old(selectedId).value;
        figures == ReplacePose(old(figures), id, Applied(pose, Find(old(figures), id).value.pose))
      ensures selectedId == old(selectedId) && library == old(library)
      ensures viewBox == old(viewBox) && canvasSize == old(canvasSize) && aspectRatio == old(aspectRatio)
    {
      if selectedId.None? {
        return;
      }
      var selectedFigure := Find(figures, selectedId.value);
      if selectedFigure.None? {
        return;
      }
      var newPose := ApplyNormalizedPose(pose, selectedFigure.value.pose);
      HandlePoseChange(selectedId.value, newPose);
    }

    /** Saves the selected figure's pose, normalised, as a new library
        entry; nothing happens without a selected figure. */
    method HandleSavePose(newId: Id)
      requires forall e :: e in library ==> e.id != newId
      modifies this
      ensures old(selectedId).None? || Find(figures, old(selectedId).value).None? ==>
        library == old(library)
      ensures old(selectedId).Some? && Find(figures, old(selectedId).value).Some? ==>
        library == old(library) + [SavedPose(newId, Normalized(Find(figures, old(selectedId).value).value.pose), None)]
      ensures figures == old(figures) && selectedId == old(selectedId)
      ensures viewBox == old(viewBox) && canvasSize == old(canvasSize) && aspectRatio == old(aspectRatio)
    {
      var selectedFigure := if selectedId.Some? then Find(figures, selectedId.value) else None;
      if selectedFigure.None? {
        return;
      }
      var normalized := NormalizePose(selectedFigure.value.pose);
      library := library + [SavedPose(newId, normalized, None)];
    }

    /** Removes the library entries with id `poseId`. */
    method HandleDeletePose(poseId: Id)
      modifies this
      ensures library == FilterOut(old(library), EntryId, poseId)
      ensures figures == old(figures) && selectedId == old(selectedId)
      ensures viewBox == old(viewBox) && canvasSize == old(canvasSize) && aspectRatio == old(aspectRatio)
    {
      library := FilterOut(library, EntryId, poseId);
    }

    /** Scales the viewBox about its centre. */
    method HandleZoom(factor: real)
      modifies this
      ensures viewBox == Zoom(old(viewBox), factor)
      ensures figures == old(figures) && selectedId == old(selectedId) && library == old(library)
      ensures canvasSize == old(canvasSize) && aspectRatio == old(aspectRatio)
    {
      viewBox := Zoom(viewBox, factor);
    }

    /** Restores the default viewBox. */
    method ResetZoom()
      modifies this
      ensures viewBox == DefaultViewBox
      ensures figures == old(figures) && selectedId == old(selectedId) && library == old(library)
      ensures canvasSize == old(canvasSize) && aspectRatio == old(aspectRatio)
    {
      viewBox := DefaultViewBox;
    }

    /** Sizes the canvas for `ratio` inside the measured container, less its
        padding; with no container to measure, nothing changes. */
    method HandleSetAspectRatio(ratio: AspectRatio, container: Option<Size>)
      requires ratio.Ratio? ==> ratio.w > 0.0 && ratio.h > 0.0
      modifies this
      ensures container.None? ==> canvasSize == old(canvasSize) && aspectRatio == old(aspectRatio)
      ensures container.Some? ==> aspectRatio == ratio
      ensures container.Some? && ratio.Screen? ==>
        canvasSize == Size(container.value.width - ContainerPadding, container.value.height - ContainerPadding)
      ensures container.Some? && ratio.Ratio? ==>
        var availableWidth := container.value.width - ContainerPadding;
        var availableHeight := container.value.height - ContainerPadding;
        canvasSize.width <= availableWidth && canvasSize.height <= availableHeight &&
        (canvasSize.width == availableWidth || canvasSize.height == availableHeight) &&
        Mul(canvasSize.width, ratio.h) == Mul(canvasSize.height, ratio.w)
      ensures figures == old(figures) && selectedId == old(selectedId) && library == old(library)
      ensures viewBox == old(viewBox)
    {
      if container.None? {
        return;
      }
      var availableWidth := container.value.width - ContainerPadding;
      var availableHeight := container.value.height - ContainerPadding;
      canvasSize := FitCanvas(ratio, availableWidth, availableHeight);
      aspectRatio := ratio;
    }
  }
}
