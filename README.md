# Stick-figure pose editor — a Dafny model

This project models the pose-editing core of a browser stick-figure editor.
A figure is a skeleton of sixteen named joints. The user poses it with the
pointer in four ways:
- drag a joint, with group moves, carried dependents and radius clamping;
- scale the whole figure about the centre of its bounding box;
- move the whole figure;
- select joints with a rectangle.

Poses can be saved to a library relative to the pelvis and applied back onto
any figure. The application around the editor does four more things:
- keeps up to five figures and which one is selected;
- keeps the library;
- zooms the SVG viewBox;
- fits the canvas to an aspect ratio.

Coordinates are `real`. The square root the source takes from `Math.sqrt` is
a function the host supplies. It is characterised by `IsSqrt`: for every
`x >= 0`, `sqrt(x) >= 0` and `sqrt(x) * sqrt(x) == x`.

Modules, leaf first:

- `Types` (types.dfy): points, the closed set of joint names, the total pose
  record, limbs, figures, library entries, and `Find` (the first figure with
  an id).
- `RealArith` (arith.dfy): named products and small facts about them. The
  non-linear proofs are built from these.
- `EditorGeometry` (editor_geometry.dfy): minima and maxima, the bounding
  box, its centre, squared distance, and the `IsSqrt` facts.
- `EditorTransforms` (editor_transforms.dfy): the pose transforms as
  functions:
  - translation and scaling about a point;
  - the joint drag: the affected set, the shift, the radius table and the
    clamp;
  - the joints inside a selection rectangle.
- `Editor` (editor.dfy): the editor component. It is a class holding the
  five interaction slots, with `MouseDown`, `MouseMove` and `MouseUp`. The
  loops that build poses are methods proved equal to the transform
  functions. The module also has the selection repair run after every
  change of the figures.
- `Thumbnail` (thumbnail.dfy): the library thumbnail's box, with a minimum
  size of 20, and its viewBox padded by 40.
- `Constants` (constants.dfy): the initial pose, the 14 limbs, the two
  built-in library poses and the five-colour palette.
- `PoseLibrary` (pose_library.dfy): normalising a pose to its pelvis, and
  applying a normalised pose at a figure's pelvis.
- `App` (app.dfy): the application. It is a class holding the figures, the
  selected id, the library, the viewBox, the canvas size and the aspect
  ratio. The module also has the list helpers, the colour choice for a new
  figure, the zoom and the aspect-ratio fit.
- `Scenarios` (scenarios.dfy): worked instances on the built-in poses.

The editor receives each event already converted to logical coordinates,
with the hit target as a value (`Target`). It does not call the
application's callbacks. Instead, it returns what it would have passed to
them: a `PoseChange` from `MouseMove`, and a `Selection` (`Keep`, or
`Select(id)`) from `MouseDown` and `MouseUp`.

Two behaviours of the code are worth stating plainly:
- Dragging the neck or the pelvis carries its dependents in a group drag
  too, not only in a lone drag: the dependents are added to the joints to
  move after the multi-selection is taken
  (components/StickFigureEditor.tsx:149-160).
- The application's pose deletion (`HandleDeletePose`) removes entries of
  any id, defaults included (App.tsx:240-244). Default entries are only
  protected by the library panel, which shows no delete button for them
  (components/PoseLibraryPanel.tsx:67).

`MouseUp` states the click threshold of 5 on the squared distance (25).
This is equivalent to the source's comparison of the square root with 5,
and `SqrtCompare` proves the equivalence.

When fewer than five figures exist, some palette colour is always unused
(`PickColorFirstUnused`). So the colour-cycling fallback of `addFigure` can
never be reached while the figure cap holds. The fallback is still modelled
as written.

## Model

| member | source | states |
|---|---|---|
| Types.AllJointsComplete | types.ts:7-23 | `AllJoints` lists 16 joint names, every joint name occurs in it, and no name occurs twice |
| Types.JointSetComplete | types.ts:7-23 | the set of joint names holds every joint and has exactly 16 members |
| Types.Pose.Set | types.ts:25 | setting one joint gives it the new point and leaves every other joint unchanged |
| Types.ValuesCover | types.ts:25 | every joint's point occurs in the pose's list of values (`Object.values`) |
| Types.PoseExt | types.ts:25 | a pose is determined by its points: two poses that agree on every joint are equal |
| Types.Find | components/StickFigureEditor.tsx:72 | a figure is found exactly when some figure has the id; the result has that id and is the first such figure in the list |
| EditorGeometry.Min | components/StickFigureEditor.tsx:9-10 | the result is an element of the list and no element is smaller |
| EditorGeometry.Max | components/StickFigureEditor.tsx:11-12 | the result is an element of the list and no element is larger |
| EditorGeometry.BoundingBox | components/StickFigureEditor.tsx:6-14 | width and height are at least 0; every point is inside; each of the four edges touches a point; an empty list gives (0, 0, 0, 0) |
| EditorGeometry.PoseBox | components/StickFigureEditor.tsx:6-14 | every joint of the pose lies inside its box, whose sides are at least 0 |
| EditorGeometry.Center | components/StickFigureEditor.tsx:16-18 | the centre is equally far from the left and right edges, and from the top and bottom edges |
| EditorGeometry.CenterInside | components/StickFigureEditor.tsx:16-18 | the centre of a box with non-negative size lies inside it |
| EditorGeometry.DistSq | components/StickFigureEditor.tsx:222 | the squared distance is at least 0, and it is 0 exactly when the points coincide |
| EditorGeometry.SqrtCompare | components/StickFigureEditor.tsx:172-173 | comparing `sqrt(x)` with a bound `m` is comparing `x` with `m * m`; `sqrt(x)` is 0 exactly when `x` is |
| EditorGeometry.SqrtOfSquare | components/StickFigureEditor.tsx:172 | the square root of `a * a` is `a`, for `a >= 0` |
| EditorGeometry.DistOfSquare | components/StickFigureEditor.tsx:172 | two points whose squared distance is `a * a` are at distance `a`, for `a >= 0` |
| EditorTransforms.Translate | components/StickFigureEditor.tsx:128-139 | the move gesture's pose: every joint moved by one offset; `TranslateGet` gives each joint, `TranslateZero`, `TranslateInverse` and `TranslateRigid` state identity, inverse and rigidity |
| EditorTransforms.TranslateGet | components/StickFigureEditor.tsx:133-139 | a translation moves every joint by the same vector |
| EditorTransforms.TranslateZero | components/StickFigureEditor.tsx:128-140 | translating by the zero vector gives the same pose |
| EditorTransforms.TranslateInverse | components/StickFigureEditor.tsx:128-140 | translating by a vector and then by its opposite gives the original pose |
| EditorTransforms.TranslateRigid | components/StickFigureEditor.tsx:128-140 | a translation keeps the vector between any two joints |
| EditorTransforms.ScaleAbout | components/StickFigureEditor.tsx:199-211 | the scale gesture's pose: every joint scaled by one factor about the centre; `ScaleGet` gives each joint, `ScaleOne`, `ScaleCompose`, `ScaleInverse` and `ScaleFixesCenter` state its algebra |
| EditorTransforms.ScaleGet | components/StickFigureEditor.tsx:201-210 | scaling puts every joint at `center + (joint − center) * factor` |
| EditorTransforms.ScaleOne | components/StickFigureEditor.tsx:192-211 | scaling by 1 about any centre gives the same pose |
| EditorTransforms.ScaleCompose | components/StickFigureEditor.tsx:192-211 | scaling by `a` and then by `b` about one centre is scaling by `a * b` |
| EditorTransforms.ScaleInverse | components/StickFigureEditor.tsx:192-211 | scaling by `k != 0` and then by `1/k` about the same centre gives the original pose |
| EditorTransforms.ScaleFixesCenter | components/StickFigureEditor.tsx:204-208 | a joint at the centre stays there at every factor |
| EditorTransforms.Dependents | components/StickFigureEditor.tsx:155-160 | the joints carried by the neck (head, shoulders) and the pelvis (hips); `DragNeckCarries` and `DragPelvisCarries` state that they move with it |
| EditorTransforms.Affected | components/StickFigureEditor.tsx:149-160 | the joints a drag moves: the multi-selection when it has more than one joint and holds the dragged one, else the joint alone, plus its dependents; `AffectedContains` and `AffectedLone` characterise it |
| EditorTransforms.AffectedContains | components/StickFigureEditor.tsx:150-160 | the dragged joint and its dependents are always affected, and so is the whole multi-selection when it holds the joint and has more than one member |
| EditorTransforms.AffectedLone | components/StickFigureEditor.tsx:150-160 | exactly one joint is affected if and only if the drag is not a group drag and the joint is neither the neck nor the pelvis; that joint is then the dragged one |
| EditorTransforms.ConstraintOf | components/StickFigureEditor.tsx:182-188 | the parent and radius of each constrained joint; `ConstraintTable` lists them |
| EditorTransforms.ConstraintTable | components/StickFigureEditor.tsx:182-188 | every radius is positive, and no joint is its own parent; every parent is itself unconstrained |
| EditorTransforms.Constrain | components/StickFigureEditor.tsx:169-180 | the inner `constrain`; `ConstrainSpec` states what it returns inside, on and beyond the radius |
| EditorTransforms.ConstrainSpec | components/StickFigureEditor.tsx:169-180 | `constrain`'s result lies within the radius of the centre; a point already within it is returned unchanged; a point beyond it is moved exactly onto the circle of that radius; the result is on the ray from the centre through the point (cross product 0, dot product ≥ 0) |
| EditorTransforms.ConstrainWithin | components/StickFigureEditor.tsx:169-180 | the distance part of `ConstrainSpec`: within the radius, unchanged inside it, exactly at the radius from outside it |
| EditorTransforms.DragPose | components/StickFigureEditor.tsx:141-190 | the pose emitted by a joint drag; `DragKeepsUnaffected`, `DragGroupRigid`, `DragLoneFree`, `DragLoneClamped` and `DragLoneTarget` state each joint's result |
| EditorTransforms.DragKeepsUnaffected | components/StickFigureEditor.tsx:147-164 | every joint outside the affected set keeps its snapshot position |
| EditorTransforms.DragGroupRigid | components/StickFigureEditor.tsx:162-167 | when more than one joint is affected, each moves by the dragged joint's offset to the pointer, with no clamping |
| EditorTransforms.DragLoneFree | components/StickFigureEditor.tsx:162-189 | a lone drag of an unconstrained joint puts it exactly on the pointer |
| EditorTransforms.DragLoneClamped | components/StickFigureEditor.tsx:166-189 | a lone drag of the head, a shoulder or a hip leaves the parent in place and ends within the radius (40, 50, 30); it is exactly on the pointer when the pointer is within the radius, and exactly at the radius from the parent when the pointer is beyond it |
| EditorTransforms.ClampJointSpec | components/StickFigureEditor.tsx:182-188 | placing a constrained joint on a point and clamping it leaves the parent unchanged and the joint within the radius: on the point when the point is within the radius, exactly at the radius otherwise |
| EditorTransforms.DragLoneTarget | components/StickFigureEditor.tsx:166-189 | a lone drag of a constrained joint puts it where `constrain` sends the pointer about the parent's snapshot position, with a positive radius |
| EditorTransforms.DragLoneShape | components/StickFigureEditor.tsx:162-189 | a lone drag is the joint set onto the pointer, followed by the clamp |
| EditorTransforms.ShiftOne | components/StickFigureEditor.tsx:162-164 | shifting only the dragged joint by its offset to the pointer puts it on the pointer |
| EditorTransforms.ShiftSetGet | components/StickFigureEditor.tsx:162-164 | a shifted joint moves by the offset; any other joint keeps its point |
| EditorTransforms.SetGet | components/StickFigureEditor.tsx:183-187 | writing one joint of the pose does not change the others |
| EditorTransforms.SetSet | components/StickFigureEditor.tsx:183-187 | a second write to a joint replaces the first |
| EditorTransforms.DragNeckCarries | components/StickFigureEditor.tsx:155-157 | dragging the neck puts it on the pointer and moves the head and both shoulders by the same offset, with or without a multi-selection |
| EditorTransforms.DragPelvisCarries | components/StickFigureEditor.tsx:158-160 | dragging the pelvis puts it on the pointer and moves both hips by the same offset, with or without a multi-selection |
| EditorTransforms.JointsInBox | components/StickFigureEditor.tsx:228-236 | the joints the rectangle selects; `JointsInBoxSpec` and `JointsInBoxSymmetric` characterise it |
| EditorTransforms.JointsInBoxSpec | components/StickFigureEditor.tsx:228-236 | a joint is selected if and only if it lies inside the rectangle spanned by the two corners, edges included |
| EditorTransforms.SelectionRect | components/StickFigureEditor.tsx:357-360 | the drawn rectangle from the min corner with absolute extents; `SelectionRectCorners` states it spans exactly the two corners |
| EditorTransforms.SelectionRectCorners | components/StickFigureEditor.tsx:357-360 | the rectangle has non-negative sides, runs from the smaller to the larger coordinate of its corners, and contains both corners |
| EditorTransforms.JointsInBoxSymmetric | components/StickFigureEditor.tsx:228-231 | swapping the two corners selects the same joints |
| Editor.TranslatePose | components/StickFigureEditor.tsx:130-139 | the loop builds the translation of the snapshot by the pointer's offset |
| Editor.ScalePose | components/StickFigureEditor.tsx:200-210 | the loop builds the snapshot scaled about the centre by the factor |
| Editor.ShiftJoints | components/StickFigureEditor.tsx:162-164 | the `forEach` moves exactly the joints to update by the offset |
| Editor.DragJoints | components/StickFigureEditor.tsx:142-189 | the drag branch builds the pose that `DragPose` specifies: the affected set shifted, then a lone joint clamped |
| Editor.ClampMoved | components/StickFigureEditor.tsx:182-188 | the if-chain of `constrain` calls is the constraint table's clamp of the moved joint |
| Editor.StickFigureEditor.constructor | components/StickFigureEditor.tsx:47-51 | a new editor has no gesture in progress and no selected joints |
| Editor.StickFigureEditor.MouseDown | components/StickFigureEditor.tsx:63-122 | the first match wins: move handle, then joint, then scale handle, then body, then canvas. Each branch's snapshot, joint selection and figure selection are stated, including a Shift toggle of the joint, collapse to the joint unless it is already selected, and a canvas press clearing the joints. From idle, at most one gesture slot is set |
| Editor.StickFigureEditor.MouseMove | components/StickFigureEditor.tsx:124-216 | the emitted pose is the move's translation, the drag's `DragPose`, or the scale about the centre by `ScaleFactor`. A zero start distance emits nothing; otherwise the selection rectangle follows the pointer. No snapshot changes, and at most one gesture stays in progress |
| Editor.StickFigureEditor.MouseUp | components/StickFigureEditor.tsx:218-250 | every gesture slot is cleared. A rectangle with squared diagonal ≤ 25 deselects the figure; a longer one selects exactly the selected figure's joints inside it |
| Editor.Reselect | components/StickFigureEditor.tsx:262-266 | the selection is repaired exactly when the selected id names no figure; it then goes to the first figure, or to none when there are no figures |
| Editor.ReselectSettles | components/StickFigureEditor.tsx:262-266 | a repaired selection needs no further repair |
| Editor.ScaleFactor | components/StickFigureEditor.tsx:194-198 | the factor is at least 0; it is 1 exactly when the pointer is as far from the centre as the press point was; its square times the press point's squared distance from the centre is the pointer's squared distance, so it is `distCurrent / distStart` |
| Editor.ScaleReachesPointer | components/StickFigureEditor.tsx:194-211 | scaling the snapshot by the factor puts a joint that sat on the press point as far from the centre as the pointer |
| Editor.ScaledDist | components/StickFigureEditor.tsx:203-209 | a point scaled by k about a centre has k² times its squared distance from it |
| Editor.ScaleAtPressPoint | components/StickFigureEditor.tsx:192-211 | with the pointer back at the press point, the scale reproduces the snapshot |
| Editor.MoveAtPressPoint | components/StickFigureEditor.tsx:128-140 | with the pointer back at the press point, the move reproduces the snapshot |
| Thumbnail.ThumbnailBox | components/StickFigureThumbnail.tsx:5-37 | width and height are at least 20. An empty list gives (0, 0, 100, 100). Otherwise the box keeps the centre of the plain bounding box; an axis shorter than 20 becomes exactly 20 long, an axis already 20 or longer keeps its exact extent; every point is inside |
| Thumbnail.ThumbnailViewBox | components/StickFigureThumbnail.tsx:47-52 | the viewBox is the thumbnail box padded by exactly 40 on every side, (x − 40, y − 40, w + 80, h + 80); it is at least 100 in each direction, and every joint lies at least 40 inside each of its edges |
| Constants.InitialPelvis | constants.ts:3-20 | the initial pose has its pelvis at (250, 240) |
| Constants.LimbTopology | constants.ts:22-42 | there are 14 limbs; the head is an end of none of them; no limb joins a joint to itself |
| Constants.EveryJointDrawn | constants.ts:22-42 | a joint is an end of some limb if and only if it is not the head |
| Constants.DefaultPosesShape | constants.ts:44-90 | there are two built-in poses; both have the pelvis at the origin and are marked as defaults; their ids differ |
| Constants.PaletteDistinct | constants.ts:92-98 | the palette has five pairwise different colours |
| PoseLibrary.NormalizePose | App.tsx:19-30 | the loop subtracts the pelvis from every joint; the result is `Normalized(pose)` |
| PoseLibrary.ApplyNormalizedPose | App.tsx:32-43 | the loop adds the target's pelvis to every joint; the result is `Applied(pose, target)` |
| PoseLibrary.Normalized | App.tsx:19-30 | the pose moved so its pelvis is at the origin; `NormalizedSpec`, `NormalizeIdempotent` and the round-trip lemmas characterise it |
| PoseLibrary.Applied | App.tsx:32-43 | a stored pose placed on the target's pelvis; `AppliedPelvis` and the round-trip lemmas characterise it |
| PoseLibrary.NormalizedSpec | App.tsx:19-30 | a normalised pose has its pelvis at the origin, and every joint is its offset from the original pelvis |
| PoseLibrary.ApplyNormalizedRoundTrip | App.tsx:19-43 | applying the normalised form of a pose at that pose's pelvis gives the pose back |
| PoseLibrary.NormalizeAppliedRoundTrip | App.tsx:19-43 | normalising an applied pose recovers the stored pose if and only if the stored pose was normalised |
| PoseLibrary.NormalizeApplied | App.tsx:19-43 | for a normalised stored pose, normalising after applying recovers it |
| PoseLibrary.NormalizedFixed | App.tsx:19-30 | a pose with its pelvis at the origin is unchanged by normalising |
| PoseLibrary.AppliedPelvis | App.tsx:32-43 | applying a normalised pose puts the pelvis on the target's pelvis and keeps every joint's offset from it |
| PoseLibrary.NormalizeIdempotent | App.tsx:19-30 | normalising twice is normalising once |
| PoseLibrary.DefaultsNormalized | constants.ts:44-90 | the built-in poses are unchanged by normalising |
| App.FilterOut | App.tsx:154 | an element is kept if and only if it was there and its key differs from the id; the result is no longer |
| App.FilterOutCount | App.tsx:154 | an element with the id occurs no more; every other element occurs exactly as often as before |
| App.FilterOutConcat | App.tsx:154 | filtering a concatenation is the concatenation of the filtered parts, so the kept elements stay in their order |
| App.FilterOutAbsent | App.tsx:241 | removing an id that no element has changes nothing |
| App.FilterOutOne | App.tsx:154 | when one element has the id, removing it gives the list without that element, the rest in order |
| App.FilterOutUnique | App.tsx:154 | removal keeps ids unique |
| App.FilterOutUniqueLength | App.tsx:154 | with unique ids, removal drops at most one element |
| App.UniqueAppend | App.tsx:147 | appending an element with a fresh id keeps ids unique |
| App.ReplacePose | App.tsx:159-161 | length, order, ids and colours are kept; every figure with the id gets the new pose; every other figure is unchanged |
| App.FindAfterReplace | App.tsx:159-161 | after replacing, the figure found by the id has the new pose and its old colour |
| App.UsedColors | App.tsx:129 | the set of colours the figures use; `UsedColorsCard`, `PaletteCountCovers` and `PickColorFirstUnused` are about it |
| App.Unused | App.tsx:129-130 | a colour is listed if and only if it is in the palette and unused; the first one listed is the first unused palette colour |
| App.PaletteCount | App.tsx:137 | the number of palette-coloured figures is at most the number of figures |
| App.PickColor | App.tsx:129-139 | the new colour is always a palette colour |
| App.PaletteCountCovers | App.tsx:137 | the distinct palette colours in use never outnumber the count of palette-coloured figures |
| App.PickColorFallback | App.tsx:135-139 | the cycling fallback is taken only when every palette colour is in use; then at least five figures are counted and the colour is the palette entry at that count modulo 5 |
| App.UsedColorsCard | App.tsx:129 | a list of figures uses at most as many colours as it has figures |
| App.PickColorFirstUnused | App.tsx:119-139 | below the cap of five, the new colour is unused and is the first unused palette colour; the fallback is never taken |
| App.OffsetPose | App.tsx:124-127 | the loop moves every joint right by the offset |
| App.SpawnPose | App.tsx:122-127 | the pose of the n-th added figure; `SpawnPoseSpec` states it |
| App.SpawnPoseSpec | App.tsx:122-127 | the pose of a figure added to `n` figures is the initial pose moved right by `40n`, so its pelvis is at (250 + 40n, 240) |
| App.NewFigure | App.tsx:122-145 | the new figure has the fresh id, the initial pose moved right by 40 per existing figure, and `PickColor`'s colour |
| App.Zoom | App.tsx:209-216 | width and height are multiplied by the factor, and the centre stays where it was |
| App.ZoomInverse | App.tsx:209-216 | zooming by a factor and then by its reciprocal restores the viewBox |
| App.FitCanvas | App.tsx:170-184 | `Screen` takes the whole area. A ratio fits inside the area, keeps `width * h == height * w`, and fills the full width or the full height |
| App.FitHeight | App.tsx:180-183 | when the full width would be too tall, the width that fits the full height is narrower than the area |
| App.StickFigureApp.constructor | App.tsx:56-68 | one figure at the initial pose, selected; an empty library; viewBox (0, 0, 500, 500); canvas 500 × 500; ratio `Screen` |
| App.StickFigureApp.LoadLibrary | App.tsx:105-117 | the library is the stored list, or the built-in poses when nothing usable is stored |
| App.StickFigureApp.SelectFigure | App.tsx:65 | the selection becomes the given id or none; nothing else changes |
| App.StickFigureApp.AddFigure | App.tsx:119-150 | a no-op at five figures. Otherwise it appends exactly one figure and selects it, leaving the existing figures unchanged. Between one and five figures with unique ids is kept |
| App.StickFigureApp.DeleteSelectedFigure | App.tsx:152-157 | a no-op with one figure or no selection. Otherwise the selected figure is removed, the others are kept in order, and the first remaining figure is selected, so no repair is needed. Between one and five unique figures is kept |
| App.StickFigureApp.HandlePoseChange | App.tsx:159-161 | the figures become `ReplacePose` of the old figures; nothing else changes |
| App.StickFigureApp.HandleApplyPose | App.tsx:246-252 | a no-op without a selected figure that exists. Otherwise only the selected figure's pose changes, to the library pose applied at its pelvis |
| App.StickFigureApp.HandleSavePose | App.tsx:225-238 | a no-op without a selected figure that exists. Otherwise exactly one entry is appended: the fresh id and the normalised pose of the selected figure |
| App.StickFigureApp.HandleDeletePose | App.tsx:240-244 | the library becomes `FilterOut` of the old one by the id: the entries with the id go, the rest keep their order and multiplicity (`FilterOutCount`, `FilterOutConcat`); nothing else changes |
| App.StickFigureApp.HandleZoom | App.tsx:209-218 | the viewBox becomes `Zoom` of the old one |
| App.StickFigureApp.ResetZoom | App.tsx:220-223 | the viewBox becomes (0, 0, 500, 500) |
| App.StickFigureApp.HandleSetAspectRatio | App.tsx:163-188 | with no container, nothing changes. Otherwise the area is the container less 32 in each direction: `Screen` takes the whole area, and a ratio fits inside it in proportion, touching the width or the height |
| Scenarios.ApplyStandingAt | constants.ts:44-52 | applying the standing pose at pelvis (100, 100) gives pelvis (100, 100) and head (100, −60) |
| Scenarios.DragStandingPelvis | components/StickFigureEditor.tsx:155-164 | dragging the standing pose's pelvis to (30, 10) gives hips (5, 10) and (55, 10) and leaves every other joint unchanged |
| Scenarios.DragPelvisAt | components/StickFigureEditor.tsx:155-164 | the same for any pose with the standing pose's pelvis and hips |
| Scenarios.DragStandingHeadClamped | components/StickFigureEditor.tsx:182-183 | dragging the standing head to (0, −300) leaves it 40 above the neck, at (0, −160) |
| Scenarios.DragHeadAt | components/StickFigureEditor.tsx:182-183 | the same for any pose with the neck at (0, −120) |
| Scenarios.ClampVertical | components/StickFigureEditor.tsx:169-180 | a point `a` straight above the centre, clamped to a smaller radius `m`, lands `m` straight above the centre |
| Scenarios.VerticalDist | components/StickFigureEditor.tsx:172 | a point `a` straight above another is at distance `a` from it |
| Scenarios.SelectUpperBody | components/StickFigureEditor.tsx:228-236 | a rectangle around the top of the standing pose selects exactly the head, the neck and both shoulders |
| Scenarios.SelectShouldersOnEdge | components/StickFigureEditor.tsx:228-236 | a flat rectangle ending exactly on the shoulders selects exactly the two shoulders |
| Scenarios.SecondFigureColor | App.tsx:129-133 | the figure added next to the first one is coloured `#0891b2` |
| Scenarios.ClickOnCanvas | components/StickFigureEditor.tsx:116-121 | a press and release at one point on the empty canvas deselects the figure and leaves no joint selected |

## Left out

- `getSVGCoordinates` is not modelled: it maps screen to logical coordinates through the DOM. Events arrive in logical coordinates. An event it could not map is one the model never receives.
- Rendering, CSS, SVG filters and the theme is not modelled: the theme effect that recolours the first figure, the theme toggle, and the selection rectangle and bounding-box handles drawn on screen. The first figure's colour is a parameter of the `App.StickFigureApp` constructor.
- Storage is not modelled: `localStorage` reads and writes, `JSON.parse` and `JSON.stringify`, `alert`, and the save and zoom notifications with their timers. `App.StickFigureApp.LoadLibrary` takes the parsed stored list as an `Option`. `None` stands for a missing, unreadable or failed load.
- `crypto.randomUUID` is not modelled: fresh ids are parameters, and a `requires` says they are fresh.
- `getBoundingClientRect` and the window-resize listener are not modelled: the measured container is a parameter (`Option<Size>`).
- The aspect-ratio strings are not parsed. `AspectRatio` holds the two numbers, and the `requires` asks for positive parts, as in every ratio the interface offers.
- The wheel handler (`handleWheel`) is not modelled: it only picks a factor of 0.9 or 1.1 under Ctrl or Meta and passes it on. `App.Zoom` models the zoom itself.
- The viewBox is kept as four numbers, so no string formatting or splitting is modelled. The zoom percentage display is not modelled.
- The library panel (components/PoseLibraryPanel.tsx) is not part of this model.
- IEEE floating point is not modelled: arithmetic is exact on `real`, and `Math.sqrt` is a host function characterised by `IsSqrt`.
- Empty-string ids are not modelled: the source tests the selected id for truthiness, and the model treats every present id as a selection. Ids from `crypto.randomUUID` are never empty.
- React batches state updates. The model applies each handler's updates at once, before the next event. This matches the order in which the source's handlers see the state.
- State changes in place are modelled on values: figures, library and the joint selection are immutable values that the class fields hold and reassign. This matches the source's copy-on-update style.
