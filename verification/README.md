# Snappy Ruler Set — a Dafny model of the drawing core

Snappy Ruler Set is an Android drawing app with virtual geometry instruments:
a ruler, a set-square, a protractor and a compass. The pen snaps to nearby
points, to common angles and to a millimetre grid. This project models the
core of the app as pure Dafny functions over immutable values, and proves
properties of that model.

- **History** (`history.dfy`) is the generic bounded undo/redo history
  `UndoRedo<T>`. It proves round trips, eviction of the oldest entry past the
  capacity, and a "timeline" view. In that view undo and redo only move a
  cursor over a fixed sequence of snapshots.
- **DrawingState** (`drawing_state.dfy`) holds the UI state and the instrument
  records, with the defaults of their constructors.
- **ViewModel** (`view_model.dfy`) models the drawing session
  (`DrawingViewModel`). It covers tool selection, the instrument transforms,
  the pen-stroke gestures, undo/redo with a 20-entry history, calibration and
  unit conversion, and the zoom-dependent snap radius. Messages the session
  would emit on a flow are returned as a `Notice`.
- **DomainSnap** (`domain_snap.dfy`) models the `domain.snap.SnapEngine`
  class. It combines the point, grid and angle candidates by strict distance
  comparisons in evaluation order. It also models `snapAngle` and `normDeg`.
- **UtilSnap** (`util_snap.dfy`) models the `utils.SnapEngine` object. It
  covers candidate generation (vertices, midpoints, pairwise line
  intersections, instrument anchors), the nearest-within-radius pick, grid
  rounding, common-angle snapping, and the closest-wins combination
  `snapPointToAll`.
- **Geometry** (`geometry.dfy`) holds the shared vocabulary: points, lines
  and polylines; squared distances; Kotlin's floating `%`; the two rounding
  functions; the list of common angles; and first-minimum selection.

### Number model

- **Floats.** Float and Double values are modelled as exact reals.
- **Distances.** A distance test `hypot(...) <= r` becomes
  `Within(a, b, r)`, that is `r >= 0 && DistSq(a, b) <= r * r`. This is
  equivalent for exact values. A distance comparison `d1 < d2` becomes a
  comparison of squared distances.
- **Remainder.** Kotlin's `%` on floating values truncates (the result keeps
  the sign of the dividend). `FMod` models it explicitly.
- **Rounding.**
  - `kotlin.math.round` rounds half to even; `RoundHalfEven` models it.
  - `roundToInt` rounds half up; `RoundHalfUp` models it.
- **Trigonometry.** `atan2`, `sin`, `cos` and the rotation helper are
  uninterpreted functions passed in a `Trig` record. The contracts are
  stated in terms of them.

### Behaviour of the code worth knowing

- **Domain tie-break order.** On distance ties the domain engine keeps
  Point, then Grid, then Angle, because each later candidate must be
  strictly closer than the best so far
  (app/src/main/java/com/tarun/snappyrulerset/domain/snap/SnapEngine.kt:44-60).
- **Domain point pick.** The domain engine keeps the LAST point within the
  radius, not the nearest one, because the loop overwrites the pick on
  every hit (app/src/main/java/com/tarun/snappyrulerset/domain/snap/SnapEngine.kt:33-37; `DomainSnap.LastWithin`).
- **Calibration.** `calibrate` divides by the given length with no guard
  against a zero or negative length
  (app/src/main/java/com/tarun/snappyrulerset/presentation/viewmodel/DrawingViewModel.kt:245-247).
- **Line intersection.** `lineIntersection` rejects only an exactly zero
  determinant, with no epsilon (app/src/main/java/com/tarun/snappyrulerset/utils/SnapEngine.kt:125-131).
- **Set-square variant.** `SetSquareState` stores the variant as a boolean
  `variant45` whose default is true (app/src/main/java/com/tarun/snappyrulerset/domain/model/state/SetSquareState.kt:8),
  while `updateSetSquareVariant` copies a field named `variant`
  (app/src/main/java/com/tarun/snappyrulerset/presentation/viewmodel/DrawingViewModel.kt:207-208). The model uses one
  enumerated field `variant` whose default is `Deg45`.

## Model

| member | source | states |
|---|---|---|
| `Geometry.FMod` | app/src/main/java/com/tarun/snappyrulerset/utils/SnapEngine.kt:116 | the float `%` by a positive modulus: magnitude below the modulus, the sign of the dividend, and a whole number of moduli away from it |
| `Geometry.RoundHalfEven` | app/src/main/java/com/tarun/snappyrulerset/domain/snap/SnapEngine.kt:41-42 | `round`: the integer within one half of the value, the even one when the value lies exactly halfway |
| `Geometry.RoundHalfUp` | app/src/main/java/com/tarun/snappyrulerset/utils/SnapEngine.kt:57-58 | `roundToInt`: the integer `n` with `n - 1/2 <= v < n + 1/2`, so halves go up |
| `Geometry.FirstMin` | app/src/main/java/com/tarun/snappyrulerset/utils/SnapEngine.kt:48-49 | `minByOrNull`: an index whose key is no larger than any other, and strictly smaller than every key before it |
| `History.Empty` | app/src/main/java/com/tarun/snappyrulerset/utils/UndoRedo.kt:3-5 | a new history has both stacks empty and the given capacity |
| `History.Push` | app/src/main/java/com/tarun/snappyrulerset/utils/UndoRedo.kt:7-11 | push clears redo; the undo stack is `undo + [s]` with exactly its front element dropped when it outgrows the capacity; the pushed value is on top; the capacity bound is kept |
| `History.Undo` | app/src/main/java/com/tarun/snappyrulerset/utils/UndoRedo.kt:13-17 | empty undo stack: no value and nothing changes; otherwise the top is returned and removed, and the caller's current value goes on the redo stack |
| `History.Redo` | app/src/main/java/com/tarun/snappyrulerset/utils/UndoRedo.kt:19-24 | mirror of undo; the capacity bound on both stacks together is kept |
| `History.UndoThenRedo` | app/src/main/java/com/tarun/snappyrulerset/utils/UndoRedo.kt:13-24 | a successful undo followed by a redo restores the history and hands back the original current value |
| `History.RedoThenUndo` | app/src/main/java/com/tarun/snappyrulerset/utils/UndoRedo.kt:13-24 | a successful redo followed by an undo restores the history and the current value |
| `History.PushAllKeepsNewest` | app/src/main/java/com/tarun/snappyrulerset/utils/UndoRedo.kt:7-11 | any run of pushes leaves exactly the `capacity` most recent entries, oldest first, and an empty redo stack |
| `History.OverflowEvictsOldest` | app/src/main/java/com/tarun/snappyrulerset/utils/UndoRedo.kt:9 | pushing `capacity + extra` values into an empty history evicts exactly the first `extra` |
| `History.UndoMovesCursorBack` | app/src/main/java/com/tarun/snappyrulerset/utils/UndoRedo.kt:13-17 | a successful undo keeps the timeline (undo stack, current value, redo stack top first) and moves the cursor one step back |
| `History.RedoMovesCursorForward` | app/src/main/java/com/tarun/snappyrulerset/utils/UndoRedo.kt:19-24 | a successful redo keeps the timeline and moves the cursor one step forward |
| `History.TimelineDetermines` | app/src/main/java/com/tarun/snappyrulerset/utils/UndoRedo.kt:3-5 | capacity, timeline and cursor position determine the history and the current value |
| `History.UndoTimesThenRedoTimes` | app/src/main/java/com/tarun/snappyrulerset/utils/UndoRedo.kt:13-24 | any `n` undos that all succeed are cancelled by `n` redos |
| `History.RecordTimeline` | app/src/main/java/com/tarun/snappyrulerset/utils/UndoRedo.kt:7-11 | recording a trail of edits that fits in the capacity lays them out after the current value with nothing to redo |
| `History.RecordUndoRedo` | app/src/main/java/com/tarun/snappyrulerset/utils/UndoRedo.kt:7-24 | `k` recorded edits that fit are undone by `k` undos (current value and undo stack restored) and redone by `k` redos |
| `DrawingState.NewRuler` | app/src/main/java/com/tarun/snappyrulerset/domain/model/state/RulerState.kt:5-9 | a new ruler has length 400 and angle 0 |
| `DrawingState.NewSetSquare` | app/src/main/java/com/tarun/snappyrulerset/domain/model/state/SetSquareState.kt:5-10 | a new set-square is the 45° variant |
| `DrawingState.NewProtractor` | app/src/main/java/com/tarun/snappyrulerset/domain/model/state/ProtractorState.kt:5-9 | a new protractor has radius 120 |
| `ViewModel.Init` | app/src/main/java/com/tarun/snappyrulerset/presentation/viewmodel/DrawingViewModel.kt:50-67 | a new session has the default UI state, empty stacks of capacity 20 and 160 dpi expressed per centimetre |
| `ViewModel.PushUndo` | app/src/main/java/com/tarun/snappyrulerset/presentation/viewmodel/DrawingViewModel.kt:254-258 | the current state becomes the newest snapshot, the oldest is dropped past 20 entries, redo is cleared, and the state is unchanged |
| `ViewModel.SelectTool` | app/src/main/java/com/tarun/snappyrulerset/presentation/viewmodel/DrawingViewModel.kt:86-114 | pushes the pre-call state; the tool becomes active; only the selected instrument is created, with its defaults and home position, and only if absent; the stroke in progress is discarded; shapes are kept |
| `ViewModel.SelectPenKeepsInstruments` | app/src/main/java/com/tarun/snappyrulerset/presentation/viewmodel/DrawingViewModel.kt:109-113 | selecting the pen changes nothing but the active tool and the stroke in progress |
| `ViewModel.SelectToolRemembers` | app/src/main/java/com/tarun/snappyrulerset/presentation/viewmodel/DrawingViewModel.kt:90-93 | re-selecting tools never resets an existing ruler |
| `ViewModel.MoveRuler` | app/src/main/java/com/tarun/snappyrulerset/presentation/viewmodel/DrawingViewModel.kt:117-119 | moves the ruler, or creates a default ruler at the point; nothing else changes and no history is pushed |
| `ViewModel.RotateRuler` | app/src/main/java/com/tarun/snappyrulerset/presentation/viewmodel/DrawingViewModel.kt:120-122 | sets the ruler angle; no effect without a ruler |
| `ViewModel.MoveSetSquare` | app/src/main/java/com/tarun/snappyrulerset/presentation/viewmodel/DrawingViewModel.kt:124-127 | moves the set-square, or creates one with angle 0 and size 200 at the point |
| `ViewModel.RotateSetSquare` | app/src/main/java/com/tarun/snappyrulerset/presentation/viewmodel/DrawingViewModel.kt:128-130 | sets the set-square angle; no effect without a set-square |
| `ViewModel.MoveCompass` | app/src/main/java/com/tarun/snappyrulerset/presentation/viewmodel/DrawingViewModel.kt:132-135 | moves the compass centre keeping its radius, or creates one of radius 0 |
| `ViewModel.SetCompassRadius` | app/src/main/java/com/tarun/snappyrulerset/presentation/viewmodel/DrawingViewModel.kt:136-138 | sets the radius without clamping; no effect without a compass (also `updateCompassRadius`, lines 201-202) |
| `ViewModel.Clamp` | app/src/main/java/com/tarun/snappyrulerset/presentation/viewmodel/DrawingViewModel.kt:141 | `coerceIn`: the result lies in the range and equals the input when the input already lies in it |
| `ViewModel.AdjustCompassRadiusBy` | app/src/main/java/com/tarun/snappyrulerset/presentation/viewmodel/DrawingViewModel.kt:139-142 | the scaled radius saturates: exactly `start * f` inside [10, 2000], 10 below it and 2000 above it; a missing compass starts at radius 250 at (500, 800) |
| `ViewModel.MoveProtractor` | app/src/main/java/com/tarun/snappyrulerset/presentation/viewmodel/DrawingViewModel.kt:144-147 | moves the protractor, or creates one with angle 0 at the point |
| `ViewModel.RotateProtractor` | app/src/main/java/com/tarun/snappyrulerset/presentation/viewmodel/DrawingViewModel.kt:148-150 | sets the protractor angle; no effect without one (also `updateProtractorAngle`, lines 198-199) |
| `ViewModel.UpdateRulerLength` | app/src/main/java/com/tarun/snappyrulerset/presentation/viewmodel/DrawingViewModel.kt:195-196 | sets the ruler length; no effect without a ruler |
| `ViewModel.UpdateSetSquareSize` | app/src/main/java/com/tarun/snappyrulerset/presentation/viewmodel/DrawingViewModel.kt:204-205 | sets the set-square size; no effect without one |
| `ViewModel.UpdateSetSquareVariant` | app/src/main/java/com/tarun/snappyrulerset/presentation/viewmodel/DrawingViewModel.kt:207-208 | sets the set-square variant; no effect without one |
| `ViewModel.OnDown` | app/src/main/java/com/tarun/snappyrulerset/presentation/viewmodel/DrawingViewModel.kt:153-156 | pushes the pre-call state and starts a stroke holding just the point |
| `ViewModel.OnMove` | app/src/main/java/com/tarun/snappyrulerset/presentation/viewmodel/DrawingViewModel.kt:157-159 | appends the point to the stroke; nothing else changes |
| `ViewModel.OnUp` | app/src/main/java/com/tarun/snappyrulerset/presentation/viewmodel/DrawingViewModel.kt:160-172 | a stroke of two or more points is appended as one "LINE" polyline; a shorter one is dropped; the stroke is cleared; no history is pushed |
| `ViewModel.StrokeCommitsInCaptureOrder` | app/src/main/java/com/tarun/snappyrulerset/presentation/viewmodel/DrawingViewModel.kt:153-172 | down, moves, up commits exactly one shape with the points in capture order, or none for a tap |
| `ViewModel.Undo` | app/src/main/java/com/tarun/snappyrulerset/presentation/viewmodel/DrawingViewModel.kt:175-183 | restores the newest snapshot and saves the current state for redo, or reports "nothing to undo" and changes nothing |
| `ViewModel.Redo` | app/src/main/java/com/tarun/snappyrulerset/presentation/viewmodel/DrawingViewModel.kt:184-192 | the mirror of undo, with "nothing to redo" |
| `ViewModel.UndoThenRedoRestores` | app/src/main/java/com/tarun/snappyrulerset/presentation/viewmodel/DrawingViewModel.kt:175-192 | a successful undo followed by redo gives back the same session |
| `ViewModel.RedoThenUndoRestores` | app/src/main/java/com/tarun/snappyrulerset/presentation/viewmodel/DrawingViewModel.kt:175-192 | a successful redo followed by undo gives back the same session |
| `ViewModel.RunLives` | app/src/main/java/com/tarun/snappyrulerset/presentation/viewmodel/DrawingViewModel.kt:116-208 | any sequence of instrument transforms, slider updates, moves and pen-ups leaves the history and calibration untouched |
| `ViewModel.RunGesture` | app/src/main/java/com/tarun/snappyrulerset/presentation/viewmodel/DrawingViewModel.kt:86-172 | a gesture (tool selection or pen-down, then live updates) pushes exactly one snapshot: the state before it began |
| `ViewModel.GesturesUndoRedo` | app/src/main/java/com/tarun/snappyrulerset/presentation/viewmodel/DrawingViewModel.kt:174-192 | after `n` gestures that fit in the history, `n` undos restore the starting drawing and undo stack and `n` redos restore the result |
| `ViewModel.Calibrate` | app/src/main/java/com/tarun/snappyrulerset/presentation/viewmodel/DrawingViewModel.kt:245-247 | the new scale maps the entered centimetres onto the measured pixels |
| `ViewModel.PxToCm` | app/src/main/java/com/tarun/snappyrulerset/presentation/viewmodel/DrawingViewModel.kt:249 | the centimetre value times the scale is the pixel value |
| `ViewModel.CmToPx` | app/src/main/java/com/tarun/snappyrulerset/presentation/viewmodel/DrawingViewModel.kt:250 | the pixel value divided by a non-zero scale gives back the centimetres; at scale 0 every length is 0 px |
| `ViewModel.UnitRoundTrip` | app/src/main/java/com/tarun/snappyrulerset/presentation/viewmodel/DrawingViewModel.kt:249-250 | pixel/centimetre conversions are mutually inverse for a non-zero scale |
| `ViewModel.CalibrateMeasures` | app/src/main/java/com/tarun/snappyrulerset/presentation/viewmodel/DrawingViewModel.kt:245-250 | after calibrating, the measured pixel length converts to the entered centimetres and back |
| `ViewModel.CurrentSnapRadiusPx` | app/src/main/java/com/tarun/snappyrulerset/presentation/viewmodel/DrawingViewModel.kt:251 | the snap radius is 40 px over the zoom, never below 8 px |
| `ViewModel.SnapRadiusShrinksAsZoomGrows` | app/src/main/java/com/tarun/snappyrulerset/presentation/viewmodel/DrawingViewModel.kt:251 | zooming in (a larger positive zoom) never widens the snap radius |
| `DomainSnap.EffectiveRadius` | app/src/main/java/com/tarun/snappyrulerset/domain/snap/SnapEngine.kt:28 | the radius is the base radius over the zoom, never below 6 px |
| `DomainSnap.NormDeg` | app/src/main/java/com/tarun/snappyrulerset/domain/snap/SnapEngine.kt:91-96 | the result is in [-180, 180], differs from the input by whole turns, and keeps the sign of the input at the ends: a non-negative input never gives -180 and a non-positive one never gives 180 |
| `DomainSnap.ScanCommon` | app/src/main/java/com/tarun/snappyrulerset/domain/snap/SnapEngine.kt:78-83 | the loop finds an index exactly when some common angle is within 7°, and that index is the nearest such angle, the earliest on a tie |
| `DomainSnap.SnapAngle` | app/src/main/java/com/tarun/snappyrulerset/domain/snap/SnapEngine.kt:73-88 | the nearest common angle within 7°, the earliest on a tie; with none that close, the input rounded half to even |
| `DomainSnap.SnapAngleFixesCommon` | app/src/main/java/com/tarun/snappyrulerset/domain/snap/SnapEngine.kt:73-96 | every common angle snaps to itself |
| `DomainSnap.LastWithin` | app/src/main/java/com/tarun/snappyrulerset/domain/snap/SnapEngine.kt:33-37 | the point loop picks the last point within the radius, and none exactly when no point is within it |
| `DomainSnap.GridCandidate` | app/src/main/java/com/tarun/snappyrulerset/domain/snap/SnapEngine.kt:41-43 | each coordinate is a multiple of the spacing at most half a spacing away, the even multiple when exactly halfway; with spacing 0 there is no candidate |
| `DomainSnap.RoundToMultiple` | app/src/main/java/com/tarun/snappyrulerset/domain/snap/SnapEngine.kt:41-42 | `round(v / s) * s` is a multiple of `s` within `abs(s) / 2` of `v`, and an even multiple when `v` lies exactly halfway |
| `DomainSnap.AngleCandidateOnCommon` | app/src/main/java/com/tarun/snappyrulerset/domain/snap/SnapEngine.kt:51-53 | when the line already lies at a common angle the correction is zero, so the raw point is turned by 0 degrees |
| `DomainSnap.Snap` | app/src/main/java/com/tarun/snappyrulerset/domain/snap/SnapEngine.kt:21-66 | NONE with the raw point exactly when no candidate qualifies; every snap is within the radius; ANGLE exactly when it beats both others strictly; GRID exactly when it beats the point and the angle is not strictly closer; otherwise POINT |
| `DomainSnap.PointWinsTieWithGrid` | app/src/main/java/com/tarun/snappyrulerset/domain/snap/SnapEngine.kt:44 | a grid candidate at the same distance as the point does not replace it |
| `UtilSnap.Normalize` | app/src/main/java/com/tarun/snappyrulerset/utils/SnapEngine.kt:115-119 | the result is in [0, 360) and differs from the input by whole turns |
| `UtilSnap.DiffAngle` | app/src/main/java/com/tarun/snappyrulerset/utils/SnapEngine.kt:120-123 | congruent to `a - b` modulo 360; in [-180, 180) whenever `a - b + 180` is not negative, and in (-540, -180] otherwise (the truncating `%` keeps the negative sign) |
| `UtilSnap.NearestCommonAngle` | app/src/main/java/com/tarun/snappyrulerset/utils/SnapEngine.kt:68 | `minByOrNull`: a common angle no farther than any other, the earliest on a tie |
| `UtilSnap.SnapToCommonAngles` | app/src/main/java/com/tarun/snappyrulerset/utils/SnapEngine.kt:62-75 | the target when it is the origin or is more than the threshold from the nearest common angle; otherwise the target placed on the nearest common angle about the origin |
| `UtilSnap.NormalizeWholeTurns` | app/src/main/java/com/tarun/snappyrulerset/utils/SnapEngine.kt:115-119 | directions that differ by whole turns normalise to the same angle, so angle snapping sees only the direction |
| `UtilSnap.GridSizePx` | app/src/main/java/com/tarun/snappyrulerset/utils/SnapEngine.kt:15-18 | the step is exactly `mm * dpi / 25.4` with the density raised to at least 160 dpi |
| `UtilSnap.SnapToStep` | app/src/main/java/com/tarun/snappyrulerset/utils/SnapEngine.kt:54-60 | a non-positive step leaves the point alone; otherwise each coordinate becomes a multiple of the step in (v - step/2, v + step/2] |
| `UtilSnap.SnapToStepIdempotent` | app/src/main/java/com/tarun/snappyrulerset/utils/SnapEngine.kt:54-60 | snapping to the grid twice is snapping once |
| `UtilSnap.SnapToGrid` | app/src/main/java/com/tarun/snappyrulerset/utils/SnapEngine.kt:54-56 | a non-positive grid size leaves the point alone |
| `UtilSnap.LineIntersection` | app/src/main/java/com/tarun/snappyrulerset/utils/SnapEngine.kt:125-131 | no point exactly when the determinant is zero; otherwise the point lies on both infinite lines |
| `UtilSnap.CandidatesComplete` | app/src/main/java/com/tarun/snappyrulerset/utils/SnapEngine.kt:78-99 | the candidates hold every vertex, every segment midpoint, every intersection of two segment lines that have one, and the anchor of every present instrument |
| `UtilSnap.CandidatesSound` | app/src/main/java/com/tarun/snappyrulerset/utils/SnapEngine.kt:78-99 | conversely, every candidate is a shape vertex, a segment midpoint, an intersection of two segment lines or an instrument anchor |
| `UtilSnap.NearestWithin` | app/src/main/java/com/tarun/snappyrulerset/utils/SnapEngine.kt:101-109 | the selection loop picks a candidate within the radius that is no farther than any other, the first on a tie, and none exactly when none is within the radius |
| `UtilSnap.NearestOrSelf` | app/src/main/java/com/tarun/snappyrulerset/utils/SnapEngine.kt:101-110 | the input when nothing is within the radius; otherwise the nearest candidate within it, the earliest generated on a tie |
| `UtilSnap.SnapToNearbyPoints` | app/src/main/java/com/tarun/snappyrulerset/utils/SnapEngine.kt:77-111 | over the drawing's candidates: the input when none is within the radius; otherwise a candidate within it, no farther than any other in range, and the earliest generated among equally near ones |
| `UtilSnap.Results` | app/src/main/java/com/tarun/snappyrulerset/utils/SnapEngine.kt:31-45 | the entries are drawn only from the Point, Angle and Grid snaps, at most one of each, in that order, each present exactly when that snap moved the input; with no stroke in progress there is no Angle entry |
| `UtilSnap.AngleBase` | app/src/main/java/com/tarun/snappyrulerset/utils/SnapEngine.kt:39 | the base of angle snapping is the last point of the stroke in progress, or the input when there is none |
| `UtilSnap.Without` | app/src/main/java/com/tarun/snappyrulerset/utils/SnapEngine.kt:51 | the alternatives hold every result except the chosen one and nothing else |
| `UtilSnap.WithoutKeepsOrder` | app/src/main/java/com/tarun/snappyrulerset/utils/SnapEngine.kt:51 | `filter` keeps the Point, Angle, Grid order of the results it keeps |
| `UtilSnap.SnapPointToAll` | app/src/main/java/com/tarun/snappyrulerset/utils/SnapEngine.kt:25-52 | "None" with the input exactly when no snap moved it; otherwise the closest result, ties going to Point, then Angle, then Grid; the alternatives are exactly the other results, still in Point, Angle, Grid order |

## Left out

- Persistence, export and sharing (`load`, `saveDrawing`, `exportAndShare`) are I/O through use cases whose code is not part of this model.
- `setFps` and the FPS flow are UI telemetry with no logic.
- `messageEmit` and the message flow: emission is replaced by the returned `Notice`.
- The trigonometry (`atan2`, `sin`, `cos`, `angleDeg`, `rotateAround`, the degree/radian conversions) is uninterpreted; no property depends on its values.
- Floating-point rounding, NaN and infinities are not modelled. Reals are exact.
- `ViewModel.Calibrate`: requires a non-zero length, because the code divides by it: a zero length gives an infinite scale (signed by the pixel length and the zero's sign) for a non-zero pixel length, and NaN when the pixel length is zero too. Reals have neither.
- `ViewModel.PxToCm`: requires a non-zero scale, for the same reason: a zero scale gives an infinity for a non-zero pixel length and NaN for a zero one.
- `ViewModel.CurrentSnapRadiusPx`: requires a non-zero zoom; `UtilSnap.SnapPointToAll` inherits this. In the code a zoom of `+0f` gives `max(8f, +Inf)`, an infinite radius, and `-0f` gives `max(8f, -Inf)`, a radius of 8.
- `ViewModel.CalibrateMeasures`: also requires a non-zero pixel length, since a zero one leaves a zero scale that `PxToCm` divides by.
- `DomainSnap.Snap`: the point and angle candidates are stated through `PointPick`/`AnglePick`, and the angle candidate's position is left to the uninterpreted rotation.
- `DomainSnap.GridCandidate`: spacing 0 is modelled as "no grid candidate", the effect of the NaN distances the float code computes.
- `UtilSnap.SnapToGrid`: the `Int` range clamp of `roundToInt` is not modelled (`RoundHalfUp` is unbounded).
- `UtilSnap.SnapToGrid`: the Android context is reduced to its screen density (a parameter).
- `UtilSnap.SnapPointToAll`: the `try { ... } catch { 32f }` fallback for the radius is dead code and is not modelled: float division by zero gives an infinity and does not throw.
- `UtilSnap.SnapToCommonAngles`: the `?: normAngle` fallback of `minByOrNull` is unreachable because the list of common angles is never empty.
- `ViewModel.SelectTool`: states are values in the model, and line 113's in-place `_state.value.currentPolyline = emptyList()` clears only the stroke of the new current state. In the code, `undo` and `redo` put the current state object itself on the other stack, and a state-flow update to an equal value keeps the old object, so that object can be both current and on the undo stack. Line 113 then also clears the stroke of the stored snapshot. Example: `onDown(p)`, `onDown(p)`, `undo`, `redo`, `selectTool(PEN)`, `undo`, `undo` ends with an empty stroke in the code and `[p]` in the model. The discarded comparison on line 112 has no effect and is omitted.
- `DomainSnap.EffectiveRadius`: requires a non-zero zoom, because reals have no infinity or NaN. In the code a zero zoom gives three different outcomes. With a zero base radius, `0f / 0f` is NaN, `coerceAtLeast(6f)` keeps NaN, every `<=` test against it is false and the result is NONE. With a positive base and zoom `+0f` (or a negative base and `-0f`), the radius is `+Inf` and every candidate is within it. With the opposite signs it is `-Inf`, which `coerceAtLeast(6f)` raises to 6.
- `DomainSnap.Snap`: inherits the non-zero zoom requirement of `EffectiveRadius` for the same reason.
- `domain/model/DrawingUiState.kt` is an unused second state type and is not part of this model. The UI components and screens are not part of this model either.
- The declarations of `ActiveTool`, `SetSquareVariant`, `Line` and `SnapResult` live outside the modelled files; their shapes are taken from their uses.
