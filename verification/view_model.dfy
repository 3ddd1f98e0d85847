/**
 * The drawing session (`DrawingViewModel`) as an immutable record rewritten by
 * each public operation: the UI state, its bounded undo/redo history and the
 * pixels-per-centimetre calibration. User-visible messages are returned as a
 * `Notice` instead of being emitted on a flow.
 */
module ViewModel {
  import opened Geometry
  import opened Wrappers
  import opened DrawingState
  import opened History

  /** `maxHistory`: the capacity of the session's undo stack. */
  const MaxHistory: int := 20

  /** The initial calibration: 160 dpi expressed per centimetre. */
  const DefaultPxPerCm: real := 160.0 / 2.54

  /** The identifier every committed pen stroke receives. */
  const StrokeId: string := "LINE"

  /** Where instruments appear when their tool is first selected. */
  const RulerHome: Point := Point(400.0, 400.0)
  const SetSquareHome: Point := Point(600.0, 400.0)
  const ProtractorHome: Point := Point(500.0, 600.0)
  const CompassHome: Point := Point(500.0, 800.0)

  /** The compass radius range enforced by a pinch gesture. */
  const MinCompassRadius: real := 10.0
  const MaxCompassRadius: real := 2000.0

  datatype DrawingViewModel = DrawingViewModel(
    state: DrawingUiState,
    history: UndoRedo<DrawingUiState>,
    pxPerCm: real)

  /** Informational messages; neither is an error. */
  datatype Notice = Quiet | NothingToUndo | NothingToRedo

  datatype Outcome = Outcome(vm: DrawingViewModel, notice: Notice)

  /** The invariant every transition keeps: capacity 20 and both stacks within it. */
  predicate Valid(vm: DrawingViewModel)
  {
    vm.history.capacity == MaxHistory && Bounded(vm.history)
  }

  /** A freshly constructed view model (before the asynchronous load). */
  function Init(): (vm: DrawingViewModel)
    ensures Valid(vm)
    ensures vm.state == InitialUiState && vm.history.undo == [] && vm.history.redo == []
    ensures vm.pxPerCm * 2.54 == 160.0
  {
    DrawingViewModel(InitialUiState, Empty(MaxHistory), DefaultPxPerCm)
  }

  /** `pushUndo()`: the current state becomes the newest undo entry and redo is cleared. */
  function PushUndo(vm: DrawingViewModel): (r: DrawingViewModel)
    requires Valid(vm)
    ensures Valid(r)
    ensures r.state == vm.state && r.pxPerCm == vm.pxPerCm
    ensures r.history.redo == []
    ensures |r.history.undo| > 0 && r.history.undo[|r.history.undo| - 1] == vm.state
    ensures |vm.history.undo| < MaxHistory ==> r.history.undo == vm.history.undo + [vm.state]
    ensures |vm.history.undo| == MaxHistory ==> r.history.undo == vm.history.undo[1..] + [vm.state]
    ensures r.history == Push(vm.history, vm.state)
  {
    var r := vm.(history := Push(vm.history, vm.state));
    assert |vm.history.undo| == MaxHistory ==> r.history.undo == (vm.history.undo + [vm.state])[1..];
    r
  }

  // ---------------------------------------------------------------------------
  // Tool selection

  /**
   * `selectTool(tool)`: pushes the pre-call state, makes `tool` active, creates
   * its instrument with the defaults only if it is absent, and discards the
   * in-progress stroke.
   */
  function SelectTool(vm: DrawingViewModel, tool: ActiveTool): (r: DrawingViewModel)
    requires Valid(vm)
    ensures Valid(r)
    ensures r.history == Push(vm.history, vm.state)
    ensures r.pxPerCm == vm.pxPerCm
    ensures r.state.activeTool == tool && r.state.currentPolyline == []
    ensures r.state.shapes == vm.state.shapes
    ensures r.state.zoomLevel == vm.state.zoomLevel && r.state.hudText == vm.state.hudText
    // an instrument already present is kept; only the selected one is created, with its defaults
    ensures r.state.ruler ==
      if tool == Ruler && vm.state.ruler.None? then Some(NewRuler(RulerHome)) else vm.state.ruler
    ensures r.state.setSquare ==
      if tool == SetSquare && vm.state.setSquare.None? then Some(NewSetSquare(SetSquareHome, 0.0, 200.0))
      else vm.state.setSquare
    ensures r.state.protractor ==
      if tool == Protractor && vm.state.protractor.None? then Some(NewProtractor(ProtractorHome, 0.0))
      else vm.state.protractor
    ensures r.state.compass ==
      if tool == Compass && vm.state.compass.None? then Some(CompassState(CompassHome, 0.0))
      else vm.state.compass
  {
    var next := WithTool(vm.state, tool);
    DrawingViewModel(next.(currentPolyline := []), Push(vm.history, vm.state), vm.pxPerCm)
  }

  /** The `_state.update` step of `selectTool`. */
  function WithTool(cur: DrawingUiState, tool: ActiveTool): DrawingUiState
  {
    match tool
    case Ruler => cur.(activeTool := tool, ruler := Some(cur.ruler.GetOr(NewRuler(RulerHome))))
    case SetSquare => cur.(activeTool := tool,
                           setSquare := Some(cur.setSquare.GetOr(NewSetSquare(SetSquareHome, 0.0, 200.0))))
    case Protractor => cur.(activeTool := tool,
                            protractor := Some(cur.protractor.GetOr(NewProtractor(ProtractorHome, 0.0))))
    case Compass => cur.(activeTool := tool, compass := Some(cur.compass.GetOr(CompassState(CompassHome, 0.0))))
    case Pen => cur.(activeTool := tool)
  }

  /** Selecting the pen changes nothing but the tool and the discarded stroke. */
  lemma SelectPenKeepsInstruments(vm: DrawingViewModel)
    requires Valid(vm)
    ensures SelectTool(vm, Pen).state == vm.state.(activeTool := Pen, currentPolyline := [])
  {
  }

  /** Re-selecting a tool whose instrument exists never resets its parameters. */
  lemma SelectToolRemembers(vm: DrawingViewModel, first: ActiveTool, second: ActiveTool)
    requires Valid(vm)
    ensures SelectTool(SelectTool(vm, first), second).state.ruler == SelectTool(vm, first).state.ruler
      || (second == Ruler && SelectTool(vm, first).state.ruler.None?)
  {
  }

  // ---------------------------------------------------------------------------
  // Instrument transforms and slider updates: live manipulation, never history

  /** The history and calibration are untouched and only the named instrument may differ. */
  predicate LiveEdit(vm: DrawingViewModel, r: DrawingViewModel)
  {
    r.history == vm.history && r.pxPerCm == vm.pxPerCm
  }

  /** `moveRuler(p)`: creates a default ruler at `p` when there is none. */
  function MoveRuler(vm: DrawingViewModel, p: Point): (r: DrawingViewModel)
    ensures LiveEdit(vm, r) && r.state == vm.state.(ruler := r.state.ruler)
    ensures r.state.ruler.Some? && r.state.ruler.value.position == p
    ensures r.state.ruler.value ==
      if vm.state.ruler.Some? then vm.state.ruler.value.(position := p) else NewRuler(p)
  {
    var ruler := match vm.state.ruler
      case Some(s) => s.(position := p)
      case None => NewRuler(p);
    vm.(state := vm.state.(ruler := Some(ruler)))
  }

  /** `rotateRuler(a)`: no effect without a ruler. */
  function RotateRuler(vm: DrawingViewModel, a: real): (r: DrawingViewModel)
    ensures LiveEdit(vm, r) && r.state == vm.state.(ruler := r.state.ruler)
    ensures vm.state.ruler.None? ==> r == vm
    ensures vm.state.ruler.Some? ==> r.state.ruler == Some(vm.state.ruler.value.(angle := a))
  {
    match vm.state.ruler
    case None => vm
    case Some(s) => vm.(state := vm.state.(ruler := Some(s.(angle := a))))
  }

  /** `moveSetSquare(p)`: creates a default set-square (angle 0, size 200) at `p` when there is none. */
  function MoveSetSquare(vm: DrawingViewModel, p: Point): (r: DrawingViewModel)
    ensures LiveEdit(vm, r) && r.state == vm.state.(setSquare := r.state.setSquare)
    ensures r.state.setSquare.Some? && r.state.setSquare.value.position == p
    ensures r.state.setSquare.value ==
      if vm.state.setSquare.Some? then vm.state.setSquare.value.(position := p)
      else NewSetSquare(p, 0.0, 200.0)
  {
    var sq := match vm.state.setSquare
      case Some(s) => s.(position := p)
      case None => NewSetSquare(p, 0.0, 200.0);
    vm.(state := vm.state.(setSquare := Some(sq)))
  }

  /** `rotateSetSquare(a)`: no effect without a set-square. */
  function RotateSetSquare(vm: DrawingViewModel, a: real): (r: DrawingViewModel)
    ensures LiveEdit(vm, r) && r.state == vm.state.(setSquare := r.state.setSquare)
    ensures vm.state.setSquare.None? ==> r == vm
    ensures vm.state.setSquare.Some? ==> r.state.setSquare == Some(vm.state.setSquare.value.(angle := a))
  {
    match vm.state.setSquare
    case None => vm
    case Some(s) => vm.(state := vm.state.(setSquare := Some(s.(angle := a))))
  }

  /** `moveCompass(c)`: creates a compass of radius 0 at `c` when there is none. */
  function MoveCompass(vm: DrawingViewModel, c: Point): (r: DrawingViewModel)
    ensures LiveEdit(vm, r) && r.state == vm.state.(compass := r.state.compass)
    ensures r.state.compass.Some? && r.state.compass.value.center == c
    ensures r.state.compass.value.radius ==
      if vm.state.compass.Some? then vm.state.compass.value.radius else 0.0
  {
    var cs := match vm.state.compass
      case Some(s) => s.(center := c)
      case None => CompassState(c, 0.0);
    vm.(state := vm.state.(compass := Some(cs)))
  }

  /** `setCompassRadius(v)` and `updateCompassRadius(v)` (the same update): no effect without a compass, no clamping. */
  function SetCompassRadius(vm: DrawingViewModel, v: real): (r: DrawingViewModel)
    ensures LiveEdit(vm, r) && r.state == vm.state.(compass := r.state.compass)
    ensures vm.state.compass.None? ==> r == vm
    ensures vm.state.compass.Some? ==> r.state.compass == Some(vm.state.compass.value.(radius := v))
  {
    match vm.state.compass
    case None => vm
    case Some(s) => vm.(state := vm.state.(compass := Some(s.(radius := v))))
  }

  /** `coerceIn(lo, hi)` for `lo <= hi`. */
  function Clamp(v: real, lo: real, hi: real): (c: real)
    requires lo <= hi
    ensures lo <= c <= hi
    ensures lo <= v <= hi ==> c == v
    ensures v < lo ==> c == lo
    ensures v > hi ==> c == hi
  {
    if v < lo then lo else if v > hi then hi else v
  }

  /**
   * `adjustCompassRadiusBy(f)`: scales the radius by a pinch factor and clamps
   * it to [10, 2000]; without a compass it starts from one of radius 250 at the
   * compass home position.
   */
  function AdjustCompassRadiusBy(vm: DrawingViewModel, f: real): (r: DrawingViewModel)
    ensures LiveEdit(vm, r) && r.state == vm.state.(compass := r.state.compass)
    ensures r.state.compass.Some?
    ensures MinCompassRadius <= r.state.compass.value.radius <= MaxCompassRadius
    ensures r.state.compass.value.center ==
      if vm.state.compass.Some? then vm.state.compass.value.center else CompassHome
    ensures var start := if vm.state.compass.Some? then vm.state.compass.value.radius else 250.0;
      && (MinCompassRadius <= start * f <= MaxCompassRadius ==> r.state.compass.value.radius == start * f)
      && (start * f < MinCompassRadius ==> r.state.compass.value.radius == MinCompassRadius)
      && (start * f > MaxCompassRadius ==> r.state.compass.value.radius == MaxCompassRadius)
  {
    var c := vm.state.compass.GetOr(CompassState(CompassHome, 250.0));
    vm.(state := vm.state.(compass := Some(c.(radius := Clamp(c.radius * f, MinCompassRadius, MaxCompassRadius)))))
  }

  /** `moveProtractor(p)`: creates a default protractor (angle 0, radius 120) at `p` when there is none. */
  function MoveProtractor(vm: DrawingViewModel, p: Point): (r: DrawingViewModel)
    ensures LiveEdit(vm, r) && r.state == vm.state.(protractor := r.state.protractor)
    ensures r.state.protractor.Some? && r.state.protractor.value.position == p
    ensures r.state.protractor.value ==
      if vm.state.protractor.Some? then vm.state.protractor.value.(position := p)
      else NewProtractor(p, 0.0)
  {
    var pr := match vm.state.protractor
      case Some(s) => s.(position := p)
      case None => NewProtractor(p, 0.0);
    vm.(state := vm.state.(protractor := Some(pr)))
  }

  /** `rotateProtractor(a)` and `updateProtractorAngle(a)` (the same update): no effect without a protractor. */
  function RotateProtractor(vm: DrawingViewModel, a: real): (r: DrawingViewModel)
    ensures LiveEdit(vm, r) && r.state == vm.state.(protractor := r.state.protractor)
    ensures vm.state.protractor.None? ==> r == vm
    ensures vm.state.protractor.Some? ==> r.state.protractor == Some(vm.state.protractor.value.(angle := a))
  {
    match vm.state.protractor
    case None => vm
    case Some(s) => vm.(state := vm.state.(protractor := Some(s.(angle := a))))
  }

  /** `updateRulerLength(v)`: no effect without a ruler. */
  function UpdateRulerLength(vm: DrawingViewModel, v: real): (r: DrawingViewModel)
    ensures LiveEdit(vm, r) && r.state == vm.state.(ruler := r.state.ruler)
    ensures vm.state.ruler.None? ==> r == vm
    ensures vm.state.ruler.Some? ==> r.state.ruler == Some(vm.state.ruler.value.(length := v))
  {
    match vm.state.ruler
    case None => vm
    case Some(s) => vm.(state := vm.state.(ruler := Some(s.(length := v))))
  }

  /** `updateSetSquareSize(v)`: no effect without a set-square. */
  function UpdateSetSquareSize(vm: DrawingViewModel, v: real): (r: DrawingViewModel)
    ensures LiveEdit(vm, r) && r.state == vm.state.(setSquare := r.state.setSquare)
    ensures vm.state.setSquare.None? ==> r == vm
    ensures vm.state.setSquare.Some? ==> r.state.setSquare == Some(vm.state.setSquare.value.(size := v))
  {
    match vm.state.setSquare
    case None => vm
    case Some(s) => vm.(state := vm.state.(setSquare := Some(s.(size := v))))
  }

  /** `updateSetSquareVariant(v)`: no effect without a set-square. */
  function UpdateSetSquareVariant(vm: DrawingViewModel, v: SetSquareVariant): (r: DrawingViewModel)
    ensures LiveEdit(vm, r) && r.state == vm.state.(setSquare := r.state.setSquare)
    ensures vm.state.setSquare.None? ==> r == vm
    ensures vm.state.setSquare.Some? ==> r.state.setSquare == Some(vm.state.setSquare.value.(variant := v))
  {
    match vm.state.setSquare
    case None => vm
    case Some(s) => vm.(state := vm.state.(setSquare := Some(s.(variant := v))))
  }

  // ---------------------------------------------------------------------------
  // Pen strokes

  /** `onDown(p)`: the start of a gesture pushes history and starts a fresh stroke. */
  function OnDown(vm: DrawingViewModel, p: Point): (r: DrawingViewModel)
    requires Valid(vm)
    ensures Valid(r)
    ensures r.history == PushUndo(vm).history
    ensures r.state == vm.state.(currentPolyline := [p]) && r.pxPerCm == vm.pxPerCm
  {
    DrawingViewModel(vm.state.(currentPolyline := [p]), PushUndo(vm).history, vm.pxPerCm)
  }

  /** `onMove(p)`: extends the stroke; no history. */
  function OnMove(vm: DrawingViewModel, p: Point): (r: DrawingViewModel)
    ensures LiveEdit(vm, r)
    ensures r.state == vm.state.(currentPolyline := r.state.currentPolyline)
    ensures |r.state.currentPolyline| == |vm.state.currentPolyline| + 1
    ensures r.state.currentPolyline[..|vm.state.currentPolyline|] == vm.state.currentPolyline
    ensures r.state.currentPolyline[|vm.state.currentPolyline|] == p
  {
    vm.(state := vm.state.(currentPolyline := vm.state.currentPolyline + [p]))
  }

  /**
   * `onUp()`: a stroke of at least two points is committed as one new
   * polyline at the end of the shapes; a shorter one is dropped. Either way
   * the stroke is cleared and no history is pushed.
   */
  function OnUp(vm: DrawingViewModel): (r: DrawingViewModel)
    ensures LiveEdit(vm, r)
    ensures r.state == vm.state.(shapes := r.state.shapes, currentPolyline := [])
    ensures |vm.state.currentPolyline| >= 2 ==>
      r.state.shapes == vm.state.shapes + [Polyline(StrokeId, vm.state.currentPolyline)]
    ensures |vm.state.currentPolyline| < 2 ==> r.state.shapes == vm.state.shapes
  {
    var cur := vm.state.currentPolyline;
    if |cur| >= 2 then
      vm.(state := vm.state.(shapes := vm.state.shapes + [Polyline(StrokeId, cur)], currentPolyline := []))
    else
      vm.(state := vm.state.(currentPolyline := []))
  }

  /** Pen down, `moves`, pen up: exactly one shape holding the points in capture order, or none for a single tap. */
  lemma StrokeCommitsInCaptureOrder(vm: DrawingViewModel, start: Point, moves: seq<Point>)
    requires Valid(vm)
    ensures var r := OnUp(MoveAll(OnDown(vm, start), moves));
      && r.state.currentPolyline == []
      && (moves == [] ==> r.state.shapes == vm.state.shapes)
      && (moves != [] ==> r.state.shapes == vm.state.shapes + [Polyline(StrokeId, [start] + moves)])
  {
    MoveAllAppends(OnDown(vm, start), moves);
  }

  /** `onMove` for each point in turn. */
  function MoveAll(vm: DrawingViewModel, ps: seq<Point>): DrawingViewModel
    decreases |ps|
  {
    if ps == [] then vm else MoveAll(OnMove(vm, ps[0]), ps[1..])
  }

  lemma {:induction false} MoveAllAppends(vm: DrawingViewModel, ps: seq<Point>)
    ensures MoveAll(vm, ps) == vm.(state := vm.state.(currentPolyline := vm.state.currentPolyline + ps))
    decreases |ps|
  {
    if ps == [] {
      assert vm.state.currentPolyline + ps == vm.state.currentPolyline;
    } else {
      MoveAllAppends(OnMove(vm, ps[0]), ps[1..]);
      assert (vm.state.currentPolyline + [ps[0]]) + ps[1..] == vm.state.currentPolyline + ps;
    }
  }

  // ---------------------------------------------------------------------------
  // Undo and redo

  /** `undo()`: restores the newest snapshot, or reports that there is nothing to undo. */
  function Undo(vm: DrawingViewModel): (r: Outcome)
    ensures vm.history.undo == [] ==> r == Outcome(vm, NothingToUndo)
    ensures vm.history.undo != [] ==>
      && r.notice == Quiet
      && r.vm.state == vm.history.undo[|vm.history.undo| - 1]
      && r.vm.history.undo == vm.history.undo[..|vm.history.undo| - 1]
      && r.vm.history.redo == vm.history.redo + [vm.state]
    ensures r.vm.pxPerCm == vm.pxPerCm && r.vm.history.capacity == vm.history.capacity
    ensures Valid(vm) ==> Valid(r.vm)
  {
    var st := History.Undo(vm.history, vm.state);
    match st.value
    case None => Outcome(vm, NothingToUndo)
    case Some(prev) => Outcome(DrawingViewModel(prev, st.history, vm.pxPerCm), Quiet)
  }

  /** `redo()`: the mirror of `Undo`. */
  function Redo(vm: DrawingViewModel): (r: Outcome)
    ensures vm.history.redo == [] ==> r == Outcome(vm, NothingToRedo)
    ensures vm.history.redo != [] ==>
      && r.notice == Quiet
      && r.vm.state == vm.history.redo[|vm.history.redo| - 1]
      && r.vm.history.redo == vm.history.redo[..|vm.history.redo| - 1]
      && r.vm.history.undo == vm.history.undo + [vm.state]
    ensures r.vm.pxPerCm == vm.pxPerCm && r.vm.history.capacity == vm.history.capacity
    ensures Valid(vm) ==> Valid(r.vm)
  {
    var st := History.Redo(vm.history, vm.state);
    match st.value
    case None => Outcome(vm, NothingToRedo)
    case Some(next) => Outcome(DrawingViewModel(next, st.history, vm.pxPerCm), Quiet)
  }

  /** A successful undo followed by redo gives back the same view model. */
  lemma UndoThenRedoRestores(vm: DrawingViewModel)
    requires vm.history.undo != []
    ensures Redo(Undo(vm).vm) == Outcome(vm, Quiet)
  {
    History.UndoThenRedo(vm.history, vm.state);
  }

  /** A successful redo followed by undo gives back the same view model. */
  lemma RedoThenUndoRestores(vm: DrawingViewModel)
    requires vm.history.redo != []
    ensures Undo(Redo(vm).vm) == Outcome(vm, Quiet)
  {
    History.RedoThenUndo(vm.history, vm.state);
  }

  // ---------------------------------------------------------------------------
  // Gestures: one history push at the start, live updates after it

  /** The operations that begin a gesture, each pushing the pre-call state. */
  datatype Start = SelectToolCmd(tool: ActiveTool) | DownCmd(p: Point)

  /** The operations that continue or end a gesture without pushing history. */
  datatype Live =
    | MoveCmd(p: Point) | UpCmd
    | MoveRulerCmd(p: Point) | RotateRulerCmd(a: real) | UpdateRulerLengthCmd(v: real)
    | MoveSetSquareCmd(p: Point) | RotateSetSquareCmd(a: real) | UpdateSetSquareSizeCmd(v: real)
    | UpdateSetSquareVariantCmd(variant: SetSquareVariant)
    | MoveCompassCmd(p: Point) | SetCompassRadiusCmd(v: real) | AdjustCompassRadiusByCmd(f: real)
    | MoveProtractorCmd(p: Point) | RotateProtractorCmd(a: real)

  datatype Gesture = Gesture(start: Start, updates: seq<Live>)

  function RunStart(vm: DrawingViewModel, s: Start): (r: DrawingViewModel)
    requires Valid(vm)
    ensures Valid(r) && r.history == Push(vm.history, vm.state) && r.pxPerCm == vm.pxPerCm
  {
    match s
    case SelectToolCmd(t) => SelectTool(vm, t)
    case DownCmd(p) => OnDown(vm, p)
  }

  function RunLive(vm: DrawingViewModel, c: Live): (r: DrawingViewModel)
    ensures LiveEdit(vm, r)
  {
    match c
    case MoveCmd(p) => OnMove(vm, p)
    case UpCmd => OnUp(vm)
    case MoveRulerCmd(p) => MoveRuler(vm, p)
    case RotateRulerCmd(a) => RotateRuler(vm, a)
    case UpdateRulerLengthCmd(v) => UpdateRulerLength(vm, v)
    case MoveSetSquareCmd(p) => MoveSetSquare(vm, p)
    case RotateSetSquareCmd(a) => RotateSetSquare(vm, a)
    case UpdateSetSquareSizeCmd(v) => UpdateSetSquareSize(vm, v)
    case UpdateSetSquareVariantCmd(v) => UpdateSetSquareVariant(vm, v)
    case MoveCompassCmd(p) => MoveCompass(vm, p)
    case SetCompassRadiusCmd(v) => SetCompassRadius(vm, v)
    case AdjustCompassRadiusByCmd(f) => AdjustCompassRadiusBy(vm, f)
    case MoveProtractorCmd(p) => MoveProtractor(vm, p)
    case RotateProtractorCmd(a) => RotateProtractor(vm, a)
  }

  /** Live updates never touch the history or the calibration, however many there are. */
  function RunLives(vm: DrawingViewModel, cs: seq<Live>): (r: DrawingViewModel)
    ensures LiveEdit(vm, r)
    decreases |cs|
  {
    if cs == [] then vm else RunLives(RunLive(vm, cs[0]), cs[1..])
  }

  /** A whole gesture pushes exactly one snapshot: the state before it began. */
  function RunGesture(vm: DrawingViewModel, g: Gesture): (r: DrawingViewModel)
    requires Valid(vm)
    ensures Valid(r) && r.history == Push(vm.history, vm.state) && r.pxPerCm == vm.pxPerCm
  {
    RunLives(RunStart(vm, g.start), g.updates)
  }

  function RunGestures(vm: DrawingViewModel, gs: seq<Gesture>): (r: DrawingViewModel)
    requires Valid(vm)
    ensures Valid(r) && r.pxPerCm == vm.pxPerCm
    decreases |gs|
  {
    if gs == [] then vm else RunGestures(RunGesture(vm, gs[0]), gs[1..])
  }

  /** The states reached at the end of each gesture. */
  function Trail(vm: DrawingViewModel, gs: seq<Gesture>): (t: seq<DrawingUiState>)
    requires Valid(vm)
    ensures |t| == |gs|
    decreases |gs|
  {
    if gs == [] then [] else var next := RunGesture(vm, gs[0]); [next.state] + Trail(next, gs[1..])
  }

  function Track(vm: DrawingViewModel): Tracked<DrawingUiState>
  {
    Tracked(vm.history, vm.state)
  }

  lemma {:induction false} GesturesRecord(vm: DrawingViewModel, gs: seq<Gesture>)
    requires Valid(vm)
    ensures Track(RunGestures(vm, gs)) == Record(Track(vm), Trail(vm, gs))
    decreases |gs|
  {
    if gs != [] {
      var next := RunGesture(vm, gs[0]);
      GesturesRecord(next, gs[1..]);
      assert Record(Track(vm), Trail(vm, gs)) == Record(Track(next), Trail(next, gs[1..]));
    }
  }

  /** `undo()` called `n` times. */
  function UndoN(vm: DrawingViewModel, n: nat): (r: DrawingViewModel)
    ensures r.pxPerCm == vm.pxPerCm
    decreases n
  {
    if n == 0 then vm else UndoN(Undo(vm).vm, n - 1)
  }

  /** `redo()` called `n` times. */
  function RedoN(vm: DrawingViewModel, n: nat): (r: DrawingViewModel)
    ensures r.pxPerCm == vm.pxPerCm
    decreases n
  {
    if n == 0 then vm else RedoN(Redo(vm).vm, n - 1)
  }

  lemma {:induction false} UndoNTracks(vm: DrawingViewModel, n: nat)
    ensures Track(UndoN(vm, n)) == UndoTimes(Track(vm), n)
    decreases n
  {
    if n > 0 {
      assert Track(Undo(vm).vm) == UndoTracked(Track(vm));
      UndoNTracks(Undo(vm).vm, n - 1);
    }
  }

  lemma {:induction false} RedoNTracks(vm: DrawingViewModel, n: nat)
    ensures Track(RedoN(vm, n)) == RedoTimes(Track(vm), n)
    decreases n
  {
    if n > 0 {
      assert Track(Redo(vm).vm) == RedoTracked(Track(vm));
      RedoNTracks(Redo(vm).vm, n - 1);
    }
  }

  /**
   * `n` gestures followed by `n` undos give back the starting drawing state
   * and undo stack; `n` redos after that give back the state after all `n`
   * gestures — provided the history has room for the `n` snapshots.
   */
  lemma GesturesUndoRedo(vm: DrawingViewModel, gs: seq<Gesture>)
    requires Valid(vm)
    requires |vm.history.undo| + |gs| <= MaxHistory
    ensures UndoN(RunGestures(vm, gs), |gs|).state == vm.state
    ensures UndoN(RunGestures(vm, gs), |gs|).history.undo == vm.history.undo
    ensures RedoN(UndoN(RunGestures(vm, gs), |gs|), |gs|) == RunGestures(vm, gs)
  {
    var done := RunGestures(vm, gs);
    GesturesRecord(vm, gs);
    RecordUndoRedo(Track(vm), Trail(vm, gs));
    UndoNTracks(done, |gs|);
    var back := UndoN(done, |gs|);
    RedoNTracks(back, |gs|);
    var again := RedoN(back, |gs|);
    assert Track(again) == Track(done);
  }

  // ---------------------------------------------------------------------------
  // Calibration, units and snap radius

  /** `calibrate(px, realCm)`: the code has no guard, so `realCm` must not be zero. */
  function Calibrate(vm: DrawingViewModel, px: real, realCm: real): (r: DrawingViewModel)
    requires realCm != 0.0
    ensures r.state == vm.state && r.history == vm.history
    ensures r.pxPerCm * realCm == px
  {
    vm.(pxPerCm := px / realCm)
  }

  /** `pxToCm(px)`. */
  function PxToCm(vm: DrawingViewModel, px: real): (cm: real)
    requires vm.pxPerCm != 0.0
    ensures cm * vm.pxPerCm == px
  {
    px / vm.pxPerCm
  }

  /** `cmToPx(cm)`. */
  function CmToPx(vm: DrawingViewModel, cm: real): (px: real)
    ensures vm.pxPerCm != 0.0 ==> px / vm.pxPerCm == cm
    ensures vm.pxPerCm == 0.0 ==> px == 0.0
  {
    cm * vm.pxPerCm
  }

  /** The two conversions are inverse to each other once the scale is non-zero. */
  lemma UnitRoundTrip(vm: DrawingViewModel, x: real)
    requires vm.pxPerCm != 0.0
    ensures CmToPx(vm, PxToCm(vm, x)) == x
    ensures PxToCm(vm, CmToPx(vm, x)) == x
  {
  }

  /** After calibrating, the measured pixel length converts to the entered centimetres. */
  lemma CalibrateMeasures(vm: DrawingViewModel, px: real, realCm: real)
    requires realCm != 0.0 && px != 0.0
    ensures PxToCm(Calibrate(vm, px, realCm), px) == realCm
    ensures CmToPx(Calibrate(vm, px, realCm), realCm) == px
  {
  }

  /** `currentSnapRadiusPx()`: 40 px scaled down by the zoom, never below 8 px. */
  function CurrentSnapRadiusPx(vm: DrawingViewModel): (r: real)
    requires vm.state.zoomLevel != 0.0
    ensures r >= 8.0 && r >= 40.0 / vm.state.zoomLevel
    ensures r == 8.0 || r == 40.0 / vm.state.zoomLevel
  {
    var scaled := 40.0 / vm.state.zoomLevel;
    if 8.0 >= scaled then 8.0 else scaled
  }

  /** Zooming in never widens the snap radius. */
  lemma SnapRadiusShrinksAsZoomGrows(vm: DrawingViewModel, zoomed: DrawingViewModel)
    requires 0.0 < vm.state.zoomLevel <= zoomed.state.zoomLevel
    ensures CurrentSnapRadiusPx(zoomed) <= CurrentSnapRadiusPx(vm)
  {
  }
}
