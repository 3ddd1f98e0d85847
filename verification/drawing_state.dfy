/**
 * The drawing-session record (`DrawingUiState`) and the four drafting
 * instruments, each held independently optional so that switching tools
 * keeps the others' last configuration.
 */
module DrawingState {
  import opened Geometry
  import opened Wrappers

  /** The active-tool axis of the session. */
  datatype ActiveTool = Pen | Ruler | SetSquare | Protractor | Compass

  /** The two set-square shapes: 45°-45°-90° (the default) and 30°-60°-90°. */
  datatype SetSquareVariant = Deg45 | Deg30x60

  datatype RulerState = RulerState(position: Point, length: real, angle: real)

  datatype SetSquareState = SetSquareState(position: Point, angle: real, variant: SetSquareVariant, size: real)

  datatype ProtractorState = ProtractorState(position: Point, radius: real, angle: real)

  datatype CompassState = CompassState(center: Point, radius: real)

  /** `RulerState(position)`: length 400 and angle 0 by default. */
  function NewRuler(position: Point): (r: RulerState)
    ensures r.position == position && r.length == 400.0 && r.angle == 0.0
  {
    RulerState(position, 400.0, 0.0)
  }

  /** `SetSquareState(position, angle, size)`: the 45° variant by default. */
  function NewSetSquare(position: Point, angle: real, size: real): (s: SetSquareState)
    ensures s.position == position && s.angle == angle && s.size == size && s.variant == Deg45
  {
    SetSquareState(position, angle, Deg45, size)
  }

  /** `ProtractorState(position, angle)`: radius 120 by default. */
  function NewProtractor(position: Point, angle: real): (p: ProtractorState)
    ensures p.position == position && p.angle == angle && p.radius == 120.0
  {
    ProtractorState(position, 120.0, angle)
  }

  datatype DrawingUiState = DrawingUiState(
    activeTool: ActiveTool,
    shapes: seq<Polyline>,
    currentPolyline: seq<Point>,
    ruler: Option<RulerState>,
    setSquare: Option<SetSquareState>,
    protractor: Option<ProtractorState>,
    compass: Option<CompassState>,
    hudText: Option<string>,
    zoomLevel: real)

  /** `DrawingUiState()`: pen, nothing drawn, no instruments, zoom 1. */
  const InitialUiState: DrawingUiState :=
    DrawingUiState(Pen, [], [], None, None, None, None, Some(""), 1.0)
}
