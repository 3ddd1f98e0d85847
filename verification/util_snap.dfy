/**
 * The utility snap engine (`utils/SnapEngine.kt`) used by the canvas: point
 * candidates generated from the drawing (vertices, segment midpoints, pairwise
 * segment-line intersections, instrument anchors), nearest-within-radius
 * selection, grid rounding, common-angle snapping, and the closest-wins
 * combination of the three in `snapPointToAll`.
 */
module UtilSnap {
  import opened Geometry
  import opened Wrappers
  import opened DrawingState
  import ViewModel

  /** The grid spacing in millimetres used by `snapPointToAll`. */
  const GridMm: real := 5.0

  /** The density floor of `gridSizePx`. */
  const MinDpi: real := 160.0

  /** The angular threshold `snapPointToAll` passes to `snapToCommonAngles`. */
  const AngleThreshold: real := 7.0

  /** The labels of `SnapResult`. */
  const PointLabel: string := "Point"
  const AngleLabel: string := "Angle"
  const GridLabel: string := "Grid"
  const NoneLabel: string := "None"

  datatype SnapResult = SnapResult(point: Point, kind: string)

  datatype SnapCandidates = SnapCandidates(chosen: SnapResult, alternatives: seq<SnapResult>)

  /**
   * The trigonometry left uninterpreted: `atan2(dy, dx)` in degrees, and the
   * point at the distance of `target` from `origin`, in the direction of a
   * given angle in degrees (`origin + (cos, sin) * hypot`).
   */
  datatype Trig = Trig(atan2Deg: (real, real) -> real, toward: (Point, Point, real) -> Point)

  // ---------------------------------------------------------------------------
  // Angles

  /** `normalize(a)`: the remainder by 360 moved into [0, 360). */
  function Normalize(a: real): (x: real)
    ensures 0.0 <= x < 360.0
    ensures IsInt((a - x) / 360.0)
  {
    var r := FMod(a, 360.0);
    if r < 0.0 then
      TurnShift(a, r);
      r + 360.0
    else r
  }

  lemma TurnShift(a: real, r: real)
    requires IsInt((a - r) / 360.0)
    ensures IsInt((a - (r + 360.0)) / 360.0)
  {
    var k := (a - r) / 360.0;
    assert (a - (r + 360.0)) / 360.0 == k - 1.0;
    IntDifference(k, 1.0);
  }

  /**
   * `diffAngle(a, b) = (a - b + 180) % 360 - 180`: congruent to `a - b`, and in
   * [-180, 180) whenever `a - b + 180` is not negative; otherwise the
   * truncating `%` leaves it in (-540, -180].
   */
  function DiffAngle(a: real, b: real): (d: real)
    ensures IsInt(((a - b) - d) / 360.0)
    ensures a - b + 180.0 >= 0.0 ==> -180.0 <= d < 180.0
    ensures a - b + 180.0 < 0.0 ==> -540.0 < d <= -180.0
  {
    var m := FMod(a - b + 180.0, 360.0);
    assert (a - b) - (m - 180.0) == (a - b + 180.0) - m;
    m - 180.0
  }

  /** The keys `minByOrNull` compares: `|diffAngle(norm, c)|` for each common angle. */
  function AngleGaps(norm: real): (gaps: seq<real>)
    ensures |gaps| == |CommonAngles|
    ensures forall j | 0 <= j < |gaps| :: gaps[j] == Abs(DiffAngle(norm, CommonAngles[j]))
  {
    seq(|CommonAngles|, j requires 0 <= j < |CommonAngles| => Abs(DiffAngle(norm, CommonAngles[j])))
  }

  /** The common angle nearest to `norm`, the first in the list on a tie. */
  function NearestCommonAngle(norm: real): (c: real)
    ensures c in CommonAngles
    ensures forall j | 0 <= j < |CommonAngles| ::
      Abs(DiffAngle(norm, c)) <= Abs(DiffAngle(norm, CommonAngles[j]))
    ensures forall j | 0 <= j < |CommonAngles| && Abs(DiffAngle(norm, CommonAngles[j])) == Abs(DiffAngle(norm, c)) ::
      c in CommonAngles[..j + 1]
  {
    var gaps := AngleGaps(norm);
    var i := FirstMin(gaps);
    assert CommonAngles[i] == CommonAngles[..i + 1][i];
    forall j | 0 <= j < |CommonAngles| && gaps[j] == gaps[i]
      ensures CommonAngles[i] in CommonAngles[..j + 1]
    {
      assert i <= j;
      assert CommonAngles[..j + 1][i] == CommonAngles[i];
    }
    CommonAngles[i]
  }

  /** The direction from `origin` to `target` in degrees, normalised into [0, 360). */
  function Direction(origin: Point, target: Point, trig: Trig): real
  {
    Normalize(trig.atan2Deg(target.y - origin.y, target.x - origin.x))
  }

  /** How far `norm` is from its nearest common angle. */
  function NearestGap(norm: real): real
  {
    Abs(DiffAngle(norm, NearestCommonAngle(norm)))
  }

  /**
   * `snapToCommonAngles(origin, target, threshold)`: the target itself when it
   * coincides with the origin or when its direction is more than `threshold`
   * from every common angle; otherwise the target turned onto the nearest
   * common angle about the origin.
   */
  function SnapToCommonAngles(origin: Point, target: Point, threshold: real, trig: Trig): (r: Point)
    ensures origin == target ==> r == target
    ensures origin != target && NearestGap(Direction(origin, target, trig)) > threshold ==> r == target
    ensures origin != target && NearestGap(Direction(origin, target, trig)) <= threshold ==>
      r == trig.toward(origin, target, NearestCommonAngle(Direction(origin, target, trig)))
  {
    var dx := target.x - origin.x;
    var dy := target.y - origin.y;
    assert dx == 0.0 && dy == 0.0 <==> origin == target;
    if dx == 0.0 && dy == 0.0 then target
    else
      var norm := Direction(origin, target, trig);
      var nearest := NearestCommonAngle(norm);
      var diff := Abs(DiffAngle(norm, nearest));
      if diff <= threshold then trig.toward(origin, target, nearest) else target
  }

  /** Directions that differ by whole turns normalize to the same angle. */
  lemma NormalizeWholeTurns(a: real, b: real)
    requires IsInt((a - b) / 360.0)
    ensures Normalize(a) == Normalize(b)
  {
    var x := Normalize(a);
    var y := Normalize(b);
    assert (a - x) / 360.0 - (a - b) / 360.0 == (b - x) / 360.0;
    IntDifference((a - x) / 360.0, (a - b) / 360.0);
    assert (b - x) / 360.0 - (b - y) / 360.0 == (y - x) / 360.0;
    IntDifference((b - x) / 360.0, (b - y) / 360.0);
    WholeWithinOne((y - x) / 360.0);
  }

  /** The only whole number strictly between -1 and 1 is 0. */
  lemma WholeWithinOne(t: real)
    requires IsInt(t) && -1.0 < t < 1.0
    ensures t == 0.0
  {
  }

  // ---------------------------------------------------------------------------
  // Grid

  /** `gridSizePx(mm)`: millimetres to pixels at the device density, floored at 160 dpi. */
  function GridSizePx(densityDpi: real, mm: real): (px: real)
    ensures densityDpi >= MinDpi ==> px * 25.4 == mm * densityDpi
    ensures densityDpi < MinDpi ==> px * 25.4 == mm * MinDpi
    ensures mm > 0.0 ==> px >= mm * MinDpi / 25.4
    ensures mm <= 0.0 ==> px <= 0.0
  {
    var dpi := if densityDpi < MinDpi then MinDpi else densityDpi;
    assert mm > 0.0 ==> mm * dpi >= mm * MinDpi;
    assert mm <= 0.0 ==> mm * dpi <= 0.0;
    assert (mm * (dpi / 25.4)) * 25.4 == mm * dpi;
    mm * (dpi / 25.4)
  }

  /**
   * Rounding to a step with `roundToInt` (ties toward positive infinity): each
   * coordinate becomes a multiple of the step in (v - step/2, v + step/2]; a
   * step that is not positive leaves the point alone.
   */
  function SnapToStep(p: Point, step: real): (q: Point)
    ensures step <= 0.0 ==> q == p
    ensures step > 0.0 ==>
      && IsInt(q.x / step) && -step / 2.0 < q.x - p.x <= step / 2.0
      && IsInt(q.y / step) && -step / 2.0 < q.y - p.y <= step / 2.0
  {
    if step <= 0.0 then p
    else Point(RoundUpToMultiple(p.x, step), RoundUpToMultiple(p.y, step))
  }

  function RoundUpToMultiple(v: real, step: real): (g: real)
    requires step > 0.0
    ensures IsInt(g / step) && -step / 2.0 < g - v <= step / 2.0
  {
    var n := RoundHalfUp(v / step);
    StepBounds(v, step, n);
    n as real * step
  }

  lemma StepBounds(v: real, step: real, n: int)
    requires step > 0.0
    requires n as real - 0.5 <= v / step < n as real + 0.5
    ensures IsInt((n as real * step) / step)
    ensures -step / 2.0 < n as real * step - v <= step / 2.0
  {
    var q := v / step;
    var e := n as real - q;
    assert (n as real * step) / step == n as real;
    assert (n as real).Floor == n;
    assert q * step == v;
    assert n as real * step - v == e * step;
    assert -0.5 < e <= 0.5;
    assert -0.5 * step < e * step <= 0.5 * step;
  }

  /** A grid point stays where it is: snapping to the grid twice is snapping once. */
  lemma SnapToStepIdempotent(p: Point, step: real)
    ensures SnapToStep(SnapToStep(p, step), step) == SnapToStep(p, step)
  {
    if step > 0.0 {
      var q := SnapToStep(p, step);
      MultipleStays(q.x, step);
      MultipleStays(q.y, step);
    }
  }

  lemma MultipleStays(g: real, step: real)
    requires step > 0.0 && IsInt(g / step)
    ensures RoundUpToMultiple(g, step) == g
  {
    var n := (g / step).Floor;
    assert n as real == g / step;
    var m := RoundHalfUp(g / step);
    assert m == n;
    assert n as real * step == g;
  }

  /** `snapToGrid(p, context, mm)` with the context reduced to its screen density. */
  function SnapToGrid(p: Point, densityDpi: real, mm: real): (q: Point)
    ensures mm <= 0.0 ==> q == p
    ensures mm > 0.0 ==> q == SnapToStep(p, GridSizePx(densityDpi, mm))
  {
    SnapToStep(p, GridSizePx(densityDpi, mm))
  }

  // ---------------------------------------------------------------------------
  // Line intersection

  /** The determinant `lineIntersection` divides by; zero exactly when the lines are parallel. */
  function Det(p1: Point, p2: Point, p3: Point, p4: Point): real
  {
    (p1.x - p2.x) * (p3.y - p4.y) - (p1.y - p2.y) * (p3.x - p4.x)
  }

  /** `q` lies on the infinite line through `a` and `b` (cross product zero). */
  predicate OnLine(q: Point, a: Point, b: Point)
  {
    (q.x - a.x) * (b.y - a.y) - (q.y - a.y) * (b.x - a.x) == 0.0
  }

  /**
   * `lineIntersection(p1, p2, p3, p4)`: no point exactly when the determinant
   * is zero; otherwise the point lies on both infinite lines p1p2 and p3p4.
   */
  function LineIntersection(p1: Point, p2: Point, p3: Point, p4: Point): (r: Option<Point>)
    ensures r.None? <==> Det(p1, p2, p3, p4) == 0.0
    ensures r.Some? ==> OnLine(r.value, p1, p2) && OnLine(r.value, p3, p4)
  {
    var d := Det(p1, p2, p3, p4);
    if d == 0.0 then None
    else
      IntersectionOnLines(p1, p2, p3, p4);
      Some(Point(NumX(p1, p2, p3, p4) / d, NumY(p1, p2, p3, p4) / d))
  }

  /** The numerators of the intersection formula (homogeneous coordinates with weight `Det`). */
  function NumX(p1: Point, p2: Point, p3: Point, p4: Point): real
  {
    (p1.x * p2.y - p1.y * p2.x) * (p3.x - p4.x) - (p1.x - p2.x) * (p3.x * p4.y - p3.y * p4.x)
  }

  function NumY(p1: Point, p2: Point, p3: Point, p4: Point): real
  {
    (p1.x * p2.y - p1.y * p2.x) * (p3.y - p4.y) - (p1.y - p2.y) * (p3.x * p4.y - p3.y * p4.x)
  }

  lemma IntersectionOnLines(p1: Point, p2: Point, p3: Point, p4: Point)
    requires Det(p1, p2, p3, p4) != 0.0
    ensures var d := Det(p1, p2, p3, p4);
      var q := Point(NumX(p1, p2, p3, p4) / d, NumY(p1, p2, p3, p4) / d);
      OnLine(q, p1, p2) && OnLine(q, p3, p4)
  {
    var d := Det(p1, p2, p3, p4);
    FirstLineIdentity(p1, p2, p3, p4);
    SecondLineIdentity(p1, p2, p3, p4);
    ScaledCross(NumX(p1, p2, p3, p4), NumY(p1, p2, p3, p4), d, p1, p2);
    ScaledCross(NumX(p1, p2, p3, p4), NumY(p1, p2, p3, p4), d, p3, p4);
  }

  /** The homogeneous intersection point lies on the line through `p1` and `p2`. */
  lemma FirstLineIdentity(p1: Point, p2: Point, p3: Point, p4: Point)
    ensures var d := Det(p1, p2, p3, p4);
      (NumX(p1, p2, p3, p4) - p1.x * d) * (p2.y - p1.y) - (NumY(p1, p2, p3, p4) - p1.y * d) * (p2.x - p1.x) == 0.0
  {
  }

  /** The homogeneous intersection point lies on the line through `p3` and `p4`. */
  lemma SecondLineIdentity(p1: Point, p2: Point, p3: Point, p4: Point)
    ensures var d := Det(p1, p2, p3, p4);
      (NumX(p1, p2, p3, p4) - p3.x * d) * (p4.y - p3.y) - (NumY(p1, p2, p3, p4) - p3.y * d) * (p4.x - p3.x) == 0.0
  {
  }

  /** Dividing the homogeneous coordinates by `d` keeps a zero cross product zero. */
  lemma ScaledCross(X: real, Y: real, d: real, a: Point, b: Point)
    requires d != 0.0
    requires (X - a.x * d) * (b.y - a.y) - (Y - a.y * d) * (b.x - a.x) == 0.0
    ensures OnLine(Point(X / d, Y / d), a, b)
  {
    assert X / d - a.x == (X - a.x * d) / d;
    assert Y / d - a.y == (Y - a.y * d) / d;
    assert (X / d - a.x) * (b.y - a.y) - (Y / d - a.y) * (b.x - a.x)
        == ((X - a.x * d) * (b.y - a.y) - (Y - a.y * d) * (b.x - a.x)) / d;
  }

  // ---------------------------------------------------------------------------
  // Point candidates

  /** The midpoint of each segment. */
  function Midpoints(segs: seq<(Point, Point)>): (ms: seq<Point>)
    ensures |ms| == |segs|
    ensures forall i | 0 <= i < |segs| :: ms[i] == Midpoint(segs[i].0, segs[i].1)
  {
    seq(|segs|, i requires 0 <= i < |segs| => Midpoint(segs[i].0, segs[i].1))
  }

  /** For each shape in order: its vertices, then the midpoints of its consecutive vertex pairs. */
  function ShapePoints(shapes: seq<Polyline>): seq<Point>
    decreases |shapes|
  {
    if shapes == [] then []
    else shapes[0].points + Midpoints(Segments(shapes[0].points)) + ShapePoints(shapes[1..])
  }

  /** Every segment of every shape, shape by shape. */
  function AllSegments(shapes: seq<Polyline>): seq<(Point, Point)>
    decreases |shapes|
  {
    if shapes == [] then [] else Segments(shapes[0].points) + AllSegments(shapes[1..])
  }

  /** The intersection of segment line `a` with each segment line of `bs` that has one, in order. */
  function IntersectWith(a: (Point, Point), bs: seq<(Point, Point)>): seq<Point>
    decreases |bs|
  {
    if bs == [] then []
    else
      var here := match LineIntersection(a.0, a.1, bs[0].0, bs[0].1)
        case Some(q) => [q]
        case None => [];
      here + IntersectWith(a, bs[1..])
  }

  /** Every non-null intersection of a line of `lines` with a line of `bs`, in nested-loop order. */
  function Intersections(lines: seq<(Point, Point)>, bs: seq<(Point, Point)>): seq<Point>
    decreases |lines|
  {
    if lines == [] then [] else IntersectWith(lines[0], bs) + Intersections(lines[1..], bs)
  }

  /** The anchors of the present instruments: ruler, set-square, protractor, compass centre. */
  function Anchors(state: DrawingUiState): seq<Point>
  {
    (if state.ruler.Some? then [state.ruler.value.position] else [])
    + (if state.setSquare.Some? then [state.setSquare.value.position] else [])
    + (if state.protractor.Some? then [state.protractor.value.position] else [])
    + (if state.compass.Some? then [state.compass.value.center] else [])
  }

  /** The candidate list of `snapToNearbyPoints`, in generation order. */
  function Candidates(state: DrawingUiState): seq<Point>
  {
    var segs := AllSegments(state.shapes);
    ShapePoints(state.shapes) + Intersections(segs, segs) + Anchors(state)
  }

  lemma {:induction false} VertexInShapePoints(shapes: seq<Polyline>, si: nat, k: nat)
    requires si < |shapes| && k < |shapes[si].points|
    ensures shapes[si].points[k] in ShapePoints(shapes)
    ensures k + 1 < |shapes[si].points| ==>
      Midpoint(shapes[si].points[k], shapes[si].points[k + 1]) in ShapePoints(shapes)
    decreases si
  {
    var pts := shapes[0].points;
    var head := pts + Midpoints(Segments(pts));
    assert ShapePoints(shapes) == head + ShapePoints(shapes[1..]);
    if si == 0 {
      assert pts[k] == head[k];
      if k + 1 < |pts| {
        assert head[|pts| + k] == Midpoint(pts[k], pts[k + 1]);
      }
    } else {
      VertexInShapePoints(shapes[1..], si - 1, k);
    }
  }

  lemma {:induction false} SegmentInAllSegments(shapes: seq<Polyline>, si: nat, k: nat)
    requires si < |shapes| && k + 1 < |shapes[si].points|
    ensures (shapes[si].points[k], shapes[si].points[k + 1]) in AllSegments(shapes)
    decreases si
  {
    var segs := Segments(shapes[0].points);
    assert AllSegments(shapes) == segs + AllSegments(shapes[1..]);
    if si == 0 {
      assert segs[k] == (shapes[0].points[k], shapes[0].points[k + 1]);
    } else {
      SegmentInAllSegments(shapes[1..], si - 1, k);
    }
  }

  lemma {:induction false} IntersectionInIntersections(lines: seq<(Point, Point)>, bs: seq<(Point, Point)>, a: (Point, Point), b: (Point, Point))
    requires a in lines && b in bs && LineIntersection(a.0, a.1, b.0, b.1).Some?
    ensures LineIntersection(a.0, a.1, b.0, b.1).value in Intersections(lines, bs)
    decreases |lines|
  {
    if lines[0] == a {
      IntersectionInIntersectWith(a, bs, b);
    } else {
      IntersectionInIntersections(lines[1..], bs, a, b);
    }
  }

  lemma {:induction false} IntersectionInIntersectWith(a: (Point, Point), bs: seq<(Point, Point)>, b: (Point, Point))
    requires b in bs && LineIntersection(a.0, a.1, b.0, b.1).Some?
    ensures LineIntersection(a.0, a.1, b.0, b.1).value in IntersectWith(a, bs)
    decreases |bs|
  {
    if bs[0] != b {
      IntersectionInIntersectWith(a, bs[1..], b);
    }
  }

  /**
   * The candidate list holds every vertex of every shape, the midpoint of
   * every consecutive vertex pair, every intersection of two segment lines
   * that have one, and the anchor of every present instrument.
   */
  lemma CandidatesComplete(state: DrawingUiState)
    ensures forall si, k | 0 <= si < |state.shapes| && 0 <= k < |state.shapes[si].points| ::
      state.shapes[si].points[k] in Candidates(state)
    ensures forall si, k | 0 <= si < |state.shapes| && 0 <= k && k + 1 < |state.shapes[si].points| ::
      Midpoint(state.shapes[si].points[k], state.shapes[si].points[k + 1]) in Candidates(state)
    ensures forall a, b | a in AllSegments(state.shapes) && b in AllSegments(state.shapes)
                        && LineIntersection(a.0, a.1, b.0, b.1).Some? ::
      LineIntersection(a.0, a.1, b.0, b.1).value in Candidates(state)
    ensures state.ruler.Some? ==> state.ruler.value.position in Candidates(state)
    ensures state.setSquare.Some? ==> state.setSquare.value.position in Candidates(state)
    ensures state.protractor.Some? ==> state.protractor.value.position in Candidates(state)
    ensures state.compass.Some? ==> state.compass.value.center in Candidates(state)
  {
    var segs := AllSegments(state.shapes);
    var sp := ShapePoints(state.shapes);
    var xs := Intersections(segs, segs);
    var an := Anchors(state);
    assert Candidates(state) == sp + xs + an;
    forall si, k | 0 <= si < |state.shapes| && 0 <= k < |state.shapes[si].points|
      ensures state.shapes[si].points[k] in Candidates(state)
      ensures k + 1 < |state.shapes[si].points| ==>
        Midpoint(state.shapes[si].points[k], state.shapes[si].points[k + 1]) in Candidates(state)
    {
      VertexInShapePoints(state.shapes, si, k);
    }
    forall a, b | a in segs && b in segs && LineIntersection(a.0, a.1, b.0, b.1).Some?
      ensures LineIntersection(a.0, a.1, b.0, b.1).value in Candidates(state)
    {
      IntersectionInIntersections(segs, segs, a, b);
    }
  }

  /** `c` is a vertex of some shape or the midpoint of two consecutive vertices of one. */
  predicate FromShape(shapes: seq<Polyline>, c: Point)
  {
    exists si, k | 0 <= si < |shapes| && 0 <= k < |shapes[si].points| ::
      c == shapes[si].points[k]
      || (k + 1 < |shapes[si].points| && c == Midpoint(shapes[si].points[k], shapes[si].points[k + 1]))
  }

  /** `c` is where a line of `lines` meets a line of `bs`. */
  predicate Crossing(lines: seq<(Point, Point)>, bs: seq<(Point, Point)>, c: Point)
  {
    exists a, b | a in lines && b in bs :: LineIntersection(a.0, a.1, b.0, b.1) == Some(c)
  }

  /**
   * Nothing else is a candidate: each one is a vertex or segment midpoint of a
   * shape, an intersection of two segment lines, or the anchor of an instrument.
   */
  lemma CandidatesSound(state: DrawingUiState, c: Point)
    requires c in Candidates(state)
    ensures || FromShape(state.shapes, c)
            || Crossing(AllSegments(state.shapes), AllSegments(state.shapes), c)
            || c in Anchors(state)
  {
    var segs := AllSegments(state.shapes);
    assert Candidates(state) == ShapePoints(state.shapes) + Intersections(segs, segs) + Anchors(state);
    if c in ShapePoints(state.shapes) {
      ShapePointsSound(state.shapes, c);
    } else if c in Intersections(segs, segs) {
      IntersectionsSound(segs, segs, c);
    }
  }

  lemma {:induction false} ShapePointsSound(shapes: seq<Polyline>, c: Point)
    requires c in ShapePoints(shapes)
    ensures FromShape(shapes, c)
    decreases |shapes|
  {
    var pts := shapes[0].points;
    var ms := Midpoints(Segments(pts));
    assert ShapePoints(shapes) == pts + ms + ShapePoints(shapes[1..]);
    if c in pts {
      var k :| 0 <= k < |pts| && pts[k] == c;
      assert shapes[0].points[k] == c;
    } else if c in ms {
      var i :| 0 <= i < |ms| && ms[i] == c;
      assert c == Midpoint(shapes[0].points[i], shapes[0].points[i + 1]);
    } else {
      ShapePointsSound(shapes[1..], c);
      var si, k :| 0 <= si < |shapes[1..]| && 0 <= k < |shapes[1..][si].points| &&
        (c == shapes[1..][si].points[k]
         || (k + 1 < |shapes[1..][si].points| && c == Midpoint(shapes[1..][si].points[k], shapes[1..][si].points[k + 1])));
      assert shapes[1..][si] == shapes[si + 1];
    }
  }

  lemma {:induction false} IntersectionsSound(lines: seq<(Point, Point)>, bs: seq<(Point, Point)>, c: Point)
    requires c in Intersections(lines, bs)
    ensures Crossing(lines, bs, c)
    decreases |lines|
  {
    if c in IntersectWith(lines[0], bs) {
      IntersectWithSound(lines[0], bs, c);
    } else {
      IntersectionsSound(lines[1..], bs, c);
      var a, b :| a in lines[1..] && b in bs && LineIntersection(a.0, a.1, b.0, b.1) == Some(c);
      assert a in lines;
    }
  }

  lemma {:induction false} IntersectWithSound(a: (Point, Point), bs: seq<(Point, Point)>, c: Point)
    requires c in IntersectWith(a, bs)
    ensures exists b | b in bs :: LineIntersection(a.0, a.1, b.0, b.1) == Some(c)
    decreases |bs|
  {
    if LineIntersection(a.0, a.1, bs[0].0, bs[0].1) == Some(c) {
      assert bs[0] in bs;
    } else {
      assert c in IntersectWith(a, bs[1..]);
      IntersectWithSound(a, bs[1..], c);
      var b :| b in bs[1..] && LineIntersection(a.0, a.1, b.0, b.1) == Some(c);
      assert b in bs;
    }
  }

  // ---------------------------------------------------------------------------
  // Selection

  /**
   * The selection loop of `snapToNearbyPoints`: the index of the first
   * candidate at the smallest distance among those within the radius.
   */
  function NearestWithin(p: Point, cands: seq<Point>, radius: real): (r: Option<nat>)
    ensures r.None? <==> forall j | 0 <= j < |cands| :: !Within(p, cands[j], radius)
    ensures r.Some? ==>
      && r.value < |cands|
      && Within(p, cands[r.value], radius)
      && (forall j | 0 <= j < |cands| && Within(p, cands[j], radius) ::
            DistSq(p, cands[r.value]) <= DistSq(p, cands[j]))
      && (forall j | 0 <= j < r.value && Within(p, cands[j], radius) ::
            DistSq(p, cands[r.value]) < DistSq(p, cands[j]))
    decreases |cands|
  {
    if cands == [] then None
    else
      var n := |cands| - 1;
      var prev := NearestWithin(p, cands[..n], radius);
      if Within(p, cands[n], radius) && (prev.None? || Closer(p, cands[n], cands[prev.value]))
      then Some(n)
      else prev
  }

  /**
   * `p` itself when no point of `cands` is within the radius; otherwise a
   * point of `cands` within it that no other beats, the earliest among equally
   * near ones.
   */
  function NearestOrSelf(p: Point, cands: seq<Point>, radius: real): (q: Point)
    ensures (forall j | 0 <= j < |cands| :: !Within(p, cands[j], radius)) ==> q == p
    ensures (exists j | 0 <= j < |cands| :: Within(p, cands[j], radius)) ==>
      && q in cands
      && Within(p, q, radius)
      && (forall j | 0 <= j < |cands| && Within(p, cands[j], radius) :: DistSq(p, q) <= DistSq(p, cands[j]))
      && (forall j | 0 <= j < |cands| && Within(p, cands[j], radius) && DistSq(p, cands[j]) == DistSq(p, q) ::
            q in cands[..j + 1])
  {
    match NearestWithin(p, cands, radius)
    case None => p
    case Some(i) =>
      assert cands[i] == cands[..i + 1][i];
      forall j | 0 <= j < |cands| && Within(p, cands[j], radius) && DistSq(p, cands[j]) == DistSq(p, cands[i])
        ensures cands[i] in cands[..j + 1]
      {
        assert cands[..j + 1][i] == cands[i];
      }
      cands[i]
  }

  /**
   * `snapToNearbyPoints(p, state, radius)`: the nearest candidate of the
   * drawing within the radius, or `p` when there is none.
   */
  function SnapToNearbyPoints(p: Point, state: DrawingUiState, radius: real): (q: Point)
    ensures var cands := Candidates(state);
      && ((forall j | 0 <= j < |cands| :: !Within(p, cands[j], radius)) ==> q == p)
      && ((exists j | 0 <= j < |cands| :: Within(p, cands[j], radius)) ==>
            && q in cands
            && Within(p, q, radius)
            && (forall j | 0 <= j < |cands| && Within(p, cands[j], radius) :: DistSq(p, q) <= DistSq(p, cands[j]))
            && (forall j | 0 <= j < |cands| && Within(p, cands[j], radius) && DistSq(p, cands[j]) == DistSq(p, q) ::
                  q in cands[..j + 1]))
  {
    NearestOrSelf(p, Candidates(state), radius)
  }

  // ---------------------------------------------------------------------------
  // Combination

  /** Position of a label in the Point, Angle, Grid order results are produced in. */
  function Rank(kind: string): nat
  {
    if kind == PointLabel then 0 else if kind == AngleLabel then 1 else 2
  }

  /** The entry for one snap kind: present only when the snapped point differs from the input. */
  function Entry(input: Point, snapped: Point, kind: string): (e: seq<SnapResult>)
    ensures snapped == input ==> e == []
    ensures snapped != input ==> e == [SnapResult(snapped, kind)]
  {
    if snapped != input then [SnapResult(snapped, kind)] else []
  }

  /** The anchor of angle snapping: the last point of the stroke in progress, else the input itself. */
  function AngleBase(input: Point, state: DrawingUiState): (b: Point)
    ensures state.currentPolyline == [] ==> b == input
    ensures state.currentPolyline != [] ==> b in state.currentPolyline && b == state.currentPolyline[|state.currentPolyline| - 1]
  {
    if state.currentPolyline == [] then input else state.currentPolyline[|state.currentPolyline| - 1]
  }

  /** Entries in strictly increasing Point, Angle, Grid order: at most one of each kind. */
  predicate RankOrdered(rs: seq<SnapResult>)
  {
    forall k, l | 0 <= k < l < |rs| :: Rank(rs[k].kind) < Rank(rs[l].kind)
  }

  /**
   * `rs` is the list built from the three snapped points: at most the Point,
   * Angle and Grid entries, in that order, each present exactly when that snap
   * moved the input, and nothing else.
   */
  predicate Assembled(input: Point, toPoint: Point, toAngle: Point, toGrid: Point, rs: seq<SnapResult>)
  {
    && |rs| <= 3
    && RankOrdered(rs)
    && (forall k | 0 <= k < |rs| :: rs[k].point != input)
    && (forall k | 0 <= k < |rs| ::
          rs[k] in {SnapResult(toPoint, PointLabel), SnapResult(toAngle, AngleLabel), SnapResult(toGrid, GridLabel)})
    && (SnapResult(toPoint, PointLabel) in rs <==> toPoint != input)
    && (SnapResult(toAngle, AngleLabel) in rs <==> toAngle != input)
    && (SnapResult(toGrid, GridLabel) in rs <==> toGrid != input)
  }

  /** The Point, Angle and Grid entries in that order, each only when it moved the input. */
  function Combine(input: Point, toPoint: Point, toAngle: Point, toGrid: Point): (rs: seq<SnapResult>)
    ensures Assembled(input, toPoint, toAngle, toGrid, rs)
    ensures toAngle == input ==> forall k | 0 <= k < |rs| :: rs[k].kind != AngleLabel
  {
    Entry(input, toPoint, PointLabel) + Entry(input, toAngle, AngleLabel) + Entry(input, toGrid, GridLabel)
  }

  /** The `results` list of `snapPointToAll`: Point, Angle, Grid, each only when it moved the input. */
  function Results(input: Point, state: DrawingUiState, radius: real, densityDpi: real, trig: Trig)
    : (rs: seq<SnapResult>)
    ensures Assembled(input, SnapToNearbyPoints(input, state, radius),
                      SnapToCommonAngles(AngleBase(input, state), input, AngleThreshold, trig),
                      SnapToGrid(input, densityDpi, GridMm), rs)
    ensures state.currentPolyline == [] ==> forall k | 0 <= k < |rs| :: rs[k].kind != AngleLabel
  {
    var toPoint := SnapToNearbyPoints(input, state, radius);
    var toAngle := SnapToCommonAngles(AngleBase(input, state), input, AngleThreshold, trig);
    var toGrid := SnapToGrid(input, densityDpi, GridMm);
    Combine(input, toPoint, toAngle, toGrid)
  }

  /** Every element of `xs` except those equal to `x`, in order (`filter { it != x }`). */
  function Without(xs: seq<SnapResult>, x: SnapResult): (ys: seq<SnapResult>)
    ensures forall y :: y in ys <==> y in xs && y != x
    ensures |ys| <= |xs|
    decreases |xs|
  {
    if xs == [] then []
    else (if xs[0] == x then [] else [xs[0]]) + Without(xs[1..], x)
  }

  function Distances(input: Point, rs: seq<SnapResult>): (ds: seq<real>)
    ensures |ds| == |rs|
    ensures forall k | 0 <= k < |rs| :: ds[k] == DistSq(input, rs[k].point)
  {
    seq(|rs|, k requires 0 <= k < |rs| => DistSq(input, rs[k].point))
  }

  /**
   * `snapPointToAll(input, state, context, vm)`, the context reduced to its
   * screen density and the radius taken from the view model.
   */
  function SnapPointToAll(input: Point, state: DrawingUiState, densityDpi: real,
                          vm: ViewModel.DrawingViewModel, trig: Trig): (sc: SnapCandidates)
    requires vm.state.zoomLevel != 0.0
    ensures var rs := Results(input, state, ViewModel.CurrentSnapRadiusPx(vm), densityDpi, trig);
      && (rs == [] <==> sc.chosen == SnapResult(input, NoneLabel))
      && (rs != [] ==> sc.chosen in rs)
      // closest wins; on a tie the earlier of Point, Angle, Grid
      && (forall k | 0 <= k < |rs| :: DistSq(input, sc.chosen.point) <= DistSq(input, rs[k].point))
      && (forall k | 0 <= k < |rs| && rs[k] != sc.chosen && DistSq(input, rs[k].point) == DistSq(input, sc.chosen.point) ::
            Rank(sc.chosen.kind) < Rank(rs[k].kind))
      // the alternatives are exactly the other results
      && (forall x :: x in sc.alternatives <==> x in rs && x != sc.chosen)
      && |sc.alternatives| == (if rs == [] then 0 else |rs| - 1)
      && RankOrdered(sc.alternatives)
    ensures state.currentPolyline == [] ==> sc.chosen.kind != AngleLabel
  {
    var radius := ViewModel.CurrentSnapRadiusPx(vm);
    var rs := Results(input, state, radius, densityDpi, trig);
    if rs == [] then SnapCandidates(SnapResult(input, NoneLabel), [])
    else
      var ds := Distances(input, rs);
      var i := FirstMin(ds);
      var chosen := rs[i];
      forall k | 0 <= k < |rs| && rs[k] != chosen && DistSq(input, rs[k].point) == DistSq(input, chosen.point)
        ensures Rank(chosen.kind) < Rank(rs[k].kind)
      {
        assert ds[k] == ds[i];
        assert k != i;
        assert i < k;
      }
      WithoutDistinct(rs, i);
      WithoutKeepsOrder(rs, chosen);
      SnapCandidates(chosen, Without(rs, chosen))
  }

  /** Removing one element of a list of distinct-rank results removes exactly one entry. */
  lemma WithoutDistinct(rs: seq<SnapResult>, i: nat)
    requires i < |rs|
    requires RankOrdered(rs)
    ensures |Without(rs, rs[i])| == |rs| - 1
    decreases |rs|
  {
    if i == 0 {
      WithoutAbsent(rs[1..], rs[0]);
    } else {
      assert rs[0] != rs[i];
      WithoutDistinct(rs[1..], i - 1);
    }
  }

  lemma WithoutAbsent(xs: seq<SnapResult>, x: SnapResult)
    requires x !in xs
    ensures Without(xs, x) == xs
    decreases |xs|
  {
    if xs != [] {
      WithoutAbsent(xs[1..], x);
    }
  }

  /** `filter` keeps the Point, Angle, Grid order of what it keeps. */
  lemma {:induction false} WithoutKeepsOrder(xs: seq<SnapResult>, x: SnapResult)
    requires RankOrdered(xs)
    ensures RankOrdered(Without(xs, x))
    decreases |xs|
  {
    if xs != [] {
      var rest := Without(xs[1..], x);
      WithoutKeepsOrder(xs[1..], x);
      forall y | y in rest
        ensures Rank(xs[0].kind) < Rank(y.kind)
      {
        var j :| 0 <= j < |xs[1..]| && xs[1..][j] == y;
        assert xs[j + 1] == y;
      }
    }
  }
}
