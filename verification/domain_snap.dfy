/**
 * The domain snap engine (`domain/snap/SnapEngine.kt`): a single pass over
 * point candidates, then the grid candidate, then the angle candidate, each
 * replacing the running best under its own rule.
 *
 * Point candidates are taken in list order and the LAST one within the radius
 * wins (not the nearest). The grid candidate replaces the best only when it is
 * strictly closer, and so does the angle candidate: on equal distances a point
 * beats the grid and the grid beats the angle.
 */
module DomainSnap {
  import opened Geometry
  import opened Wrappers

  /** `Config`: grid spacing and snap radius in pixels before zoom. */
  datatype Config = Config(gridSpacingPx: real, baseSnapRadiusPx: real)

  /** The effective radius never drops below this many pixels. */
  const MinRadiusPx: real := 6.0

  /** Angles within this many degrees of a common angle snap to it. */
  const AngleTolerance: real := 7.0

  datatype Reason = NoSnap | GridSnap | PointSnap | AngleSnap

  datatype Result = Result(snapped: Point, reason: Reason)

  /**
   * The trigonometry the engine relies on, left uninterpreted: the direction
   * of a line in degrees (`angleDeg`, via `atan2`) and the rotation of a point
   * about an origin by a number of degrees (`rotateAround`).
   */
  datatype Trig = Trig(angleDeg: Line -> real, rotateAround: (Point, Point, real) -> Point)

  /** `(baseSnapRadiusPx / zoom).coerceAtLeast(6f)`. */
  function EffectiveRadius(zoom: real, config: Config): (r: real)
    requires zoom != 0.0
    ensures r >= MinRadiusPx
    ensures r >= config.baseSnapRadiusPx / zoom
    ensures r == MinRadiusPx || r == config.baseSnapRadiusPx / zoom
  {
    var scaled := config.baseSnapRadiusPx / zoom;
    if scaled < MinRadiusPx then MinRadiusPx else scaled
  }

  /** `normDeg(d)`: the remainder by 360 folded into [-180, 180]. */
  function NormDeg(d: real): (a: real)
    ensures -180.0 <= a <= 180.0
    ensures IsInt((d - a) / 360.0)
    ensures d >= 0.0 ==> a > -180.0
    ensures d <= 0.0 ==> a < 180.0
  {
    var r := FMod(d, 360.0);
    if r < -180.0 then
      ShiftByTurn(d, r, 1.0);
      r + 360.0
    else if r > 180.0 then
      ShiftByTurn(d, r, -1.0);
      r - 360.0
    else r
  }

  /** Adding a whole turn keeps two angles congruent modulo 360. */
  lemma ShiftByTurn(d: real, r: real, turns: real)
    requires IsInt((d - r) / 360.0) && IsInt(turns)
    ensures IsInt((d - (r + turns * 360.0)) / 360.0)
  {
    var k := (d - r) / 360.0;
    assert (d - (r + turns * 360.0)) / 360.0 == k - turns;
    IntDifference(k, turns);
  }

  /** How far `deg` is from the common angle `c`, the shorter way round. */
  function Gap(deg: real, c: real): (g: real)
    ensures 0.0 <= g <= 180.0
  {
    var n := NormDeg(deg - c);
    if n < 0.0 then -n else n
  }

  predicate Eligible(deg: real, c: real)
  {
    Gap(deg, c) <= AngleTolerance
  }

  /**
   * Index `i` is the common angle `snapAngle` picks among the first `k`:
   * eligible, no farther than any eligible angle, and strictly nearer than
   * every eligible angle before it.
   */
  predicate BestCommonAtUpTo(deg: real, i: int, k: int)
    requires 0 <= k <= |CommonAngles|
  {
    && 0 <= i < k
    && Eligible(deg, CommonAngles[i])
    && (forall j | 0 <= j < k && Eligible(deg, CommonAngles[j]) ::
          Gap(deg, CommonAngles[i]) <= Gap(deg, CommonAngles[j]))
    && (forall j | 0 <= j < i && Eligible(deg, CommonAngles[j]) ::
          Gap(deg, CommonAngles[i]) < Gap(deg, CommonAngles[j]))
  }

  predicate BestCommonAt(deg: real, i: int)
  {
    BestCommonAtUpTo(deg, i, |CommonAngles|)
  }

  /** What the loop of `snapAngle` knows after the first `k` common angles. */
  predicate ScanInvariant(deg: real, k: int, acc: Option<nat>)
    requires 0 <= k <= |CommonAngles|
  {
    && (acc.None? ==> forall j | 0 <= j < k :: !Eligible(deg, CommonAngles[j]))
    && (acc.Some? ==> BestCommonAtUpTo(deg, acc.value, k))
  }

  /**
   * The loop of `snapAngle` from index `k` on, `acc` holding the best index so
   * far (`None` while `min` is still `Double.MAX_VALUE`).
   */
  function ScanCommon(deg: real, k: nat, acc: Option<nat>): (r: Option<nat>)
    requires k <= |CommonAngles| && ScanInvariant(deg, k, acc)
    ensures r.None? <==> forall j | 0 <= j < |CommonAngles| :: !Eligible(deg, CommonAngles[j])
    ensures r.Some? ==> BestCommonAt(deg, r.value)
    decreases |CommonAngles| - k
  {
    if k == |CommonAngles| then acc
    else
      var d := Gap(deg, CommonAngles[k]);
      var take := d <= AngleTolerance && (acc.None? || d < Gap(deg, CommonAngles[acc.value]));
      var acc' := if take then Some(k) else acc;
      ScanStep(deg, k, acc, acc');
      ScanCommon(deg, k + 1, acc')
  }

  /** One iteration of the `snapAngle` loop keeps `ScanInvariant`. */
  lemma ScanStep(deg: real, k: nat, acc: Option<nat>, acc': Option<nat>)
    requires k < |CommonAngles| && ScanInvariant(deg, k, acc)
    requires var d := Gap(deg, CommonAngles[k]);
      acc' == if d <= AngleTolerance && (acc.None? || d < Gap(deg, CommonAngles[acc.value])) then Some(k) else acc
    ensures ScanInvariant(deg, k + 1, acc')
  {
  }

  /**
   * `snapAngle(deg)`: the nearest common angle within 7°, the earliest in the
   * list on a tie; with none that close, `deg` rounded to a whole degree.
   */
  function SnapAngle(deg: real): (r: real)
    ensures (forall j | 0 <= j < |CommonAngles| :: !Eligible(deg, CommonAngles[j])) ==>
      r == RoundHalfEven(deg) as real
    ensures (exists j | 0 <= j < |CommonAngles| :: Eligible(deg, CommonAngles[j])) ==>
      exists i | 0 <= i < |CommonAngles| :: BestCommonAt(deg, i) && r == CommonAngles[i]
  {
    match ScanCommon(deg, 0, None)
    case Some(i) => CommonAngles[i]
    case None => RoundHalfEven(deg) as real
  }

  /** Every common angle snaps to itself: snapping an already snapped angle changes nothing. */
  lemma SnapAngleFixesCommon(k: nat)
    requires k < |CommonAngles|
    ensures SnapAngle(CommonAngles[k]) == CommonAngles[k]
  {
    var c := CommonAngles[k];
    assert Gap(c, c) == 0.0 by { NormDegZero(); }
    var i := PickedCommon(c, k);
    ZeroGapMeansEqual(k, i);
  }

  /** When `CommonAngles[k]` is eligible, `snapAngle` picks some best common angle no farther than it. */
  lemma PickedCommon(deg: real, k: nat) returns (i: nat)
    requires k < |CommonAngles| && Eligible(deg, CommonAngles[k])
    ensures i < |CommonAngles| && SnapAngle(deg) == CommonAngles[i]
    ensures Gap(deg, CommonAngles[i]) <= Gap(deg, CommonAngles[k])
  {
    var r := ScanCommon(deg, 0, None);
    assert r.Some? by { assert Eligible(deg, CommonAngles[k]); }
    i := r.value;
    BestIsNearest(deg, i, k);
  }

  /** Two common angles at gap zero are the same angle. */
  lemma ZeroGapMeansEqual(k: nat, i: nat)
    requires k < |CommonAngles| && i < |CommonAngles|
    requires Gap(CommonAngles[k], CommonAngles[i]) <= 0.0
    ensures CommonAngles[i] == CommonAngles[k]
  {
    var d := CommonAngles[k] - CommonAngles[i];
    assert NormDeg(d) == 0.0;
    assert -180.0 <= d <= 180.0 by { CommonAnglesRange(k); CommonAnglesRange(i); }
    WholeTurnsWithinHalf(d, NormDeg(d));
  }

  lemma BestIsNearest(deg: real, i: int, k: nat)
    requires BestCommonAt(deg, i) && k < |CommonAngles| && Eligible(deg, CommonAngles[k])
    ensures Gap(deg, CommonAngles[i]) <= Gap(deg, CommonAngles[k])
  {
  }

  lemma CommonAnglesRange(j: nat)
    requires j < |CommonAngles|
    ensures 0.0 <= CommonAngles[j] <= 180.0
  {
  }

  lemma NormDegZero()
    ensures NormDeg(0.0) == 0.0
  {
    var r := FMod(0.0, 360.0);
    var k := (0.0 - r) / 360.0;
    assert k.Floor as real == k;
    assert -1.0 < k < 1.0;
  }

  /** Two angles in [0, 180] whose difference normalises to zero are equal. */
  lemma WholeTurnsWithinHalf(x: real, n: real)
    requires -180.0 <= x <= 180.0 && n == 0.0 && IsInt((x - n) / 360.0)
    ensures x == 0.0
  {
    var k := x / 360.0;
    assert -0.5 <= k <= 0.5;
    assert k.Floor as real == k;
  }

  /**
   * The point loop: the index of the LAST point within the radius, every later
   * point being outside it; `None` when no point is within it.
   */
  function LastWithin(raw: Point, points: seq<Point>, radius: real): (r: Option<nat>)
    ensures r.None? <==> forall j | 0 <= j < |points| :: !Within(raw, points[j], radius)
    ensures r.Some? ==>
      && r.value < |points|
      && Within(raw, points[r.value], radius)
      && forall j | r.value < j < |points| :: !Within(raw, points[j], radius)
    decreases |points|
  {
    if points == [] then None
    else if Within(raw, points[|points| - 1], radius) then Some(|points| - 1)
    else LastWithin(raw, points[..|points| - 1], radius)
  }

  /**
   * The grid candidate: each coordinate rounded (half to even) to a multiple of
   * the spacing. With spacing 0 the float arithmetic yields NaN, whose distance
   * compares false, so there is no candidate.
   */
  function GridCandidate(raw: Point, spacing: real): (g: Option<Point>)
    ensures g.None? <==> spacing == 0.0
    ensures g.Some? ==>
      && IsInt(g.value.x / spacing) && Abs(g.value.x - raw.x) <= Abs(spacing) / 2.0
      && IsInt(g.value.y / spacing) && Abs(g.value.y - raw.y) <= Abs(spacing) / 2.0
      // halfway between two multiples, the even one
      && (Abs(g.value.x - raw.x) == Abs(spacing) / 2.0 ==> (g.value.x / spacing).Floor % 2 == 0)
      && (Abs(g.value.y - raw.y) == Abs(spacing) / 2.0 ==> (g.value.y / spacing).Floor % 2 == 0)
  {
    if spacing == 0.0 then None
    else
      var gx := RoundToMultiple(raw.x, spacing);
      var gy := RoundToMultiple(raw.y, spacing);
      Some(Point(gx, gy))
  }

  /**
   * `round(v / s) * s`: a multiple of `s` at most `|s| / 2` from `v`; when `v`
   * lies exactly halfway between two multiples, the even one.
   */
  function RoundToMultiple(v: real, s: real): (g: real)
    requires s != 0.0
    ensures IsInt(g / s) && Abs(g - v) <= Abs(s) / 2.0
    ensures Abs(g - v) == Abs(s) / 2.0 ==> (g / s).Floor % 2 == 0
  {
    var n := RoundHalfEven(v / s);
    MultipleBounds(v, s, n);
    n as real * s
  }

  lemma MultipleBounds(v: real, s: real, n: int)
    requires s != 0.0
    requires n as real - 0.5 <= v / s <= n as real + 0.5
    requires (v / s == n as real - 0.5 || v / s == n as real + 0.5) ==> n % 2 == 0
    ensures IsInt((n as real * s) / s) && ((n as real * s) / s).Floor == n
    ensures Abs(n as real * s - v) <= Abs(s) / 2.0
    ensures Abs(n as real * s - v) == Abs(s) / 2.0 ==> n % 2 == 0
  {
    WholeMultiple(n, s);
    DivisionWitness(v, s);
    HalfStep(v, s, n as real, v / s);
  }

  /** `n * s` is `n` whole steps of `s`. */
  lemma WholeMultiple(n: int, s: real)
    requires s != 0.0
    ensures IsInt((n as real * s) / s) && ((n as real * s) / s).Floor == n
  {
    CancelScale(n as real, s);
    assert ((n as real * s) / s).Floor == (n as real).Floor;
  }

  /** The angle candidate: `raw` rotated about the line's start by the angle's snap correction. */
  function AngleCandidate(raw: Point, line: Line, trig: Trig): Point
  {
    trig.rotateAround(line.start, raw, Correction(trig.angleDeg(line)))
  }

  /** `angle - snapAngle(angle)`: how far the line's direction is turned to reach its snapped angle. */
  function Correction(angle: real): real
  {
    angle - SnapAngle(angle)
  }

  /** A line already at a common angle needs no correction: the raw point is turned by zero degrees. */
  lemma AngleCandidateOnCommon(raw: Point, line: Line, trig: Trig, k: nat)
    requires k < |CommonAngles| && trig.angleDeg(line) == CommonAngles[k]
    ensures AngleCandidate(raw, line, trig) == trig.rotateAround(line.start, raw, 0.0)
  {
    NoCorrectionAtCommon(trig.angleDeg(line), k);
  }

  lemma NoCorrectionAtCommon(a: real, k: nat)
    requires k < |CommonAngles| && a == CommonAngles[k]
    ensures Correction(a) == 0.0
  {
    SnapAngleFixesCommon(k);
  }

  /** The point candidate, if any: the last point within the radius. */
  function PointPick(raw: Point, points: seq<Point>, radius: real): Option<Point>
  {
    match LastWithin(raw, points, radius)
    case Some(i) => Some(points[i])
    case None => None
  }

  /** The grid candidate if it is within the radius. */
  function GridPick(raw: Point, spacing: real, radius: real): Option<Point>
  {
    match GridCandidate(raw, spacing)
    case Some(g) => if Within(raw, g, radius) then Some(g) else None
    case None => None
  }

  /** The angle candidate if there is a line and the candidate is within the radius. */
  function AnglePick(raw: Point, angleLine: Option<Line>, trig: Trig, radius: real): Option<Point>
  {
    match angleLine
    case Some(l) => var a := AngleCandidate(raw, l, trig); if Within(raw, a, radius) then Some(a) else None
    case None => None
  }

  /** `c` is strictly closer to `raw` than the optional candidate `o` (vacuous when there is none). */
  predicate BeatsOpt(raw: Point, c: Point, o: Option<Point>)
  {
    o.None? || Closer(raw, c, o.value)
  }

  /**
   * `snap(raw, zoom, points, angleLine, config)`.
   *
   * With P, G, A the qualifying point, grid and angle candidates: ANGLE wins
   * when A is strictly closer than both others; otherwise GRID wins when G is
   * strictly closer than P; otherwise POINT when there is a P; otherwise the
   * raw point is returned with NONE.
   */
  function Snap(raw: Point, zoom: real, points: seq<Point>, angleLine: Option<Line>, config: Config, trig: Trig)
    : (res: Result)
    requires zoom != 0.0
    ensures var radius := EffectiveRadius(zoom, config);
      var p := PointPick(raw, points, radius);
      var g := GridPick(raw, config.gridSpacingPx, radius);
      var a := AnglePick(raw, angleLine, trig, radius);
      && (res.reason == NoSnap <==> p.None? && g.None? && a.None?)
      && (res.reason == NoSnap ==> res.snapped == raw)
      && (res.reason != NoSnap ==> Within(raw, res.snapped, radius))
      && (res.reason == AngleSnap <==> a.Some? && BeatsOpt(raw, a.value, p) && BeatsOpt(raw, a.value, g))
      && (res.reason == AngleSnap ==> res.snapped == a.value)
      && (res.reason == GridSnap <==>
            g.Some? && BeatsOpt(raw, g.value, p) && !(a.Some? && Closer(raw, a.value, g.value)))
      && (res.reason == GridSnap ==> res.snapped == g.value)
      && (res.reason == PointSnap ==> p.Some? && res.snapped == p.value)
  {
    var radius := EffectiveRadius(zoom, config);
    // 1) points: the last one within the radius
    var best1: Option<Result> :=
      match PointPick(raw, points, radius)
      case Some(q) => Some(Result(q, PointSnap))
      case None => None;
    // 2) grid: only when strictly closer than the best so far
    var best2: Option<Result> :=
      match GridCandidate(raw, config.gridSpacingPx)
      case Some(gp) =>
        if (best1.None? || Closer(raw, gp, best1.value.snapped)) && Within(raw, gp, radius)
        then Some(Result(gp, GridSnap)) else best1
      case None => best1;
    // 3) angle: only with a line, and only when strictly closer than the best so far
    var best3: Option<Result> :=
      match angleLine
      case Some(l) =>
        var ap := AngleCandidate(raw, l, trig);
        if Within(raw, ap, radius) && (best2.None? || Closer(raw, ap, best2.value.snapped))
        then Some(Result(ap, AngleSnap)) else best2
      case None => best2;
    match best3
    case Some(r) => r
    case None => Result(raw, NoSnap)
  }

  /** When a point and the grid candidate are equally far, the point is kept. */
  lemma PointWinsTieWithGrid(raw: Point, zoom: real, points: seq<Point>, config: Config, trig: Trig)
    requires zoom != 0.0
    requires var radius := EffectiveRadius(zoom, config);
      var p := PointPick(raw, points, radius);
      var g := GridPick(raw, config.gridSpacingPx, radius);
      p.Some? && g.Some? && DistSq(raw, p.value) == DistSq(raw, g.value)
    ensures Snap(raw, zoom, points, None, config, trig).reason == PointSnap
  {
  }
}
