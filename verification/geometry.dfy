/**
 * Geometry kernel: points, lines and polylines over the reals, squared
 * distances, and the rounding and remainder operators of Kotlin's float
 * arithmetic written out explicitly.
 */
module Geometry {

  /** A point of the drawing plane (Kotlin `Point(x: Float, y: Float)`). */
  datatype Point = Point(x: real, y: real)

  /** A directed segment; its direction drives angle snapping. */
  datatype Line = Line(start: Point, end: Point)

  /** The only variant of the sealed `Shape` interface: an identifier and its vertices. */
  datatype Polyline = Polyline(id: string, points: seq<Point>)

  /** Squared Euclidean distance; compared against a squared radius instead of `hypot`. */
  function DistSq(a: Point, b: Point): (d: real)
    ensures d >= 0.0
  {
    var dx := a.x - b.x;
    var dy := a.y - b.y;
    assert dx * dx >= 0.0 && dy * dy >= 0.0;
    dx * dx + dy * dy
  }

  /**
   * `hypot(a - b) <= radius`, stated without a square root: a negative radius
   * admits nothing, otherwise the squared distance is bounded by radius².
   */
  predicate Within(a: Point, b: Point, radius: real)
  {
    radius >= 0.0 && DistSq(a, b) <= radius * radius
  }

  /** `hypot(a - b) < hypot(a - c)`, stated on squares (both sides are non-negative). */
  predicate Closer(a: Point, b: Point, c: Point)
  {
    DistSq(a, b) < DistSq(a, c)
  }

  /** Midpoint of a segment, as `Point((a.x + b.x) / 2f, (a.y + b.y) / 2f)`. */
  function Midpoint(a: Point, b: Point): (m: Point)
    ensures DistSq(a, m) == DistSq(m, b)
  {
    Point((a.x + b.x) / 2.0, (a.y + b.y) / 2.0)
  }

  /** The consecutive vertex pairs of a point list (`windowed(2)`). */
  function Segments(ps: seq<Point>): (segs: seq<(Point, Point)>)
    ensures |ps| < 2 ==> segs == []
    ensures |ps| >= 2 ==> |segs| == |ps| - 1
    ensures forall i :: 0 <= i < |segs| ==> segs[i] == (ps[i], ps[i + 1])
  {
    if |ps| < 2 then [] else [(ps[0], ps[1])] + Segments(ps[1..])
  }

  /** Truncation toward zero of a real, as a float-to-int conversion does. */
  function Trunc(v: real): (n: int)
    ensures v >= 0.0 ==> n as real <= v < n as real + 1.0
    ensures v < 0.0 ==> n as real - 1.0 < v <= n as real
    ensures v == 0.0 ==> n == 0
  {
    if v >= 0.0 then v.Floor else -((-v).Floor)
  }

  /**
   * Kotlin's `a % m` on floating-point values (IEEE fmod): the remainder keeps
   * the sign of the dividend and has magnitude below `m`.
   */
  function FMod(a: real, m: real): (r: real)
    requires m > 0.0
    ensures -m < r < m
    ensures a >= 0.0 ==> r >= 0.0
    ensures a <= 0.0 ==> r <= 0.0
    ensures IsInt((a - r) / m)
  {
    var k := Trunc(a / m);
    var r := (a / m - k as real) * m;
    RemainderFacts(a, m, k, r);
    r
  }

  /** The remainder left by the truncated quotient `k` has the bounds and sign of `fmod`. */
  lemma RemainderFacts(a: real, m: real, k: int, r: real)
    requires m > 0.0 && k == Trunc(a / m) && r == (a / m - k as real) * m
    ensures -m < r < m
    ensures a >= 0.0 ==> r >= 0.0
    ensures a <= 0.0 ==> r <= 0.0
    ensures IsInt((a - r) / m)
  {
    var q := a / m;
    var f := q - k as real;
    assert r == f * m;
    assert (q >= 0.0 <==> a >= 0.0) && (q <= 0.0 <==> a <= 0.0) by { QuotientSign(a, m); }
    assert (q >= 0.0 ==> 0.0 <= f < 1.0) && (q < 0.0 ==> -1.0 < f <= 0.0) && (q == 0.0 ==> f == 0.0) by {
      FractionRange(q, k);
    }
    assert (0.0 <= f < 1.0 ==> 0.0 <= r < m) && (-1.0 < f <= 0.0 ==> -m < r <= 0.0) && (f == 0.0 ==> r == 0.0) by {
      ScaleFraction(f, m, r);
    }
    assert (a - r) / m == k as real by { RemainderIdentity(a, m, k as real, f); }
    assert (k as real).Floor == k;
  }

  /** `q` minus its truncation is a fraction with the sign of `q`. */
  lemma FractionRange(q: real, k: int)
    requires k == Trunc(q)
    ensures q >= 0.0 ==> 0.0 <= q - k as real < 1.0
    ensures q < 0.0 ==> -1.0 < q - k as real <= 0.0
    ensures q == 0.0 ==> q - k as real == 0.0
  {
  }

  /** Dividing by a positive number keeps the sign and is undone by multiplying back. */
  lemma QuotientSign(a: real, m: real)
    requires m > 0.0
    ensures (a / m) * m == a
    ensures a >= 0.0 <==> a / m >= 0.0
    ensures a <= 0.0 <==> a / m <= 0.0
  {
  }

  /** With `f` the fractional part of `a / m` above `k`, `a - f * m` is `k * m`. */
  lemma RemainderIdentity(a: real, m: real, k: real, f: real)
    requires m > 0.0 && f == a / m - k
    ensures (a - f * m) / m == k
  {
    assert (a / m) * m == a;
    assert f * m == a - k * m;
  }

  /** A fraction of magnitude below one, scaled by `m > 0`, stays below `m`. */
  lemma ScaleFraction(f: real, m: real, r: real)
    requires m > 0.0 && r == f * m
    ensures 0.0 <= f < 1.0 ==> 0.0 <= r < m
    ensures -1.0 < f <= 0.0 ==> -m < r <= 0.0
    ensures f == 0.0 ==> r == 0.0
  {
    if f >= 0.0 {
      PositiveProduct(f, m);
    } else {
      PositiveProduct(-f, m);
    }
    if f < 1.0 {
      PositiveProduct(1.0 - f, m);
    }
    if f > -1.0 {
      PositiveProduct(1.0 + f, m);
    }
  }

  /** The product with a positive `m` keeps the sign, and distributes over `1 + x`. */
  lemma PositiveProduct(x: real, m: real)
    requires m > 0.0
    ensures x >= 0.0 ==> x * m >= 0.0
    ensures x > 0.0 ==> x * m > 0.0
    ensures x == 0.0 ==> x * m == 0.0
    ensures (1.0 - x) * m == m - x * m && (1.0 + x) * m == m + x * m && (-x) * m == -(x * m)
  {
  }

  /** Multiplying and then dividing by the same non-zero factor gives the value back. */
  lemma CancelScale(x: real, s: real)
    requires s != 0.0
    ensures (x * s) / s == x
  {
    var t := (x * s) / s;
    assert t * s == x * s;
    MulCancel(t, x, s);
  }

  /** A non-zero factor can be cancelled from both sides of an equation. */
  lemma MulCancel(a: real, b: real, s: real)
    requires s != 0.0 && a * s == b * s
    ensures a == b
  {
    assert (a - b) * s == a * s - b * s;
  }

  /** The quotient `v / s` is the `q` with `q * s == v`. */
  lemma DivisionWitness(v: real, s: real)
    requires s != 0.0
    ensures (v / s) * s == v
  {
  }

  /**
   * Rounding `q = v / s` to `n` moves `v` by at most half a step: `n * s` is
   * within `|s| / 2` of `v`, and exactly that far only when `q` was halfway.
   */
  lemma HalfStep(v: real, s: real, n: real, q: real)
    requires s != 0.0 && q * s == v && n - 0.5 <= q <= n + 0.5
    ensures Abs(n * s - v) <= Abs(s) / 2.0
    ensures Abs(n * s - v) == Abs(s) / 2.0 ==> q == n - 0.5 || q == n + 0.5
  {
    if s > 0.0 {
      PositiveHalfStep(v, s, n, q);
    } else {
      assert (-q) * (-s) == v;
      PositiveHalfStep(v, -s, -n, -q);
      assert (-n) * (-s) == n * s;
    }
  }

  lemma PositiveHalfStep(v: real, s: real, n: real, q: real)
    requires s > 0.0 && q * s == v && n - 0.5 <= q <= n + 0.5
    ensures -s / 2.0 <= n * s - v <= s / 2.0
    ensures n * s - v == s / 2.0 ==> q == n - 0.5
    ensures n * s - v == -s / 2.0 ==> q == n + 0.5
  {
    var e := n - q;
    assert e * s == n * s - q * s;
    assert e * s == n * s - v;
    ScaleBetween(e, s);
    assert -s / 2.0 <= e * s <= s / 2.0;
  }

  /** For a positive `s`, `e` in [-1/2, 1/2] scales into [-s/2, s/2], reaching an end only from an end. */
  lemma ScaleBetween(e: real, s: real)
    requires s > 0.0 && -0.5 <= e <= 0.5
    ensures -s / 2.0 <= e * s <= s / 2.0
    ensures e * s == s / 2.0 ==> e == 0.5
    ensures e * s == -s / 2.0 ==> e == -0.5
  {
    PositiveProduct(0.5 - e, s);
    PositiveProduct(0.5 + e, s);
    assert (0.5 - e) * s == s / 2.0 - e * s;
    assert (0.5 + e) * s == s / 2.0 + e * s;
  }

  function Abs(v: real): (a: real)
    ensures a >= 0.0 && (a == v || a == -v)
  {
    if v < 0.0 then -v else v
  }

  /** True when a real has no fractional part. */
  predicate IsInt(v: real)
  {
    v.Floor as real == v
  }

  /** The difference of two whole numbers is whole. */
  lemma IntDifference(a: real, b: real)
    requires IsInt(a) && IsInt(b)
    ensures IsInt(a - b)
  {
    var n := a.Floor - b.Floor;
    assert n as real == a - b;
    assert (n as real).Floor == n;
  }

  /**
   * `kotlin.math.round`: the nearest integer, ties going to the even one.
   */
  function RoundHalfEven(v: real): (n: int)
    ensures n as real - 0.5 <= v <= n as real + 0.5
    ensures (v == n as real - 0.5 || v == n as real + 0.5) ==> n % 2 == 0
  {
    var f := v.Floor;
    var frac := v - f as real;
    if frac < 0.5 then f
    else if frac > 0.5 then f + 1
    else if f % 2 == 0 then f
    else f + 1
  }

  /** `roundToInt()`: the nearest integer, ties going toward positive infinity. */
  function RoundHalfUp(v: real): (n: int)
    ensures n as real - 0.5 <= v < n as real + 0.5
  {
    (v + 0.5).Floor
  }

  /** The common angles, in degrees, in the order both snap engines try them. */
  const CommonAngles: seq<real> := [0.0, 30.0, 45.0, 60.0, 90.0, 120.0, 135.0, 150.0, 180.0]

  /**
   * `minByOrNull` on a non-empty list, given the keys: the index of the first
   * smallest key (a later key replaces the running minimum only when strictly
   * smaller).
   */
  function FirstMin(keys: seq<real>): (i: nat)
    requires |keys| > 0
    ensures i < |keys|
    ensures forall j | 0 <= j < |keys| :: keys[i] <= keys[j]
    ensures forall j | 0 <= j < i :: keys[i] < keys[j]
    decreases |keys|
  {
    if |keys| == 1 then 0
    else
      var m := FirstMin(keys[..|keys| - 1]);
      if keys[|keys| - 1] < keys[m] then |keys| - 1 else m
  }
}
