/**
 * Feasibility arithmetic of the base station: distance between two vehicles,
 * the time to transmit a task over the link, and the communication window,
 * i.e. how long two vehicles moving in straight lines stay within radio range.
 *
 * `sqrt`, `log` and `pow` are supplied by the caller as a `MathLib`; the only
 * facts the proofs use about them are those of `SqrtSound`.
 */
module Mobility {
  import opened Doubles

  /** A 3-D vector: a position or a speed. */
  datatype Coord = Coord(x: real, y: real, z: real)

  /** The C math library functions the source calls. */
  datatype MathLib = MathLib(sqrt: real -> real, log: real -> real, pow: (real, real) -> real)

  /** What the proofs assume of `sqrt`: a non-negative square root on non-negative reals. */
  ghost predicate SqrtSound(m: MathLib)
  {
    forall x: real {:trigger m.sqrt(x)} :: 0.0 <= x ==> 0.0 <= m.sqrt(x) && m.sqrt(x) * m.sqrt(x) == x
  }

  /** Radius of the communication range. */
  const RangeRadius: real := 400.0

  /** Window returned when the pair never leaves range (or the quadratic has no real root). */
  const Unbounded: real := 1000000.0

  /** Link bandwidth factor of the capacity model. */
  const Bandwidth: real := 3000000.0

  function Minus(p: Coord, q: Coord): Coord
  {
    Coord(p.x - q.x, p.y - q.y, p.z - q.z)
  }

  function Dot(u: Coord, v: Coord): real
  {
    u.x * v.x + u.y * v.y + u.z * v.z
  }

  /** Where a point at `p` moving with speed `v` is after time `t`. */
  function Advance(p: Coord, v: Coord, t: real): Coord
  {
    Coord(p.x + t * v.x, p.y + t * v.y, p.z + t * v.z)
  }

  /** Euclidean distance from `source` to `destination`. */
  function Distance(source: Coord, destination: Coord, m: MathLib): real
  {
    var d := Minus(destination, source);
    m.sqrt(Dot(d, d))
  }

  /** The distance is a non-negative root of the squared distance. */
  lemma DistanceSquared(source: Coord, destination: Coord, m: MathLib)
    requires SqrtSound(m)
    ensures var d := Minus(destination, source);
      0.0 <= Distance(source, destination, m) &&
      Distance(source, destination, m) * Distance(source, destination, m) == Dot(d, d)
  {
    var d := Minus(destination, source);
    assert 0.0 <= d.x * d.x && 0.0 <= d.y * d.y && 0.0 <= d.z * d.z;
  }

  /** Link capacity at distance `dist`: `Bandwidth * log(1 + dist^-2 * 0.1)`. */
  function Capacity(dist: real, m: MathLib): real
  {
    Bandwidth * m.log(1.0 + m.pow(dist, -2.0) * 0.1)
  }

  /** Time to send `dataSize` over a link of length `dist`; a zero capacity divides by zero. */
  function TransmissionTime(dataSize: real, dist: real, m: MathLib): (r: Ext)
    ensures Capacity(dist, m) != 0.0 ==> r == Fin(dataSize / Capacity(dist, m))
    ensures r != NaN && !r.Fin? ==> Capacity(dist, m) == 0.0
  {
    Quot(dataSize, Capacity(dist, m))
  }

  /** Coefficients of `|relPos + t * relVel|^2 - R^2 == a*t^2 + b*t + c`. */
  function QuadA(relVel: Coord): real { Dot(relVel, relVel) }
  function QuadB(relPos: Coord, relVel: Coord): real { 2.0 * Dot(relPos, relVel) }
  function QuadC(relPos: Coord): real { Dot(relPos, relPos) - RangeRadius * RangeRadius }

  /** Discriminant `b^2 - 4ac` of the exit quadratic. */
  function Discriminant(relPos: Coord, relVel: Coord): real
  {
    QuadB(relPos, relVel) * QuadB(relPos, relVel) - 4.0 * QuadA(relVel) * QuadC(relPos)
  }

  /**
   * The communication window of a source at `sp` moving with `ss` and a
   * destination at `dp` moving with `ds`.
   */
  function Window(sp: Coord, ss: Coord, dp: Coord, ds: Coord, m: MathLib): real
  {
    RelativeWindow(Minus(dp, sp), Minus(ds, ss), m)
  }

  /**
   * The window from the relative position and speed: 0 when already out of
   * range, the `Unbounded` sentinel for a negative discriminant or no relative
   * motion, otherwise the root `(-b + sqrt(disc)) / (2a)` of the exit quadratic.
   */
  function RelativeWindow(relPos: Coord, relVel: Coord, m: MathLib): real
  {
    var distance := m.sqrt(Dot(relPos, relPos));
    if RangeRadius - distance <= 0.0 then 0.0
    else if Discriminant(relPos, relVel) < 0.0 then Unbounded
    else if QuadA(relVel) == 0.0 then Unbounded
    else (-QuadB(relPos, relVel) + m.sqrt(Discriminant(relPos, relVel))) / (2.0 * QuadA(relVel))
  }

  /** Out of range gives a zero window. */
  lemma WindowOutOfRange(sp: Coord, ss: Coord, dp: Coord, ds: Coord, m: MathLib)
    requires Distance(sp, dp, m) >= RangeRadius
    ensures Window(sp, ss, dp, ds, m) == 0.0
  {
  }

  /** Vehicles with identical speed never drift apart: unbounded window inside the range. */
  lemma WindowSameSpeed(sp: Coord, dp: Coord, v: Coord, m: MathLib)
    requires Distance(sp, dp, m) < RangeRadius
    ensures Window(sp, v, dp, v, m) == Unbounded
  {
    assert Minus(v, v) == Coord(0.0, 0.0, 0.0);
  }

  /** The squared distance along the relative motion is the exit quadratic. */
  lemma AdvanceQuadratic(relPos: Coord, relVel: Coord, t: real)
    ensures var q := Advance(relPos, relVel, t);
      Dot(q, q) - RangeRadius * RangeRadius
        == QuadA(relVel) * t * t + QuadB(relPos, relVel) * t + QuadC(relPos)
  {
    var q := Advance(relPos, relVel, t);
    SquareExpand(relPos.x, relVel.x, t, q.x);
    SquareExpand(relPos.y, relVel.y, t, q.y);
    SquareExpand(relPos.z, relVel.z, t, q.z);
    var tt := t * t;
    Distribute3(relVel.x * relVel.x, relVel.y * relVel.y, relVel.z * relVel.z, tt);
    Distribute3(2.0 * (relPos.x * relVel.x), 2.0 * (relPos.y * relVel.y), 2.0 * (relPos.z * relVel.z), t);
    assert QuadA(relVel) * t * t == QuadA(relVel) * tt;
    assert QuadB(relPos, relVel) == 2.0 * (relPos.x * relVel.x) + 2.0 * (relPos.y * relVel.y) + 2.0 * (relPos.z * relVel.z);
  }

  lemma Distribute3(a: real, b: real, c: real, k: real)
    ensures (a + b + c) * k == a * k + b * k + c * k
  {
  }

  lemma SquareExpand(p: real, v: real, t: real, q: real)
    requires q == p + t * v
    ensures q * q == p * p + 2.0 * (p * v) * t + (v * v) * (t * t)
  {
  }

  /** A non-negative root of a value below `r*r` is below `r` (and conversely). */
  lemma RootBelow(x: real, s: real, r: real)
    requires 0.0 <= s && s * s == x && 0.0 < r
    ensures s < r <==> x < r * r
  {
    var ss, sr, rr := s * s, s * r, r * r;
    if s < r {
      assert ss <= sr;
      assert sr < rr;
    } else {
      assert rr <= sr;
      assert sr <= ss;
    }
  }

  /** Inside the range the discriminant is never negative: the first sentinel branch is defensive only. */
  lemma WindowDiscriminantNonNegative(relPos: Coord, relVel: Coord, m: MathLib)
    requires SqrtSound(m)
    requires m.sqrt(Dot(relPos, relPos)) < RangeRadius
    ensures QuadC(relPos) < 0.0
    ensures QuadA(relVel) >= 0.0
    ensures Discriminant(relPos, relVel) >= 0.0
    ensures QuadA(relVel) > 0.0 ==> Discriminant(relPos, relVel) > QuadB(relPos, relVel) * QuadB(relPos, relVel)
  {
    var x := Dot(relPos, relPos);
    assert 0.0 <= relPos.x * relPos.x && 0.0 <= relPos.y * relPos.y && 0.0 <= relPos.z * relPos.z;
    RootBelow(x, m.sqrt(x), RangeRadius);
    var a, b, c := QuadA(relVel), QuadB(relPos, relVel), QuadC(relPos);
    assert 0.0 <= relVel.x * relVel.x && 0.0 <= relVel.y * relVel.y && 0.0 <= relVel.z * relVel.z;
    assert a >= 0.0;
    assert a * c <= 0.0 by {
      if a > 0.0 { assert a * c < 0.0; }
    }
    assert 4.0 * a * c == 4.0 * (a * c);
    var bb, ac := b * b, a * c;
    assert Discriminant(relPos, relVel) == bb - 4.0 * ac;
    if a > 0.0 {
      assert ac < 0.0;
    }
    assert 0.0 <= bb;
  }

  /** Squaring is monotone on non-negative reals. */
  lemma SquareMonotone(x: real, y: real)
    requires 0.0 <= x
    ensures x <= y ==> x * x <= y * y
  {
    var xx, xy, yy := x * x, x * y, y * y;
    if x <= y {
      assert xx <= xy;
      assert xy <= yy;
    }
  }

  /** A non-negative `s` whose square exceeds `b*b` exceeds both `b` and `-b`. */
  lemma RootExceeds(s: real, b: real)
    requires 0.0 <= s && s * s > b * b
    ensures s > b && s > -b
  {
    var ab := if b >= 0.0 then b else -b;
    assert ab * ab == b * b;
    SquareMonotone(s, ab);
  }

  /** The two roots `(-b +- s) / (2a)` straddle zero when `a > 0` and `c < 0`. */
  lemma ExitRootSigns(a: real, b: real, c: real, s: real)
    requires a > 0.0 && c < 0.0 && 0.0 <= s && s * s == b * b - 4.0 * a * c
    ensures 0.0 < (-b + s) / (2.0 * a)
    ensures (-b - s) / (2.0 * a) < 0.0
  {
    assert a * c < 0.0;
    assert 4.0 * a * c == 4.0 * (a * c);
    RootExceeds(s, b);
  }

  /** Vieta's formulas for the roots `(-b +- s) / (2a)`. */
  lemma ExitRootVieta(a: real, b: real, c: real, s: real)
    requires a != 0.0 && s * s == b * b - 4.0 * a * c
    ensures (-b + s) / (2.0 * a) + (-b - s) / (2.0 * a) == -b / a
    ensures (-b + s) / (2.0 * a) * ((-b - s) / (2.0 * a)) == c / a
  {
    var w := (-b + s) / (2.0 * a);
    var w2 := (-b - s) / (2.0 * a);
    var num := (-b + s) * (-b - s);
    assert num == b * b - s * s;
    assert num == 4.0 * a * c;
    assert w * (2.0 * a) == -b + s;
    assert w2 * (2.0 * a) == -b - s;
    var prod := w * w2;
    assert prod * (4.0 * a * a) == (w * (2.0 * a)) * (w2 * (2.0 * a));
    assert prod * (4.0 * a * a) == 4.0 * a * c;
    assert 4.0 * a * (prod * a - c) == 0.0;
    assert prod * a == c;
  }

  /**
   * For `a > 0` and `c < 0`, `w = (-b + s) / (2a)` with `s*s == b*b - 4ac`
   * is a root of `a*t^2 + b*t + c`, which is negative on `[0, w)` and
   * positive after `w`.
   */
  lemma ExitRoot(a: real, b: real, c: real, s: real, t: real)
    requires a > 0.0 && c < 0.0 && 0.0 <= s && s * s == b * b - 4.0 * a * c
    ensures var w := (-b + s) / (2.0 * a);
      && a * w * w + b * w + c == 0.0
      && (0.0 <= t < w ==> a * t * t + b * t + c < 0.0)
      && (w < t ==> a * t * t + b * t + c > 0.0)
  {
    var w := (-b + s) / (2.0 * a);
    var w2 := (-b - s) / (2.0 * a);
    ExitRootSigns(a, b, c, s);
    ExitRootVieta(a, b, c, s);
    Factorised(a, b, c, w, w2, w);
    assert a * (w - w) * (w - w2) == 0.0;
    Factorised(a, b, c, w, w2, t);
    if 0.0 <= t < w {
      var p := (t - w) * (t - w2);
      assert t - w < 0.0 && t - w2 > 0.0;
      assert p < 0.0;
      assert a * p < 0.0;
      assert a * (t - w) * (t - w2) == a * p;
    } else if w < t {
      var p := (t - w) * (t - w2);
      assert t - w > 0.0 && t - w2 > 0.0;
      assert p > 0.0;
      assert a * p > 0.0;
      assert a * (t - w) * (t - w2) == a * p;
    }
  }

  /** A quadratic with roots `w` and `w2` factors as `a * (t - w) * (t - w2)`. */
  lemma Factorised(a: real, b: real, c: real, w: real, w2: real, t: real)
    requires a != 0.0 && w + w2 == -b / a && w * w2 == c / a
    ensures a * t * t + b * t + c == a * (t - w) * (t - w2)
  {
    assert a * (t - w) * (t - w2) == a * t * t - a * (w + w2) * t + a * (w * w2);
  }

  /**
   * With relative motion, inside the range, the window is the first exit
   * time: it is positive, the pair is exactly at the radius then and strictly
   * inside before, and out of range at every later time.
   */
  lemma WindowIsFirstExit(sp: Coord, ss: Coord, dp: Coord, ds: Coord, m: MathLib)
    requires SqrtSound(m)
    requires Distance(sp, dp, m) < RangeRadius
    requires QuadA(Minus(ds, ss)) != 0.0
    ensures var w := Window(sp, ss, dp, ds, m);
      var relPos := Minus(dp, sp);
      var relVel := Minus(ds, ss);
      && 0.0 < w
      && Dot(Advance(relPos, relVel, w), Advance(relPos, relVel, w)) == RangeRadius * RangeRadius
      && (forall t: real {:trigger Advance(relPos, relVel, t)} :: 0.0 <= t < w ==>
            Dot(Advance(relPos, relVel, t), Advance(relPos, relVel, t)) < RangeRadius * RangeRadius)
      && (forall t: real {:trigger Advance(relPos, relVel, t)} :: w < t ==>
            Dot(Advance(relPos, relVel, t), Advance(relPos, relVel, t)) > RangeRadius * RangeRadius)
  {
    var relPos := Minus(dp, sp);
    var relVel := Minus(ds, ss);
    var a, b, c := QuadA(relVel), QuadB(relPos, relVel), QuadC(relPos);
    WindowDiscriminantNonNegative(relPos, relVel, m);
    var s := m.sqrt(Discriminant(relPos, relVel));
    var w := (-b + s) / (2.0 * a);
    assert Window(sp, ss, dp, ds, m) == w;
    ExitRootSigns(a, b, c, s);
    ExitRoot(a, b, c, s, w);
    AdvanceQuadratic(relPos, relVel, w);
    forall t: real | 0.0 <= t < w
      ensures Dot(Advance(relPos, relVel, t), Advance(relPos, relVel, t)) < RangeRadius * RangeRadius
    {
      ExitRoot(a, b, c, s, t);
      AdvanceQuadratic(relPos, relVel, t);
    }
    forall t: real | w < t
      ensures Dot(Advance(relPos, relVel, t), Advance(relPos, relVel, t)) > RangeRadius * RangeRadius
    {
      ExitRoot(a, b, c, s, t);
      AdvanceQuadratic(relPos, relVel, t);
    }
  }
}
