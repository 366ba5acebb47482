/** `deriveFromLap` of `sector-gates.ts`: gates at k/N of a lap's own trace, each perpendicular to the
    hop it is built on, accepted only if the lap crosses each exactly once where it should. */
module SectorGates {
  import opened SampleMath
  import opened Analysis
  import opened Geo
  import opened GateCrossing
  import opened Sectors

  const SANE_BAND_FACTOR := 0.4

  // ------------------------------------------------------------------------------------------
  // Building a gate
  // ------------------------------------------------------------------------------------------

  function Trunc(q: real): int {
    if q >= 0.0 then q.Floor else -((-q).Floor)
  }

  /** `x % y` on floating-point numbers: the quotient is truncated towards zero. */
  function FMod(x: real, y: real): real
    requires y != 0.0
  {
    x - y * (Trunc(x / y) as real)
  }

  lemma TruncBetween(x: real, y: real, n: int)
    requires 0.0 < y && 0 <= n && n as real * y <= x < (n + 1) as real * y
    ensures Trunc(x / y) == n
  {
    var lo, hi := n as real * y, (n + 1) as real * y;
    assert lo / y == n as real && hi / y == (n + 1) as real;
    DivMonotone(lo, x, y);
    DivStrict(x, hi, y);
  }

  /** Wrapping leaves a distance inside the lap as it is. */
  lemma FModInside(x: real, y: real)
    requires 0.0 <= x < y
    ensures FMod(x, y) == x && FMod(FMod(x, y) + y, y) == x
  {
    TruncBetween(x, y, 0);
    TruncBetween(x + y, y, 1);
  }

  /** A place on a path: the hop it is on, and how far along that hop. */
  datatype Place = Place(hop: nat, frac: real)

  function PlaceAt(path: seq<LapPoint>, targetM: real, totalM: real): Place
    requires |path| >= 2
  {
    var t := if totalM > 0.0 then FMod(FMod(targetM, totalM) + totalM, totalM) else 0.0;
    var i := FirstReaching(path, t, 1);
    if i < |path| then Place(i, Fraction(path[i - 1].distM, path[i].distM, t)) else Place(|path| - 1, 1.0)
  }

  lemma TruncIsNear(q: real)
    ensures q >= 0.0 ==> Trunc(q) as real <= q < Trunc(q) as real + 1.0
    ensures q < 0.0 ==> Trunc(q) as real - 1.0 < q <= Trunc(q) as real
  {}

  lemma LessTimes(a: real, b: real, y: real, p: real, q: real)
    requires 0.0 < y && p == a * y && q == b * y
    ensures a < b ==> p < q
  {
    if a < b {
      MulPositive(b - a, y);
      assert q - p == (b - a) * y;
    }
  }

  lemma ShortOfOne(d: real, y: real, z: real)
    requires 0.0 < y && z == d * y
    ensures 0.0 <= d < 1.0 ==> 0.0 <= z < y
    ensures -1.0 < d <= 0.0 ==> -y < z <= 0.0
  {
    LessTimes(d, 1.0, y, z, y);
    LessTimes(-1.0, d, y, -y, z);
    LessTimes(d, 0.0, y, z, 0.0);
    LessTimes(0.0, d, y, 0.0, z);
    if d == 0.0 {
      assert z == 0.0;
    }
  }

  /** A remainder is short of the divisor, has the sign of the dividend, and is whole divisors away from it. */
  lemma Remainder(x: real, y: real) returns (n: int)
    requires 0.0 < y
    ensures FMod(x, y) == x - y * (n as real)
    ensures if x >= 0.0 then 0.0 <= FMod(x, y) < y else -y < FMod(x, y) <= 0.0
  {
    var q := x / y;
    n := Trunc(q);
    MulDivCancel(x, y);
    TruncIsNear(q);
    SignOfQuotient(x, y);
    PartLeft(x, y, q, n as real, FMod(x, y));
  }

  lemma PartLeft(x: real, y: real, q: real, m: real, z: real)
    requires 0.0 < y && x == q * y && (0.0 <= x <==> 0.0 <= q) && z == x - y * m
    requires if q >= 0.0 then m <= q < m + 1.0 else m - 1.0 < q <= m
    ensures if x >= 0.0 then 0.0 <= z < y else -y < z <= 0.0
  {
    assert z == (q - m) * y;
    ShortOfOne(q - m, y, z);
  }

  lemma SignOfQuotient(x: real, y: real)
    requires 0.0 < y
    ensures x >= 0.0 <==> x / y >= 0.0
  {
    if x >= 0.0 {
      DivMonotone(0.0, x, y);
    } else {
      DivStrict(x, 0.0, y);
    }
  }

  /** Taking the remainder twice brings any distance into the lap, by whole laps. */
  lemma WrapsIntoLap(x: real, y: real) returns (n: int)
    requires 0.0 < y
    ensures var t := FMod(FMod(x, y) + y, y); 0.0 <= t < y && t == x - y * (n as real)
  {
    var k := Remainder(x, y);
    var l := Remainder(FMod(x, y) + y, y);
    n := k - 1 + l;
    WholeLaps(x, y, k, l);
  }

  lemma WholeLaps(x: real, y: real, k: int, l: int)
    ensures x - y * (k as real) + y - y * (l as real) == x - y * ((k - 1 + l) as real)
  {}

  /** The place of a distance: on the first hop that gets there and as far along it, or at the very end. */
  ghost predicate IsPlaceOf(path: seq<LapPoint>, at: Place, t: real)
    requires |path| >= 2
  {
    && 0 < at.hop < |path| && (forall j :: 0 < j < at.hop ==> path[j].distM < t)
    && if path[at.hop].distM < t then at == Place(|path| - 1, 1.0)
       else if path[at.hop - 1].distM < path[at.hop].distM then
         t - path[at.hop - 1].distM == at.frac * (path[at.hop].distM - path[at.hop - 1].distM)
       else at.frac == 0.0
  }

  lemma FirstHopIsPlace(path: seq<LapPoint>, t: real, at: Place)
    requires |path| >= 2
    requires var i := FirstReaching(path, t, 1);
             at == if i < |path| then Place(i, Fraction(path[i - 1].distM, path[i].distM, t))
                   else Place(|path| - 1, 1.0)
    ensures IsPlaceOf(path, at, t)
  {
    var i := FirstReaching(path, t, 1);
    if i < |path| && path[i - 1].distM < path[i].distM {
      MulDivCancel(t - path[i - 1].distM, path[i].distM - path[i - 1].distM);
    }
  }

  /** A distance inside the lap, whole laps away from the one asked for, or 0 without a lap. */
  ghost predicate IsWrapped(t: real, targetM: real, totalM: real, n: int) {
    if totalM > 0.0 then 0.0 <= t < totalM && t == targetM - totalM * (n as real) else t == 0.0
  }

  lemma WrappedTarget(targetM: real, totalM: real) returns (t: real, n: int)
    ensures t == if totalM > 0.0 then FMod(FMod(targetM, totalM) + totalM, totalM) else 0.0
    ensures IsWrapped(t, targetM, totalM, n)
  {
    t, n := 0.0, 0;
    if totalM > 0.0 {
      n := WrapsIntoLap(targetM, totalM);
      t := FMod(FMod(targetM, totalM) + totalM, totalM);
    }
  }

  /** **A distance is looked up inside the lap**, on the first hop that gets there and as far along it. */
  lemma PlaceIsWrapped(path: seq<LapPoint>, targetM: real, totalM: real) returns (t: real, n: int)
    requires |path| >= 2
    ensures IsWrapped(t, targetM, totalM, n) && IsPlaceOf(path, PlaceAt(path, targetM, totalM), t)
  {
    t, n := WrappedTarget(targetM, totalM);
    FirstHopIsPlace(path, t, PlaceAt(path, targetM, totalM));
  }

  method PointAtDistance(path: seq<LapPoint>, targetM: real, totalM: real) returns (at: Place)
    requires |path| >= 2
    ensures at == PlaceAt(path, targetM, totalM)
  {
    var t := if totalM > 0.0 then FMod(FMod(targetM, totalM) + totalM, totalM) else 0.0;
    for i := 1 to |path|
      invariant FirstReaching(path, t, 1) == FirstReaching(path, t, i)
    {
      if path[i].distM >= t {
        return Place(i, Fraction(path[i - 1].distM, path[i].distM, t));
      }
    }
    return Place(|path| - 1, 1.0);
  }

  /** A direction in metres, and its length; a hop with no length counts as one metre. */
  function OrOne(len: real): real { if len == 0.0 then 1.0 else len }

  /** The gate centred at a position, `halfWidthM` along `(ux, uy)` to each side. */
  function GateAround(lat: real, lon: real, mLon: real, ux: real, uy: real, halfWidthM: real): Gate
    requires mLon != 0.0
  {
    Gate(lat + uy * halfWidthM / METERS_PER_DEG_LAT, lon + ux * halfWidthM / mLon,
         lat + -uy * halfWidthM / METERS_PER_DEG_LAT, lon + -ux * halfWidthM / mLon)
  }

  /** The gate at a right angle to `(dx, dy)`, a direction `len` metres long. */
  function GateAcross(lat: real, lon: real, mLon: real, dx: real, dy: real, len: real, halfWidthM: real): Gate
    requires mLon != 0.0 && len != 0.0
  {
    GateAround(lat, lon, mLon, -dy / len, dx / len, halfWidthM)
  }

  /** The hop from `a` to `b` in metres, in the frame of the place `frac` of the way along it. */
  function HopX(p: Plane, a: LapPoint, b: LapPoint, frac: real): real {
    var lon, mLon := Lerp(a.lon, b.lon, frac), p.mLon(Lerp(a.lat, b.lat, frac));
    (b.lon - lon) * mLon - (a.lon - lon) * mLon
  }

  function HopY(a: LapPoint, b: LapPoint, frac: real): real {
    var lat := Lerp(a.lat, b.lat, frac);
    (b.lat - lat) * METERS_PER_DEG_LAT - (a.lat - lat) * METERS_PER_DEG_LAT
  }

  function HopM(p: Plane, a: LapPoint, b: LapPoint, frac: real): real {
    p.hypot(HopX(p, a, b, frac), HopY(a, b, frac))
  }

  /** The gate through the place `frac` of the way from `a` to `b`, at a right angle to that hop and
      `halfWidthM` to each side. */
  function PerpendicularGate(p: Plane, a: LapPoint, b: LapPoint, frac: real, halfWidthM: real): Gate
    requires Sound(p)
  {
    var lat, lon := Lerp(a.lat, b.lat, frac), Lerp(a.lon, b.lon, frac);
    GateAcross(lat, lon, p.mLon(lat), HopX(p, a, b, frac), HopY(a, b, frac), OrOne(HopM(p, a, b, frac)), halfWidthM)
  }

  // ------------------------------------------------------------------------------------------
  // The gate against its own hop
  // ------------------------------------------------------------------------------------------

  /** A hop `(dx, dy)` against its own perpendicular gate, in the gate's frame. */
  function OwnFrame(dx: real, dy: real, len: real, halfWidthM: real, frac: real): Frame
    requires len > 0.0
  {
    var ux, uy := -dy / len, dx / len;
    Frame(-frac * dx, -frac * dy, dx, dy, ux * halfWidthM, uy * halfWidthM, -2.0 * (ux * halfWidthM),
          -2.0 * (uy * halfWidthM))
  }

  /** The perpendicular unit vector turns the hop into its length. */
  lemma PerpendicularLength(dx: real, dy: real, len: real)
    requires len > 0.0 && len * len == dx * dx + dy * dy
    ensures dx * (dx / len) - dy * (-dy / len) == len
  {
    var ux, uy := -dy / len, dx / len;
    assert ux * len == -dy && uy * len == dx;
    calc {
      (dx * uy - dy * ux) * len;
      dx * (uy * len) - dy * (ux * len);
      dx * dx + dy * dy;
      len * len;
    }
    CancelFactor(dx * uy - dy * ux, len, len);
  }

  lemma OwnDenom(dx: real, dy: real, len: real, h: real, frac: real)
    requires len > 0.0 && len * len == dx * dx + dy * dy
    ensures OwnFrame(dx, dy, len, h, frac).Denom() == -2.0 * h * len
  {
    var ux, uy := -dy / len, dx / len;
    PerpendicularLength(dx, dy, len);
    calc {
      OwnFrame(dx, dy, len, h, frac).Denom();
      dx * (-2.0 * (uy * h)) - dy * (-2.0 * (ux * h));
      -2.0 * h * (dx * uy - dy * ux);
      -2.0 * h * len;
    }
  }

  /** The two numerators of the solution, over any offset direction `(ux, uy)`. */
  lemma NormalNumerators(dx: real, dy: real, nx: real, ny: real, frac: real)
    ensures (nx - -frac * dx) * (-2.0 * ny) - (ny - -frac * dy) * (-2.0 * nx)
            == frac * (dx * (-2.0 * ny) - dy * (-2.0 * nx))
    ensures (nx - -frac * dx) * dy - (ny - -frac * dy) * dx == 0.5 * (dx * (-2.0 * ny) - dy * (-2.0 * nx))
  {}

  lemma SolutionIs(f: Frame, t: real, u: real)
    requires f.Denom() != 0.0
    requires (f.ax - f.px) * f.sy - (f.ay - f.py) * f.sx == t * f.Denom()
    requires (f.ax - f.px) * f.ry - (f.ay - f.py) * f.rx == u * f.Denom()
    ensures f.T() == t && f.U() == u
  {
    CancelFactor(f.T(), t, f.Denom());
    CancelFactor(f.U(), u, f.Denom());
  }

  lemma OwnFrameSolution(dx: real, dy: real, len: real, h: real, frac: real)
    requires len > 0.0 && OwnFrame(dx, dy, len, h, frac).Denom() != 0.0
    ensures var f := OwnFrame(dx, dy, len, h, frac); f.T() == frac && f.U() == 0.5
  {
    NormalNumerators(dx, dy, -dy / len * h, dx / len * h, frac);
    SolutionIs(OwnFrame(dx, dy, len, h, frac), frac, 0.5);
  }

  /** A gate built around a position is projected back to where it was built. */
  lemma ProjectAround(p: Plane, lat: real, lon: real, ux: real, uy: real, h: real) returns (g: ProjectedGate)
    requires Sound(p)
    ensures p.mLon(lat) > 0.0 && g == ProjectGate(p, GateAround(lat, lon, p.mLon(lat), ux, uy, h))
    ensures g == ProjectedGate(lat, lon, p.mLon(lat), ux * h, uy * h, -(ux * h), -(uy * h))
  {
    var m := p.mLon(lat);
    var oy, ox := uy * h / METERS_PER_DEG_LAT, ux * h / m;
    NegatedOffset(uy, h, METERS_PER_DEG_LAT);
    NegatedOffset(ux, h, m);
    var gate := GateAround(lat, lon, m, ux, uy, h);
    assert gate == Gate(lat + oy, lon + ox, lat - oy, lon - ox);
    MulDivCancel(uy * h, METERS_PER_DEG_LAT);
    MulDivCancel(ux * h, m);
    ProjectCentred(p, lat, lon, oy, ox);
    g := ProjectedGate(lat, lon, m, ux * h, uy * h, -(ux * h), -(uy * h));
  }

  lemma ProjectCentred(p: Plane, lat: real, lon: real, oy: real, ox: real)
    ensures var m := p.mLon(lat);
            ProjectGate(p, Gate(lat + oy, lon + ox, lat - oy, lon - ox))
            == ProjectedGate(lat, lon, m, ox * m, oy * METERS_PER_DEG_LAT, -(ox * m), -(oy * METERS_PER_DEG_LAT))
  {
    var g := ProjectGate(p, Gate(lat + oy, lon + ox, lat - oy, lon - ox));
    assert (lat + oy + (lat - oy)) / 2.0 == lat && (lon + ox + (lon - ox)) / 2.0 == lon;
    assert g.midLat == lat && g.midLon == lon;
    Offset(lat, oy, METERS_PER_DEG_LAT);
    Offset(lon, ox, g.mLon);
  }

  lemma Offset(at: real, o: real, m: real)
    ensures (at + o - at) * m == o * m && (at - o - at) * m == -(o * m)
  {}

  lemma SameSpan(b: real, a: real, origin: real, m: real)
    ensures (b - origin) * m - (a - origin) * m == (b - a) * m
  {}

  lemma NegatedOffset(u: real, h: real, m: real)
    requires m != 0.0
    ensures -u * h / m == -(u * h / m)
  {
    assert -u * h == -(u * h);
  }

  lemma PerpendicularIs(p: Plane, a: LapPoint, b: LapPoint, frac: real, h: real)
    returns (dx: real, dy: real, len: real, ux: real, uy: real)
    requires Sound(p)
    ensures len == OrOne(HopM(p, a, b, frac)) && len > 0.0
    ensures HopM(p, a, b, frac) >= 0.0 && HopM(p, a, b, frac) * HopM(p, a, b, frac) == dx * dx + dy * dy
    ensures ux == -dy / len && uy == dx / len && dy == (b.lat - a.lat) * METERS_PER_DEG_LAT
    ensures var lat, lon := Lerp(a.lat, b.lat, frac), Lerp(a.lon, b.lon, frac);
            && p.mLon(lat) > 0.0 && dx == (b.lon - a.lon) * p.mLon(lat)
            && PerpendicularGate(p, a, b, frac, h) == GateAround(lat, lon, p.mLon(lat), ux, uy, h)
  {
    HopIsDifference(p, a, b, frac);
    HopLength(p, a, b, frac);
    dx, dy, len := HopX(p, a, b, frac), HopY(a, b, frac), OrOne(HopM(p, a, b, frac));
    ux, uy := -dy / len, dx / len;
  }

  lemma HopIsDifference(p: Plane, a: LapPoint, b: LapPoint, frac: real)
    ensures HopX(p, a, b, frac) == (b.lon - a.lon) * p.mLon(Lerp(a.lat, b.lat, frac))
    ensures HopY(a, b, frac) == (b.lat - a.lat) * METERS_PER_DEG_LAT
  {
    SameSpan(b.lon, a.lon, Lerp(a.lon, b.lon, frac), p.mLon(Lerp(a.lat, b.lat, frac)));
    SameSpan(b.lat, a.lat, Lerp(a.lat, b.lat, frac), METERS_PER_DEG_LAT);
  }

  lemma OwnHopFrame(p: Plane, a: LapPoint, b: LapPoint, frac: real, h: real)
    returns (f: Frame, dx: real, dy: real, len: real, g: ProjectedGate)
    requires Sound(p)
    ensures len == OrOne(HopM(p, a, b, frac)) && len > 0.0
    ensures HopM(p, a, b, frac) >= 0.0 && HopM(p, a, b, frac) * HopM(p, a, b, frac) == dx * dx + dy * dy
    ensures g == ProjectGate(p, PerpendicularGate(p, a, b, frac, h))
    ensures f == OwnFrame(dx, dy, len, h, frac) && f == FrameOf(FixOfPoint(a), FixOfPoint(b), g)
  {
    var lat, lon := Lerp(a.lat, b.lat, frac), Lerp(a.lon, b.lon, frac);
    var ux, uy;
    dx, dy, len, ux, uy := PerpendicularIs(p, a, b, frac, h);
    g := ProjectAround(p, lat, lon, ux, uy, h);
    f := FrameAround(a, b, frac, p.mLon(lat), dx, dy, len, ux, uy, h);
  }

  lemma FrameAround(a: LapPoint, b: LapPoint, frac: real, m: real, dx: real, dy: real, len: real, ux: real, uy: real,
                    h: real)
    returns (f: Frame)
    requires dx == (b.lon - a.lon) * m && dy == (b.lat - a.lat) * METERS_PER_DEG_LAT
    requires len > 0.0 && ux == -dy / len && uy == dx / len
    ensures var g := ProjectedGate(Lerp(a.lat, b.lat, frac), Lerp(a.lon, b.lon, frac), m, ux * h, uy * h, -(ux * h),
                                   -(uy * h));
            f == FrameOf(FixOfPoint(a), FixOfPoint(b), g)
    ensures f == OwnFrame(dx, dy, len, h, frac)
  {
    f := FrameOf(FixOfPoint(a), FixOfPoint(b),
                 ProjectedGate(Lerp(a.lat, b.lat, frac), Lerp(a.lon, b.lon, frac), m, ux * h, uy * h, -(ux * h),
                               -(uy * h)));
    BehindPlace(a.lon, b.lon, frac, m);
    BehindPlace(a.lat, b.lat, frac, METERS_PER_DEG_LAT);
    SameSpan(b.lon, a.lon, Lerp(a.lon, b.lon, frac), m);
    SameSpan(b.lat, a.lat, Lerp(a.lat, b.lat, frac), METERS_PER_DEG_LAT);
  }

  lemma BehindPlace(a: real, b: real, frac: real, m: real)
    ensures (a - Lerp(a, b, frac)) * m == -frac * ((b - a) * m)
  {
    assert a - Lerp(a, b, frac) == -frac * (b - a);
  }

  /** **A gate built on a hop is crossed by that hop exactly when the hop is bridgeable and clears the
      parallel guard, and then at the place it was built at**: the same fraction of the hop. */
  lemma OwnHopCrossing(p: Plane, a: LapPoint, b: LapPoint, frac: real, h: real)
    requires Sound(p) && 0.0 <= frac <= 1.0 && h >= 0.0
    ensures var g := ProjectGate(p, PerpendicularGate(p, a, b, frac, h));
            var c := FindGateCrossing(FixOfPoint(a), FixOfPoint(b), g, 0);
            && (c.Some? <==> Bridgeable(FixOfPoint(a), FixOfPoint(b)) && Clears(p, a, b, frac, h))
            && (c.Some? ==> c.value.t == frac && FrameOf(FixOfPoint(a), FixOfPoint(b), g).Denom() != 0.0)
            && (c.Some? ==> FrameOf(FixOfPoint(a), FixOfPoint(b), g).U() == 0.5)
            && (c.Some? ==> c.value.crossMs == Lerp(a.timeMs, b.timeMs, frac))
  {
    var f, g := OwnHopMeets(p, a, b, frac, h);
    CrossingByFrame(FixOfPoint(a), FixOfPoint(b), g, f, frac);
  }

  /** The offset direction is at a right angle to the hop, and one metre long. */
  lemma UnitNormal(dx: real, dy: real, len: real)
    requires len > 0.0
    ensures var ux, uy := -dy / len, dx / len;
            && dx * ux + dy * uy == 0.0
            && (len * len == dx * dx + dy * dy ==> ux * ux + uy * uy == 1.0)
  {
    var ux, uy := -dy / len, dx / len;
    assert ux * len == -dy && uy * len == dx;
    calc {
      (dx * ux + dy * uy) * len;
      dx * (ux * len) + dy * (uy * len);
      0.0;
      0.0 * len;
    }
    CancelFactor(dx * ux + dy * uy, 0.0, len);
    if len * len == dx * dx + dy * dy {
      var square := ux * ux + uy * uy;
      calc {
        (square * len) * len;
        (ux * len) * (ux * len) + (uy * len) * (uy * len);
        dx * dx + dy * dy;
        len * len;
      }
      CancelFactor(square * len, len, len);
      CancelFactor(square, 1.0, len);
    }
  }

  lemma ScaledNormal(dx: real, dy: real, ux: real, uy: real, h: real)
    ensures dx * (-2.0 * (ux * h)) + dy * (-2.0 * (uy * h)) == -2.0 * h * (dx * ux + dy * uy)
    ensures (-2.0 * (ux * h)) * (-2.0 * (ux * h)) + (-2.0 * (uy * h)) * (-2.0 * (uy * h))
            == 4.0 * h * h * (ux * ux + uy * uy)
  {}

  lemma OwnFrameIsSquare(dx: real, dy: real, len: real, h: real, frac: real) returns (f: Frame)
    requires len > 0.0
    ensures f == OwnFrame(dx, dy, len, h, frac) && f.rx * f.sx + f.ry * f.sy == 0.0
    ensures len * len == dx * dx + dy * dy ==> f.sx * f.sx + f.sy * f.sy == 4.0 * h * h
  {
    f := OwnFrame(dx, dy, len, h, frac);
    UnitNormal(dx, dy, len);
    ScaledNormal(dx, dy, -dy / len, dx / len, h);
  }

  /** **A gate is at a right angle to the hop it is built on and spans the half width to each side.** */
  lemma OwnGateIsSquare(p: Plane, a: LapPoint, b: LapPoint, frac: real, h: real) returns (f: Frame)
    requires Sound(p)
    ensures f == FrameOf(FixOfPoint(a), FixOfPoint(b), ProjectGate(p, PerpendicularGate(p, a, b, frac, h)))
    ensures f.rx * f.sx + f.ry * f.sy == 0.0
    ensures HopM(p, a, b, frac) != 0.0 ==> f.sx * f.sx + f.sy * f.sy == 4.0 * h * h
  {
    var own, dx, dy, len, g := OwnHopFrame(p, a, b, frac, h);
    f := OwnFrameIsSquare(dx, dy, len, h, frac);
  }

  /** The hop clears the parallel guard of its own gate. */
  predicate Clears(p: Plane, a: LapPoint, b: LapPoint, frac: real, h: real) {
    2.0 * h * HopM(p, a, b, frac) >= PARALLEL
  }

  lemma OwnHopMeets(p: Plane, a: LapPoint, b: LapPoint, frac: real, h: real) returns (f: Frame, g: ProjectedGate)
    requires Sound(p) && h >= 0.0
    ensures g == ProjectGate(p, PerpendicularGate(p, a, b, frac, h)) && f == FrameOf(FixOfPoint(a), FixOfPoint(b), g)
    ensures Clears(p, a, b, frac, h) <==> !(-PARALLEL < f.Denom() < PARALLEL)
    ensures Clears(p, a, b, frac, h) ==> f.T() == frac && f.U() == 0.5
  {
    var dx, dy, len;
    f, dx, dy, len, g := OwnHopFrame(p, a, b, frac, h);
    OwnMeets(dx, dy, HopM(p, a, b, frac), h, frac, f);
  }

  lemma HopLength(p: Plane, a: LapPoint, b: LapPoint, frac: real)
    requires Sound(p)
    ensures var dx, dy, m := HopX(p, a, b, frac), HopY(a, b, frac), HopM(p, a, b, frac);
            m >= 0.0 && m * m == dx * dx + dy * dy
  {}

  lemma OwnMeets(dx: real, dy: real, m: real, h: real, frac: real, f: Frame)
    requires h >= 0.0 && m >= 0.0 && m * m == dx * dx + dy * dy && f == OwnFrame(dx, dy, OrOne(m), h, frac)
    ensures 2.0 * h * m >= PARALLEL <==> !(-PARALLEL < f.Denom() < PARALLEL)
    ensures 2.0 * h * m >= PARALLEL ==> f.T() == frac && f.U() == 0.5
  {
    if m > 0.0 {
      OwnDenom(dx, dy, m, h, frac);
      OwnDecision(f, h, m);
      if 2.0 * h * m >= PARALLEL {
        OwnFrameSolution(dx, dy, m, h, frac);
      }
    } else {
      NoHopNoCrossing(dx, dy, h, frac);
      assert 2.0 * h * m == 0.0;
    }
  }

  lemma CrossingByFrame(prev: Fix, cur: Fix, g: ProjectedGate, f: Frame, frac: real)
    requires prev.lat.Some? && prev.lon.Some? && cur.lat.Some? && cur.lon.Some? && f == FrameOf(prev, cur, g)
    requires 0.0 <= frac <= 1.0 && (!(-PARALLEL < f.Denom() < PARALLEL) ==> f.T() == frac && f.U() == 0.5)
    ensures var c := FindGateCrossing(prev, cur, g, 0);
            && (c.Some? <==> Bridgeable(prev, cur) && !(-PARALLEL < f.Denom() < PARALLEL))
            && (c.Some? ==> c.value.t == frac && c.value.crossMs == Lerp(prev.timeMs, cur.timeMs, frac))
  {}

  lemma OwnDecision(f: Frame, h: real, len: real)
    requires h >= 0.0 && len > 0.0 && f.Denom() == -2.0 * h * len
    ensures !(-PARALLEL < f.Denom() < PARALLEL) <==> 2.0 * h * len >= PARALLEL
    ensures 2.0 * h * len >= PARALLEL ==> h * len != 0.0
  {
    MulNonNegative(h, len);
    assert 2.0 * h * len == 2.0 * (h * len);
  }

  /** A hop with no length is parallel to everything. */
  lemma NoHopNoCrossing(dx: real, dy: real, h: real, frac: real)
    requires dx * dx + dy * dy == 0.0
    ensures OwnFrame(dx, dy, 1.0, h, frac).Denom() == 0.0
  {
    var f := OwnFrame(dx, dy, 1.0, h, frac);
    calc {
      f.Denom();
      dx * (-2.0 * (dx * h)) - dy * (-2.0 * (-dy * h));
      -2.0 * h * (dx * dx + dy * dy);
      -2.0 * h * 0.0;
      0.0;
    }
  }

  // ------------------------------------------------------------------------------------------
  // Deriving the gates of a lap
  // ------------------------------------------------------------------------------------------

  function HalfWidthM(p: Plane, g: Gate): real {
    DistanceM(p, g.lat1, g.lon1, g.lat2, g.lon2) / 2.0
  }

  function PlaceOf(path: seq<LapPoint>, totalM: real, k: nat, sectorCount: nat): (at: Place)
    requires |path| >= 2 && sectorCount > 0
    ensures 0 < at.hop < |path|
  {
    PlaceAt(path, FractionM(totalM, k, sectorCount), totalM)
  }

  function GateAtPlace(p: Plane, path: seq<LapPoint>, at: Place, halfWidthM: real): Gate
    requires Sound(p) && 0 < at.hop < |path|
  {
    PerpendicularGate(p, path[at.hop - 1], path[at.hop], at.frac, halfWidthM)
  }

  /** The places of the interior gates, for k = 1 to N - 1. */
  ghost function Places(path: seq<LapPoint>, totalM: real, sectorCount: nat): (r: seq<Place>)
    requires |path| >= 2 && sectorCount > 0
    ensures |r| == sectorCount - 1
    ensures forall k :: 0 <= k < |r| ==> r[k] == PlaceOf(path, totalM, k + 1, sectorCount)
  {
    seq(sectorCount - 1, k requires 0 <= k < sectorCount - 1 => PlaceOf(path, totalM, k + 1, sectorCount))
  }

  ghost predicate OnPath(path: seq<LapPoint>, places: seq<Place>) {
    forall k :: 0 <= k < |places| ==> 0 < places[k].hop < |path|
  }

  ghost function GatesAt(p: Plane, path: seq<LapPoint>, places: seq<Place>, halfWidthM: real): (r: seq<Gate>)
    requires Sound(p) && OnPath(path, places)
    ensures |r| == |places| && forall k :: 0 <= k < |r| ==> r[k] == GateAtPlace(p, path, places[k], halfWidthM)
  {
    seq(|places|, k requires 0 <= k < |places| => GateAtPlace(p, path, places[k], halfWidthM))
  }

  ghost function InteriorGates(p: Plane, path: seq<LapPoint>, totalM: real, halfWidthM: real, sectorCount: nat)
    : seq<Gate>
    requires Sound(p) && |path| >= 2 && sectorCount > 0
  {
    GatesAt(p, path, Places(path, totalM, sectorCount), halfWidthM)
  }

  method BuildInteriorGates(p: Plane, path: seq<LapPoint>, totalM: real, halfWidthM: real, sectorCount: nat)
    returns (gates: seq<Gate>)
    requires Sound(p) && |path| >= 2 && sectorCount > 0
    ensures gates == InteriorGates(p, path, totalM, halfWidthM, sectorCount)
  {
    gates := [];
    ghost var all := Places(path, totalM, sectorCount);
    for k := 1 to sectorCount
      invariant |gates| == k - 1
      invariant forall j :: 0 <= j < k - 1 ==> gates[j] == GateAtPlace(p, path, all[j], halfWidthM)
    {
      var at := PointAtDistance(path, FractionM(totalM, k, sectorCount), totalM);
      assert at == all[k - 1];
      gates := gates + [GateAtPlace(p, path, at, halfWidthM)];
    }
    assert gates == GatesAt(p, path, all, halfWidthM);
  }

  /** How far a crossing is from the multiple of the step it should be at. */
  function Off(crossing: LapGateCrossing, idealStep: real, i: int): real {
    Abs(crossing.distM - idealStep * ((i + 1) as real))
  }

  ghost predicate InBand(crossings: seq<LapGateCrossing>, idealStep: real, band: real) {
    forall i :: 0 <= i < |crossings| ==> Off(crossings[i], idealStep, i) <= band
  }

  method CheckBand(crossings: seq<LapGateCrossing>, idealStep: real, band: real) returns (ok: bool)
    ensures ok <==> InBand(crossings, idealStep, band)
  {
    for i := 0 to |crossings|
      invariant forall j :: 0 <= j < i ==> Off(crossings[j], idealStep, j) <= band
    {
      if Off(crossings[i], idealStep, i) > band {
        return false;
      }
    }
    return true;
  }

  function IdealStep(lapDistanceM: real, sectorCount: nat): real
    requires sectorCount > 0
  {
    lapDistanceM / (sectorCount as real)
  }

  ghost predicate ValidCandidate(p: Plane, points: seq<LapPoint>, gates: seq<Gate>, idealStep: real) {
    var splits := SplitSet(points, Projected(p, gates));
    splits.Some? && InBand(splits.value, idealStep, idealStep * SANE_BAND_FACTOR)
  }

  method IsValidCandidate(p: Plane, points: seq<LapPoint>, gates: seq<Gate>, lapDistanceM: real, sectorCount: nat)
    returns (ok: bool)
    requires sectorCount > 0
    ensures ok <==> ValidCandidate(p, points, gates, IdealStep(lapDistanceM, sectorCount))
  {
    var crossings := CrossGates(p, points, gates);
    if crossings.None? {
      return false;
    }
    var idealStep := IdealStep(lapDistanceM, sectorCount);
    ok := CheckBand(crossings.value, idealStep, idealStep * SANE_BAND_FACTOR);
  }

  method DeriveFromLap(p: Plane, points: seq<LapPoint>, sfGate: Gate, sectorCount: nat) returns (r: Option<seq<Gate>>)
    requires Sound(p) && |points| >= 2 && sectorCount > 0
    ensures var total := points[|points| - 1].distM;
            var gates := InteriorGates(p, points, total, HalfWidthM(p, sfGate), sectorCount);
            r == if total > 0.0 && ValidCandidate(p, points, gates, IdealStep(total, sectorCount))
                 then Some(gates) else None
  {
    var lapDistanceM := points[|points| - 1].distM;
    if lapDistanceM <= 0.0 {
      return None;
    }
    var candidate := BuildInteriorGates(p, points, lapDistanceM, HalfWidthM(p, sfGate), sectorCount);
    var ok := IsValidCandidate(p, points, candidate, lapDistanceM, sectorCount);
    return if ok then Some(candidate) else None;
  }

  // ------------------------------------------------------------------------------------------
  // Where the gates of a lap are
  // ------------------------------------------------------------------------------------------

  /** A lap as the segmenter closes it: distance from 0, neither axis going back. */
  ghost predicate Reference(points: seq<LapPoint>) {
    && |points| >= 2 && MonotoneLap(points)
    && points[0].distM == 0.0 && points[|points| - 1].distM > 0.0
  }

  lemma TargetsInside(totalM: real, k: nat, l: nat, sectorCount: nat)
    requires totalM > 0.0 && 0 < k < l <= sectorCount
    ensures 0.0 < FractionM(totalM, k, sectorCount) < FractionM(totalM, l, sectorCount) <= totalM
  {
    var n := sectorCount as real;
    MulPositive(totalM, k as real);
    DivStrict(0.0, totalM * (k as real), n);
    MulPositive(totalM, (l - k) as real);
    assert totalM * (l as real) - totalM * (k as real) == totalM * ((l - k) as real);
    DivStrict(totalM * (k as real), totalM * (l as real), n);
    MulNonNegative(totalM, (sectorCount - l) as real);
    assert totalM * n - totalM * (l as real) == totalM * ((sectorCount - l) as real);
    DivMonotone(totalM * (l as real), totalM * n, n);
    MulDiv(totalM, n);
  }

  /** The place is strictly after the start of its hop, at the target distance. */
  ghost predicate OnTarget(points: seq<LapPoint>, at: Place, targetM: real) {
    && 0 < at.hop < |points|
    && at.hop == FirstReaching(points, targetM, 1)
    && points[at.hop - 1].distM < targetM <= points[at.hop].distM
    && 0.0 < at.frac <= 1.0
    && at.frac == (targetM - points[at.hop - 1].distM) / (points[at.hop].distM - points[at.hop - 1].distM)
    && Lerp(points[at.hop - 1].distM, points[at.hop].distM, at.frac) == targetM
  }

  lemma PlaceIsOnTarget(points: seq<LapPoint>, targetM: real)
    requires Reference(points) && 0.0 < targetM < points[|points| - 1].distM
    ensures OnTarget(points, PlaceAt(points, targetM, points[|points| - 1].distM), targetM)
  {
    FModInside(targetM, points[|points| - 1].distM);
    var i := FirstReaching(points, targetM, 1);
    assert i < |points|;
    var a, b := points[i - 1].distM, points[i].distM;
    assert a < targetM;
    DivStrict(0.0, targetM - a, b - a);
    DivBounds(targetM - a, b - a);
    LerpBack(a, b, targetM);
  }

  lemma LerpBack(a: real, b: real, target: real)
    requires a < b
    ensures Lerp(a, b, (target - a) / (b - a)) == target
  {
    MulDivCancel(target - a, b - a);
  }

  /** Places on their targets, which ascend inside the lap. */
  ghost predicate Placed(points: seq<LapPoint>, places: seq<Place>, targets: seq<real>) {
    && |places| == |targets|
    && (forall k :: 0 <= k < |places| ==> OnTarget(points, places[k], targets[k]))
    && (forall k, l :: 0 <= k < l < |targets| ==> targets[k] < targets[l])
  }

  ghost function Targets(totalM: real, sectorCount: nat): (r: seq<real>)
    requires sectorCount > 0
    ensures |r| == sectorCount - 1 && forall k :: 0 <= k < |r| ==> r[k] == FractionM(totalM, k + 1, sectorCount)
  {
    seq(sectorCount - 1, k requires 0 <= k < sectorCount - 1 => FractionM(totalM, k + 1, sectorCount))
  }

  lemma TargetsRise(total: real, sectorCount: nat)
    requires total > 0.0 && sectorCount > 0
    ensures forall k, l :: 0 <= k < l < sectorCount - 1 ==>
            Targets(total, sectorCount)[k] < Targets(total, sectorCount)[l]
  {
    forall k, l | 0 <= k < l < sectorCount - 1
      ensures Targets(total, sectorCount)[k] < Targets(total, sectorCount)[l]
    {
      TargetsInside(total, k + 1, l + 1, sectorCount);
    }
  }

  lemma TargetIsInside(total: real, k: nat, sectorCount: nat)
    requires total > 0.0 && k + 1 < sectorCount
    ensures 0.0 < Targets(total, sectorCount)[k] < total
  {
    TargetsInside(total, k + 1, sectorCount, sectorCount);
    TargetAtEnd(total, sectorCount);
  }

  lemma GatesArePlaced(points: seq<LapPoint>, sectorCount: nat) returns (places: seq<Place>, targets: seq<real>)
    requires Reference(points) && sectorCount > 0
    ensures var total := points[|points| - 1].distM;
            places == Places(points, total, sectorCount) && targets == Targets(total, sectorCount)
    ensures Placed(points, places, targets)
  {
    var total := points[|points| - 1].distM;
    places, targets := Places(points, total, sectorCount), Targets(total, sectorCount);
    forall k | 0 <= k < |places| ensures OnTarget(points, places[k], targets[k]) {
      TargetIsInside(total, k, sectorCount);
      PlaceIsOnTarget(points, targets[k]);
    }
    TargetsRise(total, sectorCount);
  }

  lemma TargetAtEnd(total: real, sectorCount: nat)
    requires sectorCount > 0
    ensures FractionM(total, sectorCount, sectorCount) == total
  {
    MulDiv(total, sectorCount as real);
  }

  // ------------------------------------------------------------------------------------------
  // When a lap's own gates are accepted
  // ------------------------------------------------------------------------------------------

  /** The hop a gate is built on can be crossed there: see `OwnHopCrossing`. */
  ghost predicate OwnHopOk(p: Plane, points: seq<LapPoint>, at: Place, halfWidthM: real) {
    && 0 < at.hop < |points|
    && Bridgeable(FixOfPoint(points[at.hop - 1]), FixOfPoint(points[at.hop]))
    && Clears(p, points[at.hop - 1], points[at.hop], at.frac, halfWidthM)
  }

  ghost predicate AllOwnHopsOk(p: Plane, points: seq<LapPoint>, places: seq<Place>, h: real) {
    forall k :: 0 <= k < |places| ==> OwnHopOk(p, points, places[k], h)
  }

  /** The crossing a place's own hop makes of the gate built there. */
  function CrossingOf(points: seq<LapPoint>, at: Place, targetM: real): LapGateCrossing
    requires 0 < at.hop < |points|
  {
    LapGateCrossing(Lerp(points[at.hop - 1].timeMs, points[at.hop].timeMs, at.frac), targetM)
  }

  /** **A lap's own gate is crossed by the hop it was built on, at exactly its target distance.** */
  lemma OwnGateIsCrossedOnTarget(p: Plane, points: seq<LapPoint>, at: Place, targetM: real, h: real)
    requires Sound(p) && h >= 0.0 && OnTarget(points, at, targetM) && OwnHopOk(p, points, at, h)
    ensures HopCrossing(points, ProjectGate(p, GateAtPlace(p, points, at, h)), at.hop)
            == Some(CrossingOf(points, at, targetM))
  {
    var a, b := points[at.hop - 1], points[at.hop];
    OwnHopCrossing(p, a, b, at.frac, h);
  }

  lemma MulStrict(s: real, t: real, d: real)
    requires s < t && 0.0 < d
    ensures s * d < t * d
  {
    MulPositive(t - s, d);
    assert t * d == s * d + (t - s) * d;
  }

  lemma LerpStrict(a: real, b: real, s: real, t: real)
    requires a < b && s < t
    ensures Lerp(a, b, s) < Lerp(a, b, t)
  {
    var d := b - a;
    MulStrict(s, t, d);
    assert Lerp(a, b, s) == a + s * d;
    assert Lerp(a, b, t) == a + t * d;
  }

  ghost predicate Advances(points: seq<LapPoint>, at: Place) {
    0 < at.hop < |points| && points[at.hop - 1].timeMs < points[at.hop].timeMs
  }

  /** Gates further round are crossed later. */
  lemma CrossingsAdvance(points: seq<LapPoint>, at: Place, bt: Place, x: real, y: real)
    requires MonotoneLap(points) && OnTarget(points, at, x) && OnTarget(points, bt, y) && x < y && Advances(points, bt)
    ensures CrossingOf(points, at, x).crossMs < CrossingOf(points, bt, y).crossMs
  {
    if at.hop == bt.hop {
      SameHopAdvance(points[at.hop - 1], points[at.hop], x, y);
    } else {
      assert at.hop < bt.hop;
      assert points[at.hop].timeMs <= points[bt.hop - 1].timeMs;
      assert points[at.hop - 1].timeMs <= points[at.hop].timeMs;
      LaterHopAdvance(points[at.hop - 1].timeMs, points[at.hop].timeMs, points[bt.hop - 1].timeMs,
                      points[bt.hop].timeMs, at.frac, bt.frac);
    }
  }

  lemma LaterHopAdvance(a: real, b: real, c: real, d: real, s: real, t: real)
    requires a <= b <= c < d && 0.0 <= s <= 1.0 && 0.0 < t
    ensures Lerp(a, b, s) < Lerp(c, d, t)
  {
    LerpBounds(a, b, s);
    LerpStrict(c, d, 0.0, t);
    LerpEnds(c, d);
  }

  lemma SameHopAdvance(a: LapPoint, b: LapPoint, x: real, y: real)
    requires a.distM < b.distM && a.timeMs < b.timeMs && x < y
    ensures Lerp(a.timeMs, b.timeMs, (x - a.distM) / (b.distM - a.distM))
            < Lerp(a.timeMs, b.timeMs, (y - a.distM) / (b.distM - a.distM))
  {
    DivStrict(x - a.distM, y - a.distM, b.distM - a.distM);
    LerpStrict(a.timeMs, b.timeMs, (x - a.distM) / (b.distM - a.distM), (y - a.distM) / (b.distM - a.distM));
  }

  lemma CrossingAfterStart(points: seq<LapPoint>, at: Place, x: real)
    requires MonotoneLap(points) && OnTarget(points, at, x) && Advances(points, at)
    ensures points[0].timeMs < CrossingOf(points, at, x).crossMs
  {
    LerpStrict(points[at.hop - 1].timeMs, points[at.hop].timeMs, 0.0, at.frac);
    LerpEnds(points[at.hop - 1].timeMs, points[at.hop].timeMs);
    assert points[0].timeMs <= points[at.hop - 1].timeMs;
  }

  ghost function OwnCrossings(points: seq<LapPoint>, places: seq<Place>, targets: seq<real>): (r: seq<LapGateCrossing>)
    requires Placed(points, places, targets)
    ensures |r| == |places| && forall k :: 0 <= k < |r| ==> r[k] == CrossingOf(points, places[k], targets[k])
  {
    seq(|places|, k requires 0 <= k < |places| => CrossingOf(points, places[k], targets[k]))
  }

  ghost function HopsOf(places: seq<Place>): (r: seq<nat>)
    ensures |r| == |places| && forall k :: 0 <= k < |r| ==> r[k] == places[k].hop
  {
    seq(|places|, k requires 0 <= k < |places| => places[k].hop)
  }

  lemma OwnCrossingAfter(points: seq<LapPoint>, places: seq<Place>, targets: seq<real>, k: nat)
    requires Reference(points) && Placed(points, places, targets) && k < |places| && Advances(points, places[k])
    ensures Before(points[0].timeMs, OwnCrossings(points, places, targets), k)
            < CrossingOf(points, places[k], targets[k]).crossMs
  {
    if k == 0 {
      CrossingAfterStart(points, places[0], targets[0]);
    } else {
      CrossingsAdvance(points, places[k - 1], places[k], targets[k - 1], targets[k]);
    }
  }

  ghost predicate AllAdvance(points: seq<LapPoint>, places: seq<Place>) {
    forall k :: 0 <= k < |places| ==> Advances(points, places[k])
  }

  /** A hop that can be crossed takes time. */
  lemma OwnHopsAdvance(p: Plane, points: seq<LapPoint>, places: seq<Place>, h: real)
    requires AllOwnHopsOk(p, points, places, h)
    ensures AllAdvance(points, places)
  {}

  lemma OwnCrossingsAscend(points: seq<LapPoint>, places: seq<Place>, targets: seq<real>)
    requires Reference(points) && Placed(points, places, targets) && AllAdvance(points, places) && places != []
    ensures var own := OwnCrossings(points, places, targets);
            InOrder(points[0].timeMs, own, points[|points| - 1].timeMs)
            <==> own[|own| - 1].crossMs < points[|points| - 1].timeMs
  {
    var own := OwnCrossings(points, places, targets);
    forall k | 0 <= k < |own| ensures Later(points[0].timeMs, own, k) {
      OwnCrossingAfter(points, places, targets, k);
    }
  }

  lemma OwnCrossingsInOrder(p: Plane, points: seq<LapPoint>, places: seq<Place>, targets: seq<real>, h: real)
    requires Reference(points) && Placed(points, places, targets) && AllOwnHopsOk(p, points, places, h) && places != []
    ensures var own := OwnCrossings(points, places, targets);
            InOrder(points[0].timeMs, own, points[|points| - 1].timeMs)
            <==> own[|own| - 1].crossMs < points[|points| - 1].timeMs
  {
    OwnHopsAdvance(p, points, places, h);
    OwnCrossingsAscend(points, places, targets);
  }

  lemma OwnCrossingsInBand(points: seq<LapPoint>, places: seq<Place>, sectorCount: nat, idealStep: real)
    requires Reference(points) && sectorCount > 0
             && Placed(points, places, Targets(points[|points| - 1].distM, sectorCount))
    requires idealStep == IdealStep(points[|points| - 1].distM, sectorCount)
    ensures InBand(OwnCrossings(points, places, Targets(points[|points| - 1].distM, sectorCount)), idealStep,
                   idealStep * SANE_BAND_FACTOR)
  {
    var total := points[|points| - 1].distM;
    StepPositive(total, sectorCount);
    forall i | 0 <= i < |places|
      ensures Off(OwnCrossings(points, places, Targets(total, sectorCount))[i], idealStep, i) == 0.0
    {
      StepTimes(total, i + 1, sectorCount);
    }
  }

  lemma StepPositive(total: real, sectorCount: nat)
    requires total > 0.0 && sectorCount > 0
    ensures IdealStep(total, sectorCount) * SANE_BAND_FACTOR > 0.0
  {
    DivStrict(0.0, total, sectorCount as real);
  }

  lemma StepTimes(total: real, k: nat, sectorCount: nat)
    requires sectorCount > 0
    ensures FractionM(total, k, sectorCount) == IdealStep(total, sectorCount) * (k as real)
  {}

  lemma SplitsByOwnHops(points: seq<LapPoint>, pg: seq<ProjectedGate>, hops: seq<nat>, own: seq<LapGateCrossing>)
    requires pg != [] && |pg| == |hops| == |own| && |points| >= 2
    requires forall k :: 0 <= k < |pg| ==> HopCrossing(points, pg[k], hops[k]) == Some(own[k])
    ensures SplitSet(points, pg).Some? ==> SplitSet(points, pg) == Some(own)
    ensures SplitSet(points, pg).Some? <==>
              && (forall k :: 0 <= k < |pg| ==> CrossesOnce(points, pg[k], hops[k]))
              && InOrder(points[0].timeMs, own, points[|points| - 1].timeMs)
  {
    if SplitSet(points, pg).Some? {
      var found := SplitsGiveHops(points, pg);
      forall k | 0 <= k < |pg| ensures found[k] == hops[k] {
        assert CrossesOnce(points, pg[k], found[k]);
      }
      assert found == hops;
      assert SplitSet(points, pg).value == own;
    }
    if (forall k :: 0 <= k < |pg| ==> CrossesOnce(points, pg[k], hops[k]))
       && InOrder(points[0].timeMs, own, points[|points| - 1].timeMs) {
      HopsGiveSplits(points, pg, hops, own);
    }
  }

  /** No gate is crossed a second time anywhere on the lap. */
  ghost predicate NoSecondCrossing(points: seq<LapPoint>, pg: seq<ProjectedGate>, places: seq<Place>)
    requires |pg| == |places|
  {
    forall k :: 0 <= k < |pg| ==> CrossesOnce(points, pg[k], places[k].hop)
  }

  lemma PlacesOnPath(points: seq<LapPoint>, places: seq<Place>, targets: seq<real>)
    requires Placed(points, places, targets)
    ensures OnPath(points, places)
  {
    forall k | 0 <= k < |places| ensures 0 < places[k].hop < |points| {
      assert OnTarget(points, places[k], targets[k]);
    }
  }

  lemma OwnGatesCrossed(p: Plane, points: seq<LapPoint>, places: seq<Place>, targets: seq<real>, h: real)
    requires Sound(p) && h >= 0.0 && Placed(points, places, targets) && AllOwnHopsOk(p, points, places, h)
    ensures OnPath(points, places)
    ensures var pg := Projected(p, GatesAt(p, points, places, h));
            forall k :: 0 <= k < |places| ==>
                HopCrossing(points, pg[k], places[k].hop) == Some(OwnCrossings(points, places, targets)[k])
  {
    PlacesOnPath(points, places, targets);
    var pg := Projected(p, GatesAt(p, points, places, h));
    forall k | 0 <= k < |places|
      ensures HopCrossing(points, pg[k], places[k].hop) == Some(OwnCrossings(points, places, targets)[k])
    {
      OwnGateIsCrossedOnTarget(p, points, places[k], targets[k], h);
    }
  }

  lemma PlacedCandidate(p: Plane, points: seq<LapPoint>, places: seq<Place>, targets: seq<real>, h: real,
                        gates: seq<Gate>, idealStep: real)
    requires Sound(p) && Reference(points) && h >= 0.0 && places != []
    requires Placed(points, places, targets) && AllOwnHopsOk(p, points, places, h)
    requires OnPath(points, places) && gates == GatesAt(p, points, places, h)
    requires InBand(OwnCrossings(points, places, targets), idealStep, idealStep * SANE_BAND_FACTOR)
    ensures ValidCandidate(p, points, gates, idealStep) <==>
              && NoSecondCrossing(points, Projected(p, gates), places)
              && OwnCrossings(points, places, targets)[|places| - 1].crossMs < points[|points| - 1].timeMs
  {
    OwnGatesCrossed(p, points, places, targets, h);
    OwnCrossingsInOrder(p, points, places, targets, h);
    SplitsByOwnHops(points, Projected(p, gates), HopsOf(places), OwnCrossings(points, places, targets));
  }

  /** One gate of a lap's own: crossed by the hop it was built on, exactly on its target, if that hop can be
      crossed; otherwise by another hop, off its target by no more than the band. */
  ghost predicate CrossedInPlace(p: Plane, points: seq<LapPoint>, at: Place, targetM: real, h: real, band: real,
                                 hop: nat, crossing: LapGateCrossing) {
    if OwnHopOk(p, points, at, h) then hop == at.hop && crossing == CrossingOf(points, at, targetM)
    else hop != at.hop && Abs(crossing.distM - targetM) <= band
  }

  ghost predicate AllInPlace(p: Plane, points: seq<LapPoint>, places: seq<Place>, targets: seq<real>, h: real,
                             band: real, hops: seq<nat>, crossings: seq<LapGateCrossing>) {
    && |places| == |targets| == |hops| == |crossings|
    && forall k :: 0 <= k < |places| ==>
       CrossedInPlace(p, points, places[k], targets[k], h, band, hops[k], crossings[k])
  }

  /** Every gate crossed by one hop and no other, in gate order inside the lap, and in place. */
  ghost predicate SplitInPlace(p: Plane, points: seq<LapPoint>, gates: seq<Gate>, places: seq<Place>,
                               targets: seq<real>, h: real, band: real) {
    exists hops, crossings ::
      SplitBy(points, Projected(p, gates), hops, crossings)
          && AllInPlace(p, points, places, targets, h, band, hops, crossings)
  }

  /** Where a gate's one crossing can be. */
  lemma InPlaceIff(p: Plane, points: seq<LapPoint>, at: Place, targetM: real, h: real, band: real,
                   hop: nat, crossing: LapGateCrossing)
    requires Sound(p) && h >= 0.0 && band >= 0.0 && OnTarget(points, at, targetM)
    requires var g := ProjectGate(p, GateAtPlace(p, points, at, h));
             CrossesOnce(points, g, hop) && HopCrossing(points, g, hop) == Some(crossing)
    ensures CrossedInPlace(p, points, at, targetM, h, band, hop, crossing) <==> Abs(crossing.distM - targetM) <= band
  {
    var g := ProjectGate(p, GateAtPlace(p, points, at, h));
    OwnHopCrossing(p, points[at.hop - 1], points[at.hop], at.frac, h);
    if OwnHopOk(p, points, at, h) {
      OwnGateIsCrossedOnTarget(p, points, at, targetM, h);
    } else {
      assert HopCrossing(points, g, at.hop).None?;
    }
  }

  lemma AllInPlaceIff(p: Plane, points: seq<LapPoint>, places: seq<Place>, targets: seq<real>, h: real, idealStep: real,
                      band: real, hops: seq<nat>, crossings: seq<LapGateCrossing>)
    requires Sound(p) && h >= 0.0 && band >= 0.0 && Placed(points, places, targets) && OnPath(points, places)
    requires forall k :: 0 <= k < |targets| ==> targets[k] == idealStep * ((k + 1) as real)
    requires SplitBy(points, Projected(p, GatesAt(p, points, places, h)), hops, crossings)
    ensures AllInPlace(p, points, places, targets, h, band, hops, crossings) <==> InBand(crossings, idealStep, band)
  {
    var pg := Projected(p, GatesAt(p, points, places, h));
    forall k | 0 <= k < |places|
      ensures CrossedInPlace(p, points, places[k], targets[k], h, band, hops[k], crossings[k])
              <==> Off(crossings[k], idealStep, k) <= band
    {
      assert CrossesOnce(points, pg[k], hops[k]);
      InPlaceIff(p, points, places[k], targets[k], h, band, hops[k], crossings[k]);
    }
  }

  lemma PlacedCandidateIff(p: Plane, points: seq<LapPoint>, places: seq<Place>, targets: seq<real>, h: real,
                           idealStep: real)
    requires Sound(p) && h >= 0.0 && places != [] && idealStep >= 0.0
    requires Placed(points, places, targets) && OnPath(points, places)
    requires forall k :: 0 <= k < |targets| ==> targets[k] == idealStep * ((k + 1) as real)
    ensures ValidCandidate(p, points, GatesAt(p, points, places, h), idealStep)
            <==> SplitInPlace(p, points, GatesAt(p, points, places, h), places, targets, h,
                              idealStep * SANE_BAND_FACTOR)
  {
    var gates, band := GatesAt(p, points, places, h), idealStep * SANE_BAND_FACTOR;
    var pg := Projected(p, gates);
    if ValidCandidate(p, points, gates, idealStep) {
      var hops := SplitsGiveHops(points, pg);
      var crossings := SplitSet(points, pg).value;
      AllInPlaceIff(p, points, places, targets, h, idealStep, band, hops, crossings);
    }
    if SplitInPlace(p, points, gates, places, targets, h, band) {
      var hops, crossings :|
        SplitBy(points, pg, hops, crossings) && AllInPlace(p, points, places, targets, h, band, hops, crossings);
      AllInPlaceIff(p, points, places, targets, h, idealStep, band, hops, crossings);
      HopsGiveSplits(points, pg, hops, crossings);
    }
  }

  lemma TargetsAreSteps(total: real, sectorCount: nat) returns (idealStep: real)
    requires total > 0.0 && sectorCount > 0
    ensures idealStep == IdealStep(total, sectorCount) && idealStep >= 0.0
    ensures forall k :: 0 <= k < |Targets(total, sectorCount)| ==>
              Targets(total, sectorCount)[k] == idealStep * ((k + 1) as real)
  {
    idealStep := IdealStep(total, sectorCount);
    DivStrict(0.0, total, sectorCount as real);
    forall k | 0 <= k < sectorCount - 1 ensures Targets(total, sectorCount)[k] == idealStep * ((k + 1) as real) {
      StepTimes(total, k + 1, sectorCount);
    }
  }

  /** **Any lap's own candidate is accepted exactly when every gate is crossed by one hop and no other, in
      gate order inside the lap, and in place**: on its target by its own hop if that can be crossed, else by
      another hop within the band. */
  lemma CandidateIsSplit(p: Plane, points: seq<LapPoint>, h: real, sectorCount: nat)
    requires Sound(p) && Reference(points) && sectorCount >= 2 && h >= 0.0
    ensures var total := points[|points| - 1].distM;
            var places, gates := Places(points, total, sectorCount), InteriorGates(p, points, total, h, sectorCount);
            var idealStep := IdealStep(total, sectorCount);
            ValidCandidate(p, points, gates, idealStep)
            <==> SplitInPlace(p, points, gates, places, Targets(total, sectorCount), h, idealStep * 0.4)
  {
    var places, targets := GatesArePlaced(points, sectorCount);
    PlacesOnPath(points, places, targets);
    var idealStep := TargetsAreSteps(points[|points| - 1].distM, sectorCount);
    PlacedCandidateIff(p, points, places, targets, h, idealStep);
  }

  /** **Gate order and band always hold on the lap a candidate was built from**: when each gate's own hop can
      be crossed, the candidate is accepted exactly when no gate is crossed a second time anywhere on the lap
      and the last one is crossed before the lap's last instant. */
  lemma CandidateIsValidExactly(p: Plane, points: seq<LapPoint>, h: real, sectorCount: nat)
    requires Sound(p) && Reference(points) && sectorCount >= 2 && h >= 0.0
    requires AllOwnHopsOk(p, points, Places(points, points[|points| - 1].distM, sectorCount), h)
    ensures var total := points[|points| - 1].distM;
            var places, gates := Places(points, total, sectorCount), InteriorGates(p, points, total, h, sectorCount);
            var last := places[|places| - 1];
            ValidCandidate(p, points, gates, IdealStep(total, sectorCount)) <==>
              && NoSecondCrossing(points, Projected(p, gates), places)
              && CrossingOf(points, last, FractionM(total, sectorCount - 1, sectorCount)).crossMs
                 < points[|points| - 1].timeMs
  {
    var places, targets := GatesArePlaced(points, sectorCount);
    OwnGatesCrossed(p, points, places, targets, h);
    var idealStep := IdealStep(points[|points| - 1].distM, sectorCount);
    OwnCrossingsInBand(points, places, sectorCount, idealStep);
    PlacedCandidate(p, points, places, targets, h, GatesAt(p, points, places, h), idealStep);
  }

  /** Every point of the lap comes later than the one before. */
  ghost predicate TimesRise(points: seq<LapPoint>) {
    forall i, j :: 0 <= i < j < |points| ==> points[i].timeMs < points[j].timeMs
  }

  /** Short of its end a lap whose times rise is short of its last instant. */
  lemma CrossedBeforeTheEnd(points: seq<LapPoint>, at: Place, targetM: real)
    requires Reference(points) && TimesRise(points)
    requires OnTarget(points, at, targetM) && targetM < points[|points| - 1].distM
    ensures CrossingOf(points, at, targetM).crossMs < points[|points| - 1].timeMs
  {
    var a, b := points[at.hop - 1], points[at.hop];
    if at.hop == |points| - 1 {
      DivStrict(targetM - a.distM, b.distM - a.distM, b.distM - a.distM);
      LerpStrict(a.timeMs, b.timeMs, at.frac, 1.0);
      LerpEnds(a.timeMs, b.timeMs);
    } else {
      LerpBounds(a.timeMs, b.timeMs, at.frac);
    }
  }

  lemma LastTarget(total: real, sectorCount: nat) returns (targets: seq<real>)
    requires total > 0.0 && sectorCount >= 2
    ensures targets == Targets(total, sectorCount) && |targets| == sectorCount - 1
    ensures targets[sectorCount - 2] == FractionM(total, sectorCount - 1, sectorCount) < total
  {
    targets := Targets(total, sectorCount);
    TargetIsInside(total, sectorCount - 2, sectorCount);
  }

  lemma LastCrossedInTime(points: seq<LapPoint>, places: seq<Place>, sectorCount: nat)
    requires Reference(points) && TimesRise(points) && sectorCount >= 2
    requires places == Places(points, points[|points| - 1].distM, sectorCount)
    ensures OnPath(points, places)
    ensures var total := points[|points| - 1].distM;
            CrossingOf(points, places[|places| - 1], FractionM(total, sectorCount - 1, sectorCount)).crossMs
            < points[|points| - 1].timeMs
  {
    var same, targets := GatesArePlaced(points, sectorCount);
    PlacesOnPath(points, places, targets);
    targets := LastTarget(points[|points| - 1].distM, sectorCount);
    CrossedBeforeTheEnd(points, places[sectorCount - 2], targets[sectorCount - 2]);
  }

  /** **With times that rise only a second crossing can reject a candidate on its own lap.** */
  lemma OnlySecondCrossingRejects(p: Plane, points: seq<LapPoint>, h: real, sectorCount: nat)
    requires Sound(p) && Reference(points) && TimesRise(points) && sectorCount >= 2 && h >= 0.0
    requires AllOwnHopsOk(p, points, Places(points, points[|points| - 1].distM, sectorCount), h)
    ensures var total := points[|points| - 1].distM;
            var places, gates := Places(points, total, sectorCount), InteriorGates(p, points, total, h, sectorCount);
            && OnPath(points, places)
            && (ValidCandidate(p, points, gates, IdealStep(total, sectorCount))
                <==> NoSecondCrossing(points, Projected(p, gates), places))
  {
    LastCrossedInTime(points, Places(points, points[|points| - 1].distM, sectorCount), sectorCount);
    CandidateIsValidExactly(p, points, h, sectorCount);
  }

  // ------------------------------------------------------------------------------------------
  // A lap whose last points share a millisecond
  // ------------------------------------------------------------------------------------------

  /** A point on the meridian, as far from the equator as along the lap. */
  function NorthOf(timeMs: real, distM: real): LapPoint {
    LapPoint(timeMs, distM / METERS_PER_DEG_LAT, 0.0, distM, None, None)
  }

  /** A car stands for 2.6 s, drives ten metres, and is seen twice in the millisecond it crosses the line in. */
  function TiedLap(): (r: seq<LapPoint>)
    ensures |r| == 5 && r[0].distM == 0.0 && r[4].distM == 20.0
  {
    [NorthOf(0.0, 0.0), NorthOf(2600.0, 0.0), NorthOf(3000.0, 10.0), NorthOf(3000.0, 20.0), NorthOf(3000.0, 20.0)]
  }

  lemma TiedPlace(points: seq<LapPoint>) returns (places: seq<Place>)
    requires points == TiedLap() && Reference(points)
    ensures places == Places(points, 20.0, 2) && places == [Place(2, 1.0)]
  {
    var targets;
    places, targets := GatesArePlaced(points, 2);
    HalfWay(20.0);
    TiedPlaceIs(points, places[0]);
  }

  lemma HalfWay(total: real)
    ensures FractionM(total, 1, 2) == total / 2.0
  {}

  lemma TiedPlaceIs(points: seq<LapPoint>, at: Place)
    requires points == TiedLap() && OnTarget(points, at, 10.0)
    ensures at == Place(2, 1.0)
  {
    assert points[0].distM == 0.0 && points[1].distM == 0.0 && points[2].distM == 10.0 && points[3].distM == 20.0;
  }

  lemma HundredRoot(m: real)
    requires m >= 0.0 && m * m == 100.0
    ensures m >= 1.0
  {
    if m < 1.0 {
      MulNonNegative(1.0 - m, m);
    }
  }

  lemma TiedHopIsOk(p: Plane, points: seq<LapPoint>, h: real)
    requires Sound(p) && points == TiedLap() && h >= 1.0
    ensures OwnHopOk(p, points, Place(2, 1.0), h)
  {
    var a, b := points[1], points[2];
    HopLength(p, a, b, 1.0);
    TiedHop(p, a, b);
    HundredRoot(HopM(p, a, b, 1.0));
    MulNonNegative(h - 1.0, HopM(p, a, b, 1.0));
  }

  lemma TiedHop(p: Plane, a: LapPoint, b: LapPoint)
    requires a == NorthOf(2600.0, 0.0) && b == NorthOf(3000.0, 10.0)
    ensures HopX(p, a, b, 1.0) == 0.0 && HopY(a, b, 1.0) == 10.0
  {
    assert b.lat * METERS_PER_DEG_LAT == 10.0;
  }

  lemma TiedCrossesOnce(p: Plane, points: seq<LapPoint>, g: ProjectedGate)
    requires points == TiedLap() && HopCrossing(points, g, 2).Some?
    ensures CrossesOnce(points, g, 2)
  {
    forall j: nat | j != 2 ensures HopCrossing(points, g, j).None? {
      if j == 1 || j == 3 || j == 4 {
        assert !Bridgeable(FixOfPoint(points[j - 1]), FixOfPoint(points[j]));
      }
    }
  }

  lemma TiedGateOnce(p: Plane, points: seq<LapPoint>, places: seq<Place>, h: real)
    requires Sound(p) && points == TiedLap() && Reference(points) && h >= 1.0 && places == Places(points, 20.0, 2)
    ensures OnPath(points, places) && AllOwnHopsOk(p, points, places, h)
    ensures NoSecondCrossing(points, Projected(p, GatesAt(p, points, places, h)), places)
  {
    var same := TiedPlace(points);
    TiedHopIsOk(p, points, h);
    var at, targets := GatesArePlaced(points, 2);
    PlacesOnPath(points, places, targets);
    OwnGateIsCrossedOnTarget(p, points, places[0], targets[0], h);
    TiedCrossesOnce(p, points, Projected(p, GatesAt(p, points, places, h))[0]);
  }

  /** **A lap that rejects its own candidate with every gate crossed once**: its gate is crossed in the lap's very
      last millisecond, ten metres before its end. */
  lemma TiedLapIsRejected(p: Plane, h: real) returns (points: seq<LapPoint>, gates: seq<Gate>)
    requires Sound(p) && h >= 1.0
    ensures points == TiedLap() && gates == InteriorGates(p, points, 20.0, h, 2)
    ensures Reference(points) && AllOwnHopsOk(p, points, Places(points, 20.0, 2), h)
    ensures NoSecondCrossing(points, Projected(p, gates), Places(points, 20.0, 2))
    ensures !ValidCandidate(p, points, gates, IdealStep(20.0, 2))
  {
    points := TiedLap();
    assert Reference(points);
    gates := InteriorGates(p, points, 20.0, h, 2);
    var places := TiedPlace(points);
    TiedGateOnce(p, points, places, h);
    CandidateIsValidExactly(p, points, h, 2);
    LerpEnds(2600.0, 3000.0);
  }
}
