/** What `deriveFromLap` of `sector-gates.ts` hands back, gate by gate. */
module DerivedGates {
  import opened SampleMath
  import opened Analysis
  import opened Geo
  import opened GateCrossing
  import opened Sectors
  import opened SectorGates

  /** The gate's middle is as far along the hop from `a` to `b` as `targetM` is. */
  ghost predicate CentredAt(gate: Gate, a: LapPoint, b: LapPoint, targetM: real) {
    && Proportional(a.distM, targetM, b.distM, a.lat, (gate.lat1 + gate.lat2) / 2.0, b.lat)
    && Proportional(a.distM, targetM, b.distM, a.lon, (gate.lon1 + gate.lon2) / 2.0, b.lon)
  }

  /** `(x, y)` is at a right angle to the direction, to its left. */
  ghost predicate TurnsLeft(east: real, north: real, x: real, y: real) {
    east * x + north * y == 0.0 && east * y - north * x >= 0.0
  }

  /** In metres the gate is at a right angle to the hop, its first end to the left. */
  ghost predicate LiesAcross(p: Plane, gate: Gate, a: LapPoint, b: LapPoint) {
    var m := p.mLon((gate.lat1 + gate.lat2) / 2.0);
    TurnsLeft((b.lon - a.lon) * m, (b.lat - a.lat) * 111132.0, (gate.lon1 - gate.lon2) * m,
              (gate.lat1 - gate.lat2) * 111132.0)
  }

  function WidthM(p: Plane, gate: Gate): real { DistanceM(p, gate.lat1, gate.lon1, gate.lat2, gate.lon2) }

  // ------------------------------------------------------------------------------------------
  // One gate
  // ------------------------------------------------------------------------------------------

  lemma Twice(lon1: real, lon2: real, midLon: real, m: real, x: real)
    requires (lon1 - midLon) * m == x && (lon2 - midLon) * m == -x
    ensures (lon1 - lon2) * m == 2.0 * x
  {
    assert (lon1 - lon2) * m == (lon1 - midLon) * m - (lon2 - midLon) * m;
  }

  lemma AroundIs(p: Plane, lat: real, lon: real, ux: real, uy: real, h: real) returns (gate: Gate)
    requires Sound(p)
    ensures p.mLon(lat) > 0.0 && gate == GateAround(lat, lon, p.mLon(lat), ux, uy, h)
    ensures (gate.lat1 + gate.lat2) / 2.0 == lat && (gate.lon1 + gate.lon2) / 2.0 == lon
    ensures (gate.lon1 - gate.lon2) * p.mLon(lat) == 2.0 * (ux * h)
    ensures (gate.lat1 - gate.lat2) * 111132.0 == 2.0 * (uy * h)
  {
    gate := GateAround(lat, lon, p.mLon(lat), ux, uy, h);
    var g := ProjectAround(p, lat, lon, ux, uy, h);
    Twice(gate.lon1, gate.lon2, lon, p.mLon(lat), ux * h);
    Twice(gate.lat1, gate.lat2, lat, 111132.0, uy * h);
  }

  lemma SquareRises(x: real, y: real)
    requires 0.0 <= x < y
    ensures x * x < y * y
  {
    MulPositive(y - x, y + x);
    assert (y - x) * (y + x) == y * y - x * x;
  }

  lemma RootIsUnique(x: real, y: real)
    requires x >= 0.0 && y >= 0.0 && x * x == y * y
    ensures x == y
  {
    if x < y {
      SquareRises(x, y);
    } else if y < x {
      SquareRises(y, x);
    }
  }

  lemma NoSquares(dx: real, dy: real)
    requires dx * dx + dy * dy == 0.0
    ensures dx == 0.0 && dy == 0.0
  {
    MulNonNegative(Abs(dx), Abs(dx));
    MulNonNegative(Abs(dy), Abs(dy));
    RootIsUnique(Abs(dx), 0.0);
    RootIsUnique(Abs(dy), 0.0);
  }

  /** Across `(dx, dy)` at a right angle, the first end to the left. */
  lemma NormalTurnsLeft(dx: real, dy: real, hopM: real, ux: real, uy: real, x: real, y: real, h: real)
    requires h >= 0.0 && hopM >= 0.0 && hopM * hopM == dx * dx + dy * dy
    requires ux == -dy / OrOne(hopM) && uy == dx / OrOne(hopM) && x == 2.0 * (ux * h) && y == 2.0 * (uy * h)
    ensures TurnsLeft(dx, dy, x, y)
    ensures hopM > 0.0 ==> x * x + y * y == (2.0 * h) * (2.0 * h)
  {
    if hopM > 0.0 {
      UnitNormal(dx, dy, hopM);
      PerpendicularLength(dx, dy, hopM);
      Doubled(dx, dy, ux, uy, h);
      MulNonNegative(h, hopM);
    } else {
      NoSquares(dx, dy);
    }
  }

  lemma Doubled(dx: real, dy: real, ux: real, uy: real, h: real)
    ensures var x, y := 2.0 * (ux * h), 2.0 * (uy * h);
            && dx * x + dy * y == 2.0 * h * (dx * ux + dy * uy)
            && dx * y - dy * x == 2.0 * (h * (dx * uy - dy * ux))
            && x * x + y * y == (2.0 * h) * (2.0 * h) * (ux * ux + uy * uy)
  {}

  /** The hop and the gate in metres. */
  lemma InMetres(p: Plane, a: LapPoint, b: LapPoint, frac: real, h: real)
    returns (gate: Gate, m: real, dx: real, dy: real, x: real, y: real)
    requires Sound(p) && h >= 0.0
    ensures gate == PerpendicularGate(p, a, b, frac, h)
    ensures m == p.mLon((gate.lat1 + gate.lat2) / 2.0)
    ensures dx == (b.lon - a.lon) * m && x == (gate.lon1 - gate.lon2) * m
    ensures dy == (b.lat - a.lat) * 111132.0 && y == (gate.lat1 - gate.lat2) * 111132.0
    ensures TurnsLeft(dx, dy, x, y)
    ensures HopM(p, a, b, frac) > 0.0 ==> x * x + y * y == (2.0 * h) * (2.0 * h)
  {
    var len, ux, uy;
    dx, dy, len, ux, uy := PerpendicularIs(p, a, b, frac, h);
    gate := AroundIs(p, Lerp(a.lat, b.lat, frac), Lerp(a.lon, b.lon, frac), ux, uy, h);
    m := p.mLon(Lerp(a.lat, b.lat, frac));
    x, y := 2.0 * (ux * h), 2.0 * (uy * h);
    NormalTurnsLeft(dx, dy, HopM(p, a, b, frac), ux, uy, x, y, h);
  }

  /** `targetM` is `frac` of the way along the hop. */
  ghost predicate IsAlong(a: LapPoint, b: LapPoint, frac: real, targetM: real) {
    targetM - a.distM == frac * (b.distM - a.distM)
  }

  lemma GateIsCentred(p: Plane, a: LapPoint, b: LapPoint, frac: real, h: real, targetM: real)
    requires Sound(p) && IsAlong(a, b, frac, targetM)
    ensures CentredAt(PerpendicularGate(p, a, b, frac, h), a, b, targetM)
  {
    MiddleIs(p, a, b, frac, h);
    LerpIsProportional(a.distM, targetM, b.distM, a.lat, b.lat, frac);
    LerpIsProportional(a.distM, targetM, b.distM, a.lon, b.lon, frac);
  }

  lemma MiddleIs(p: Plane, a: LapPoint, b: LapPoint, frac: real, h: real)
    requires Sound(p)
    ensures var gate := PerpendicularGate(p, a, b, frac, h);
            && (gate.lat1 + gate.lat2) / 2.0 == Lerp(a.lat, b.lat, frac)
            && (gate.lon1 + gate.lon2) / 2.0 == Lerp(a.lon, b.lon, frac)
  {
    var dx, dy, len, ux, uy := PerpendicularIs(p, a, b, frac, h);
    var gate := AroundIs(p, Lerp(a.lat, b.lat, frac), Lerp(a.lon, b.lon, frac), ux, uy, h);
  }

  lemma GateLiesAcross(p: Plane, a: LapPoint, b: LapPoint, frac: real, h: real)
    requires Sound(p) && h >= 0.0
    ensures LiesAcross(p, PerpendicularGate(p, a, b, frac, h), a, b)
  {
    var gate, m, dx, dy, x, y := InMetres(p, a, b, frac, h);
    AcrossInMetres(p, gate, a, b, m, dx, dy, x, y);
  }

  lemma AcrossInMetres(p: Plane, gate: Gate, a: LapPoint, b: LapPoint, m: real, dx: real, dy: real, x: real, y: real)
    requires m == p.mLon((gate.lat1 + gate.lat2) / 2.0) && TurnsLeft(dx, dy, x, y)
    requires dx == (b.lon - a.lon) * m && x == (gate.lon1 - gate.lon2) * m
    requires dy == (b.lat - a.lat) * 111132.0 && y == (gate.lat1 - gate.lat2) * 111132.0
    ensures LiesAcross(p, gate, a, b)
  {}

  lemma GateIsAsWide(p: Plane, a: LapPoint, b: LapPoint, frac: real, h: real)
    requires Sound(p) && h >= 0.0 && HopM(p, a, b, frac) > 0.0
    ensures WidthM(p, PerpendicularGate(p, a, b, frac, h)) == 2.0 * h
  {
    var gate, m, dx, dy, x, y := InMetres(p, a, b, frac, h);
    WidthIs(p, gate, x, y, h);
  }

  lemma WidthIs(p: Plane, gate: Gate, x: real, y: real, h: real)
    requires Sound(p) && h >= 0.0 && x * x + y * y == (2.0 * h) * (2.0 * h)
    requires x == (gate.lon1 - gate.lon2) * p.mLon((gate.lat1 + gate.lat2) / 2.0)
    requires y == (gate.lat1 - gate.lat2) * 111132.0
    ensures WidthM(p, gate) == 2.0 * h
  {
    DistanceIsPythagorean(p, gate.lat1, gate.lon1, gate.lat2, gate.lon2);
    var m := p.mLon((gate.lat1 + gate.lat2) / 2.0);
    Negated(gate.lon1 - gate.lon2, m);
    Negated(gate.lat1 - gate.lat2, 111132.0);
    RootIsUnique(WidthM(p, gate), 2.0 * h);
  }

  lemma Negated(x: real, m: real)
    ensures (-x * m) * (-x * m) == (x * m) * (x * m)
  {}

  // ------------------------------------------------------------------------------------------
  // Every gate of a lap
  // ------------------------------------------------------------------------------------------

  /** Where gate `k` of `n` should be. */
  ghost predicate IsTarget(targetM: real, totalM: real, k: nat, n: nat) {
    targetM * (n as real) == totalM * (k as real)
  }

  /** **Gate k of N lies across the first hop that gets to k/N of the lap**, centred there and at a right angle to it,
      and is as wide as the start gate unless the hop goes nowhere. */
  lemma GatesLieAcross(p: Plane, points: seq<LapPoint>, sfGate: Gate, k: nat, n: nat)
    returns (targetM: real, i: nat)
    requires Sound(p) && Reference(points) && 0 < k < n
    ensures var total := points[|points| - 1].distM;
            var gates := InteriorGates(p, points, total, HalfWidthM(p, sfGate), n);
            && |gates| == n - 1 && IsTarget(targetM, total, k, n)
            && 0 < i < |points| && (forall j :: 0 <= j < i ==> points[j].distM < targetM) && targetM <= points[i].distM
            && CentredAt(gates[k - 1], points[i - 1], points[i], targetM)
            && LiesAcross(p, gates[k - 1], points[i - 1], points[i])
            && (points[i - 1].lat != points[i].lat || points[i - 1].lon != points[i].lon ==>
                WidthM(p, gates[k - 1]) == WidthM(p, sfGate))
  {
    var h, at := HalfWidthM(p, sfGate), Place(0, 0.0);
    targetM, at := HopOfGate(points, k, n);
    i := at.hop;
    var a, b := points[i - 1], points[i];
    GateIsCentred(p, a, b, at.frac, h, targetM);
    GateLiesAcross(p, a, b, at.frac, h);
    if a.lat != b.lat || a.lon != b.lon {
      HopGoesSomewhere(p, a, b, at.frac);
      GateIsAsWide(p, a, b, at.frac, h);
    }
  }

  lemma HopOfGate(points: seq<LapPoint>, k: nat, n: nat) returns (targetM: real, at: Place)
    requires Reference(points) && 0 < k < n
    ensures var total := points[|points| - 1].distM;
            at == Places(points, total, n)[k - 1] && IsTarget(targetM, total, k, n)
    ensures 0 < at.hop < |points| && targetM <= points[at.hop].distM
    ensures forall j :: 0 <= j < at.hop ==> points[j].distM < targetM
    ensures IsAlong(points[at.hop - 1], points[at.hop], at.frac, targetM)
  {
    var places, targets := GatesArePlaced(points, n);
    targetM, at := targets[k - 1], places[k - 1];
    OnItsHop(points, at, targetM);
    FractionTimes(points[|points| - 1].distM, k, n);
  }

  lemma OnItsHop(points: seq<LapPoint>, at: Place, targetM: real)
    requires Reference(points) && OnTarget(points, at, targetM)
    ensures targetM <= points[at.hop].distM && forall j :: 0 <= j < at.hop ==> points[j].distM < targetM
    ensures IsAlong(points[at.hop - 1], points[at.hop], at.frac, targetM)
  {
    forall j | 0 <= j < at.hop ensures points[j].distM < targetM {
      assert points[j].distM <= points[at.hop - 1].distM;
    }
  }

  lemma FractionTimes(totalM: real, k: nat, n: nat)
    requires n > 0
    ensures IsTarget(FractionM(totalM, k, n), totalM, k, n)
  {}

  lemma HopGoesSomewhere(p: Plane, a: LapPoint, b: LapPoint, frac: real)
    requires Sound(p) && (a.lat != b.lat || a.lon != b.lon)
    ensures HopM(p, a, b, frac) > 0.0
  {
    HopIsDifference(p, a, b, frac);
    HopLength(p, a, b, frac);
    if HopM(p, a, b, frac) == 0.0 {
      var m := p.mLon(Lerp(a.lat, b.lat, frac));
      NoSquares(HopX(p, a, b, frac), HopY(a, b, frac));
      NoFactor(b.lon - a.lon, m);
    }
  }

  lemma NoFactor(x: real, m: real)
    requires m > 0.0 && x * m == 0.0
    ensures x == 0.0
  {
    assert x == x * m / m;
  }
}
