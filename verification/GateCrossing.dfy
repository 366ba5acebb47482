/** `gate-crossing.ts`: does the hop between two consecutive fixes cross a gate? */
module GateCrossing {
  import opened SampleMath
  import opened Analysis
  import opened Geo

  const STATIONARY_SPEED_KMH := 3.0
  const MAX_FIX_GAP_MS := 500.0
  const MIN_LAP_MS := 3000.0
  const PARALLEL := 0.000000001

  datatype Fix = Fix(timeMs: real, lat: Option<real>, lon: Option<real>, speedKmh: Option<real>)

  function FixOfSample(s: Sample): Fix { Fix(s.time as real, s.lat, s.lon, s.speedKmh) }

  function FixOfPoint(p: LapPoint): Fix { Fix(p.timeMs, Some(p.lat), Some(p.lon), p.speedKmh) }

  /** A gate in metres around its own midpoint, from `(aX, aY)` to `(bX, bY)`. */
  datatype ProjectedGate = ProjectedGate(midLat: real, midLon: real, mLon: real, aX: real, aY: real, bX: real, bY: real)

  datatype Crossing = Crossing(crossMs: real, lat: real, lon: real, dirSign: int, t: real)

  function ProjectGate(p: Plane, g: Gate): ProjectedGate {
    var midLat := (g.lat1 + g.lat2) / 2.0;
    var midLon := (g.lon1 + g.lon2) / 2.0;
    var mLon := p.mLon(midLat);
    ProjectedGate(midLat, midLon, mLon,
                  (g.lon1 - midLon) * mLon, (g.lat1 - midLat) * METERS_PER_DEG_LAT,
                  (g.lon2 - midLon) * mLon, (g.lat2 - midLat) * METERS_PER_DEG_LAT)
  }

  function X(g: ProjectedGate, lon: real): real { (lon - g.midLon) * g.mLon }

  function Y(g: ProjectedGate, lat: real): real { (lat - g.midLat) * METERS_PER_DEG_LAT }

  /** The two segments in the gate's frame: the hop `p + t·r` and the gate `a + u·s`. */
  datatype Frame = Frame(px: real, py: real, rx: real, ry: real, ax: real, ay: real, sx: real, sy: real) {
    function Denom(): real { rx * sy - ry * sx }

    function T(): real
      requires Denom() != 0.0
    {
      ((ax - px) * sy - (ay - py) * sx) / Denom()
    }

    function U(): real
      requires Denom() != 0.0
    {
      ((ax - px) * ry - (ay - py) * rx) / Denom()
    }
  }

  function FrameOf(prev: Fix, cur: Fix, g: ProjectedGate): Frame
    requires prev.lat.Some? && prev.lon.Some? && cur.lat.Some? && cur.lon.Some?
  {
    var px, py := X(g, prev.lon.value), Y(g, prev.lat.value);
    var qx, qy := X(g, cur.lon.value), Y(g, cur.lat.value);
    Frame(px, py, qx - px, qy - py, g.aX, g.aY, g.bX - g.aX, g.bY - g.aY)
  }

  /** The checks that do not look at the gate. */
  predicate Bridgeable(prev: Fix, cur: Fix) {
    && prev.lat.Some? && prev.lon.Some? && cur.lat.Some? && cur.lon.Some?
    && !(cur.speedKmh.Some? && cur.speedKmh.value <= STATIONARY_SPEED_KMH)
    && 0.0 < cur.timeMs - prev.timeMs <= MAX_FIX_GAP_MS
  }

  /** `required` is 1 or -1 once the racing direction is latched, else 0. */
  function FindGateCrossing(prev: Fix, cur: Fix, g: ProjectedGate, required: int): Option<Crossing> {
    if !Bridgeable(prev, cur) then None else
      var f := FrameOf(prev, cur, g);
      var denom := f.Denom();
      if -PARALLEL < denom < PARALLEL then None else
        var t, u := f.T(), f.U();
        if t < 0.0 || t > 1.0 || u < 0.0 || u > 1.0 then None else
          var dirSign := if denom > 0.0 then 1 else -1;
          if required != 0 && dirSign != required then None else
            Some(Crossing(Lerp(prev.timeMs, cur.timeMs, t), Lerp(prev.lat.value, cur.lat.value, t),
                          Lerp(prev.lon.value, cur.lon.value, t), dirSign, t))
  }

  // ------------------------------------------------------------------------------------------
  // What a crossing is
  // ------------------------------------------------------------------------------------------

  /** The point at `t` along the hop is the point at `u` along the gate, inside both segments. */
  ghost predicate Meets(f: Frame, t: real, u: real) {
    && 0.0 <= t <= 1.0 && 0.0 <= u <= 1.0
    && f.px + t * f.rx == f.ax + u * f.sx
    && f.py + t * f.ry == f.ay + u * f.sy
  }

  lemma SolutionMeets(f: Frame)
    requires f.Denom() != 0.0
    ensures f.px + f.T() * f.rx == f.ax + f.U() * f.sx
    ensures f.py + f.T() * f.ry == f.ay + f.U() * f.sy
  {
    var d, t, u := f.Denom(), f.T(), f.U();
    var wx, wy := f.ax - f.px, f.ay - f.py;
    assert t * d == wx * f.sy - wy * f.sx;
    assert u * d == wx * f.ry - wy * f.rx;
    calc {
      (t * f.rx - u * f.sx) * d;
      f.rx * (t * d) - f.sx * (u * d);
      f.rx * (wx * f.sy - wy * f.sx) - f.sx * (wx * f.ry - wy * f.rx);
      wx * (f.rx * f.sy - f.ry * f.sx);
      wx * d;
    }
    calc {
      (t * f.ry - u * f.sy) * d;
      f.ry * (t * d) - f.sy * (u * d);
      f.ry * (wx * f.sy - wy * f.sx) - f.sy * (wx * f.ry - wy * f.rx);
      wy * (f.rx * f.sy - f.ry * f.sx);
      wy * d;
    }
    CancelFactor(t * f.rx - u * f.sx, wx, d);
    CancelFactor(t * f.ry - u * f.sy, wy, d);
  }

  lemma MeetingIsTheSolution(f: Frame, t: real, u: real)
    requires f.Denom() != 0.0 && Meets(f, t, u)
    ensures t == f.T() && u == f.U()
  {
    var d := f.Denom();
    var wx, wy := f.ax - f.px, f.ay - f.py;
    assert wx == t * f.rx - u * f.sx && wy == t * f.ry - u * f.sy;
    calc {
      wx * f.sy - wy * f.sx;
      (t * f.rx - u * f.sx) * f.sy - (t * f.ry - u * f.sy) * f.sx;
      t * (f.rx * f.sy - f.ry * f.sx);
      t * d;
    }
    calc {
      wx * f.ry - wy * f.rx;
      (t * f.rx - u * f.sx) * f.ry - (t * f.ry - u * f.sy) * f.rx;
      u * (f.rx * f.sy - f.ry * f.sx);
      u * d;
    }
    CancelFactor(t, f.T(), d);
    CancelFactor(u, f.U(), d);
  }

  predicate InBoth(t: real, u: real) {
    0.0 <= t <= 1.0 && 0.0 <= u <= 1.0
  }

  lemma MeetsAtSolution(f: Frame)
    requires f.Denom() != 0.0
    ensures (exists t, u :: Meets(f, t, u)) <==> InBoth(f.T(), f.U())
    ensures InBoth(f.T(), f.U()) ==> Meets(f, f.T(), f.U())
  {
    SolutionMeets(f);
    if InBoth(f.T(), f.U()) {
      assert Meets(f, f.T(), f.U());
    }
    if t, u :| Meets(f, t, u) {
      MeetingIsTheSolution(f, t, u);
    }
  }

  /** **A crossing is found exactly when the hop is bridgeable, not parallel to the gate, runs in the
      required direction, and the two segments have a point in common**; that point is the one given. */
  lemma CrossingIsMeeting(prev: Fix, cur: Fix, g: ProjectedGate, required: int)
    ensures FindGateCrossing(prev, cur, g, required).Some? <==>
              && Bridgeable(prev, cur)
              && var f := FrameOf(prev, cur, g);
                 && !(-PARALLEL < f.Denom() < PARALLEL)
                 && (required == 0 || required == if f.Denom() > 0.0 then 1 else -1)
                 && exists t, u :: Meets(f, t, u)
    ensures FindGateCrossing(prev, cur, g, required).Some? ==>
              var c := FindGateCrossing(prev, cur, g, required).value;
              && Meets(FrameOf(prev, cur, g), c.t, FrameOf(prev, cur, g).U())
              && c.lat == Lerp(prev.lat.value, cur.lat.value, c.t) && c.lon == Lerp(prev.lon.value, cur.lon.value, c.t)
              && prev.timeMs <= c.crossMs == Lerp(prev.timeMs, cur.timeMs, c.t) <= cur.timeMs
              && (required != 0 ==> c.dirSign == required)
              && c.dirSign == (if FrameOf(prev, cur, g).Denom() > 0.0 then 1 else -1)
  {
    if Bridgeable(prev, cur) {
      var f := FrameOf(prev, cur, g);
      if !(-PARALLEL < f.Denom() < PARALLEL) {
        MeetsAtSolution(f);
        if InBoth(f.T(), f.U()) {
          LerpBounds(prev.timeMs, cur.timeMs, f.T());
        }
      }
    }
  }

  // ------------------------------------------------------------------------------------------
  // On the ground
  // ------------------------------------------------------------------------------------------

  /** A hop a crossing may be read from: both ends located, the car not seen standing still at the end, and no more
      than half a second long. */
  ghost predicate Driven(prev: Fix, cur: Fix) {
    && prev.lat != None && prev.lon != None && cur.lat != None && cur.lon != None
    && (cur.speedKmh != None ==> cur.speedKmh.value > 3.0)
    && prev.timeMs < cur.timeMs <= prev.timeMs + 500.0
  }

  /** The place `t` of the way along the hop is the place `u` of the way along the gate. */
  ghost predicate SamePlace(prev: Fix, cur: Fix, gate: Gate, t: real, u: real)
    requires Driven(prev, cur)
  {
    && 0.0 <= t <= 1.0 && 0.0 <= u <= 1.0
    && prev.lat.value + t * (cur.lat.value - prev.lat.value) == gate.lat1 + u * (gate.lat2 - gate.lat1)
    && prev.lon.value + t * (cur.lon.value - prev.lon.value) == gate.lon1 + u * (gate.lon2 - gate.lon1)
  }

  /** The area hop and gate span, in square metres: positive when the hop passes the gate from one side, negative
      from the other. */
  ghost function AreaM2(p: Plane, prev: Fix, cur: Fix, gate: Gate): real
    requires Driven(prev, cur)
  {
    var m := p.mLon((gate.lat1 + gate.lat2) / 2.0);
    (cur.lon.value - prev.lon.value) * m * ((gate.lat2 - gate.lat1) * 111132.0)
    - (cur.lat.value - prev.lat.value) * 111132.0 * ((gate.lon2 - gate.lon1) * m)
  }

  lemma DrivenIsBridgeable(prev: Fix, cur: Fix)
    ensures Bridgeable(prev, cur) <==> Driven(prev, cur)
  {}

  /** The frame of a projected gate measures differences of position. */
  lemma FrameIsDifferences(p: Plane, prev: Fix, cur: Fix, gate: Gate)
    requires Driven(prev, cur)
    ensures var f, m := FrameOf(prev, cur, ProjectGate(p, gate)), p.mLon((gate.lat1 + gate.lat2) / 2.0);
            && f.rx == (cur.lon.value - prev.lon.value) * m && f.ry == (cur.lat.value - prev.lat.value) * 111132.0
            && f.sx == (gate.lon2 - gate.lon1) * m && f.sy == (gate.lat2 - gate.lat1) * 111132.0
            && f.ax - f.px == (gate.lon1 - prev.lon.value) * m
            && f.ay - f.py == (gate.lat1 - prev.lat.value) * 111132.0
  {
    var g := ProjectGate(p, gate);
    ScaledDifference(cur.lon.value, prev.lon.value, g.midLon, g.mLon);
    ScaledDifference(cur.lat.value, prev.lat.value, g.midLat, METERS_PER_DEG_LAT);
    ScaledDifference(gate.lon2, gate.lon1, g.midLon, g.mLon);
    ScaledDifference(gate.lat2, gate.lat1, g.midLat, METERS_PER_DEG_LAT);
    ScaledDifference(gate.lon1, prev.lon.value, g.midLon, g.mLon);
    ScaledDifference(gate.lat1, prev.lat.value, g.midLat, METERS_PER_DEG_LAT);
  }

  lemma ScaledDifference(x: real, y: real, mid: real, m: real)
    ensures (x - mid) * m - (y - mid) * m == (x - y) * m
  {}

  /** One coordinate of the place on the hop is that of the place on the gate. */
  lemma SameCoordinate(a: real, r: real, x: real, s: real, t: real, u: real, m: real)
    requires m > 0.0
    ensures t * (r * m) == (x - a) * m + u * (s * m) <==> a + t * r == x + u * s
  {
    assert t * (r * m) - ((x - a) * m + u * (s * m)) == (a + t * r - (x + u * s)) * m;
    if a + t * r != x + u * s {
      if (a + t * r - (x + u * s)) * m == 0.0 {
        CancelFactor(a + t * r - (x + u * s), 0.0, m);
      }
    }
  }

  lemma MeetingOnTheGround(p: Plane, prev: Fix, cur: Fix, gate: Gate, t: real, u: real)
    requires Sound(p) && Driven(prev, cur)
    ensures Meets(FrameOf(prev, cur, ProjectGate(p, gate)), t, u) <==> SamePlace(prev, cur, gate, t, u)
  {
    var m := p.mLon((gate.lat1 + gate.lat2) / 2.0);
    FrameIsDifferences(p, prev, cur, gate);
    SameCoordinate(prev.lon.value, cur.lon.value - prev.lon.value, gate.lon1, gate.lon2 - gate.lon1, t, u, m);
    SameCoordinate(prev.lat.value, cur.lat.value - prev.lat.value, gate.lat1, gate.lat2 - gate.lat1, t, u, 111132.0);
  }

  lemma AreaIsDenom(p: Plane, prev: Fix, cur: Fix, gate: Gate)
    requires Driven(prev, cur)
    ensures FrameOf(prev, cur, ProjectGate(p, gate)).Denom() == AreaM2(p, prev, cur, gate)
  {
    FrameIsDifferences(p, prev, cur, gate);
  }

  lemma MeetSomewhere(p: Plane, prev: Fix, cur: Fix, gate: Gate)
    requires Sound(p) && Driven(prev, cur)
    ensures (exists t, u :: Meets(FrameOf(prev, cur, ProjectGate(p, gate)), t, u))
            <==> exists t, u :: SamePlace(prev, cur, gate, t, u)
  {
    forall t, u ensures Meets(FrameOf(prev, cur, ProjectGate(p, gate)), t, u) <==> SamePlace(prev, cur, gate, t, u) {
      MeetingOnTheGround(p, prev, cur, gate, t, u);
    }
  }

  /** The hop was driven in at most half a second, is not parallel to the gate, and has a place in common with it. */
  ghost predicate CrossesGate(p: Plane, prev: Fix, cur: Fix, gate: Gate) {
    && Driven(prev, cur) && !(-0.000000001 < AreaM2(p, prev, cur, gate) < 0.000000001)
    && exists t, u :: SamePlace(prev, cur, gate, t, u)
  }

  /** **A crossing is found exactly when the hop crosses the gate and passes it from the required side.** */
  lemma CrossedOnTheGround(p: Plane, prev: Fix, cur: Fix, gate: Gate, required: int)
    requires Sound(p)
    ensures FindGateCrossing(prev, cur, ProjectGate(p, gate), required).Some? <==>
              && CrossesGate(p, prev, cur, gate)
              && (required == 0 || required == (if AreaM2(p, prev, cur, gate) > 0.0 then 1 else -1))
  {
    DrivenIsBridgeable(prev, cur);
    CrossingIsMeeting(prev, cur, ProjectGate(p, gate), required);
    if Driven(prev, cur) {
      AreaIsDenom(p, prev, cur, gate);
      MeetSomewhere(p, prev, cur, gate);
    }
  }

  /** **It is that place**, at that share of the hop's way and time, and tells the side it was passed from. */
  lemma CrossingIsThere(p: Plane, prev: Fix, cur: Fix, gate: Gate, required: int) returns (u: real)
    requires Sound(p) && FindGateCrossing(prev, cur, ProjectGate(p, gate), required).Some?
    ensures var c := FindGateCrossing(prev, cur, ProjectGate(p, gate), required).value;
            && Driven(prev, cur) && SamePlace(prev, cur, gate, c.t, u)
            && c.lat == prev.lat.value + c.t * (cur.lat.value - prev.lat.value)
            && c.lon == prev.lon.value + c.t * (cur.lon.value - prev.lon.value)
            && c.crossMs == prev.timeMs + c.t * (cur.timeMs - prev.timeMs)
            && c.dirSign == (if AreaM2(p, prev, cur, gate) > 0.0 then 1 else -1)
  {
    var g := ProjectGate(p, gate);
    var c := FindGateCrossing(prev, cur, g, required).value;
    DrivenIsBridgeable(prev, cur);
    CrossingIsMeeting(prev, cur, g, required);
    AreaIsDenom(p, prev, cur, gate);
    u := FrameOf(prev, cur, g).U();
    MeetingOnTheGround(p, prev, cur, gate, c.t, u);
  }

  // ------------------------------------------------------------------------------------------
  // Places on a gate
  // ------------------------------------------------------------------------------------------

  /** A place on the gate's segment. */
  ghost predicate OnGate(g: ProjectedGate, lat: real, lon: real) {
    exists u :: OnGateAt(g, lat, lon, u)
  }

  ghost predicate OnGateAt(g: ProjectedGate, lat: real, lon: real, u: real) {
    && 0.0 <= u <= 1.0
    && X(g, lon) == g.aX + u * (g.bX - g.aX)
    && Y(g, lat) == g.aY + u * (g.bY - g.aY)
  }

  /** A place along a hop, in the gate's frame. */
  lemma AlongInFrame(prev: Fix, cur: Fix, g: ProjectedGate, t: real)
    requires prev.lat.Some? && prev.lon.Some? && cur.lat.Some? && cur.lon.Some?
    ensures var f := FrameOf(prev, cur, g);
            && X(g, Lerp(prev.lon.value, cur.lon.value, t)) == f.px + t * f.rx
            && Y(g, Lerp(prev.lat.value, cur.lat.value, t)) == f.py + t * f.ry
  {
    ScaleAlong(prev.lon.value, cur.lon.value, t, g.midLon, g.mLon);
    ScaleAlong(prev.lat.value, cur.lat.value, t, g.midLat, METERS_PER_DEG_LAT);
  }

  lemma ScaleAlong(a: real, b: real, t: real, mid: real, m: real)
    ensures (Lerp(a, b, t) - mid) * m == (a - mid) * m + t * ((b - mid) * m - (a - mid) * m)
  {}

  lemma MeetsOnce(f: Frame, t: real)
    requires f.Denom() != 0.0 && Meets(f, f.T(), f.U())
    ensures (exists u :: Meets(f, t, u)) <==> t == f.T()
  {
    if t == f.T() {
      assert Meets(f, t, f.U());
    }
    forall u | Meets(f, t, u) ensures t == f.T() {
      MeetingIsTheSolution(f, t, u);
    }
  }

  lemma OnGateIsMeeting(prev: Fix, cur: Fix, g: ProjectedGate, t: real)
    requires prev.lat.Some? && prev.lon.Some? && cur.lat.Some? && cur.lon.Some? && 0.0 <= t <= 1.0
    ensures OnGate(g, Lerp(prev.lat.value, cur.lat.value, t), Lerp(prev.lon.value, cur.lon.value, t))
            <==> exists u :: Meets(FrameOf(prev, cur, g), t, u)
  {
    AlongInFrame(prev, cur, g, t);
    var f := FrameOf(prev, cur, g);
    var lat, lon := Lerp(prev.lat.value, cur.lat.value, t), Lerp(prev.lon.value, cur.lon.value, t);
    forall u ensures OnGateAt(g, lat, lon, u) <==> Meets(f, t, u) {}
  }

  /** **A hop that crosses the gate is on it at one place only.** */
  lemma OnGateOnce(prev: Fix, cur: Fix, g: ProjectedGate, t: real)
    requires FindGateCrossing(prev, cur, g, 0).Some? && 0.0 <= t <= 1.0
    ensures OnGate(g, Lerp(prev.lat.value, cur.lat.value, t), Lerp(prev.lon.value, cur.lon.value, t))
            <==> t == FindGateCrossing(prev, cur, g, 0).value.t
  {
    CrossingIsMeeting(prev, cur, g, 0);
    var f := FrameOf(prev, cur, g);
    OnGateIsMeeting(prev, cur, g, t);
    MeetsOnce(f, t);
  }
}
