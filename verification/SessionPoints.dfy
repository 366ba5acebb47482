/** What the laps of a session are made of, on the ground. */
module SessionPoints {
  import opened SampleMath
  import opened Analysis
  import opened Geo
  import opened GateCrossing
  import opened LapDistance
  import opened LapSegmenter
  import opened LapRun

  ghost function FixAt(s: Sample): Fix { Fix(s.time as real, s.lat, s.lon, s.speedKmh) }

  /** Hop `h` of the fixes crosses the gate. */
  ghost predicate Crosses(p: Plane, fixes: seq<Sample>, gate: Gate, h: nat) {
    0 < h < |fixes| && CrossesGate(p, FixAt(fixes[h - 1]), FixAt(fixes[h]), gate)
  }

  /** **The segmenter sees a crossing exactly where the car crosses the gate on the ground**, and tells the side. */
  lemma CrossingsAreOnTheGround(c: Setup, fixes: seq<Sample>, gate: Gate, h: nat)
    requires Sound(c.plane) && c.gate == ProjectGate(c.plane, gate)
    ensures CrossingAt(c, fixes, h).Some? <==> Crosses(c.plane, fixes, gate, h)
    ensures CrossingAt(c, fixes, h).Some? ==>
              CrossingAt(c, fixes, h).value.dirSign
              == if AreaM2(c.plane, FixAt(fixes[h - 1]), FixAt(fixes[h]), gate) > 0.0 then 1 else -1
  {
    if 0 < h < |fixes| {
      CrossedOnTheGround(c.plane, FixOfSample(fixes[h - 1]), FixOfSample(fixes[h]), gate, 0);
      if CrossingAt(c, fixes, h).Some? {
        var u := CrossingIsThere(c.plane, FixOfSample(fixes[h - 1]), FixOfSample(fixes[h]), gate, 0);
      }
    }
  }

  /** The hop from `a` to `b` meets the gate at this time. */
  ghost predicate MeetsGateAt(a: Sample, b: Sample, gate: Gate, atMs: real)
    requires Driven(FixAt(a), FixAt(b))
  {
    exists t, u :: SamePlace(FixAt(a), FixAt(b), gate, t, u) && atMs == Lerp(a.time as real, b.time as real, t)
  }

  /** As far between the two in everything as in time. */
  ghost predicate IsAlong(a: Sample, b: Sample, point: LapPoint) {
    var from, at, to := a.time as real, point.timeMs, b.time as real;
    && ChannelBetween(a.lat, Some(point.lat), b.lat, from, at, to)
    && ChannelBetween(a.lon, Some(point.lon), b.lon, from, at, to)
    && ChannelBetween(a.speedKmh, point.speedKmh, b.speedKmh, from, at, to)
    && ChannelBetween(a.gLon, point.gLon, b.gLon, from, at, to)
  }

  ghost predicate IsOnLine(a: Sample, b: Sample, gate: Gate, point: LapPoint) {
    Driven(FixAt(a), FixAt(b)) && MeetsGateAt(a, b, gate, point.timeMs) && IsAlong(a, b, point)
  }

  ghost predicate IsFix(s: Sample, point: LapPoint) {
    && s.lat == Some(point.lat) && s.lon == Some(point.lon) && point.timeMs == s.time as real
    && point.speedKmh == s.speedKmh && point.gLon == s.gLon
  }

  lemma AnchorIsAlong(a: Sample, b: Sample, c: Crossing, point: LapPoint)
    requires IsPositioned(a) && IsPositioned(b) && point.(distM := 0.0) == Anchor(a, b, c)
    requires c.crossMs == Lerp(a.time as real, b.time as real, c.t)
    requires c.lat == Lerp(a.lat.value, b.lat.value, c.t) && c.lon == Lerp(a.lon.value, b.lon.value, c.t)
    ensures IsAlong(a, b, point)
  {
    var from, at, to, t := a.time as real, point.timeMs, b.time as real, c.t;
    LerpIsProportional(from, at, to, a.lat.value, b.lat.value, t);
    LerpIsProportional(from, at, to, a.lon.value, b.lon.value, t);
    ChannelIsBetween(a.speedKmh, point.speedKmh, b.speedKmh, from, at, to, t);
    ChannelIsBetween(a.gLon, point.gLon, b.gLon, from, at, to, t);
  }

  lemma AnchorIsOnLine(c: Setup, fixes: seq<Sample>, gate: Gate, h: nat, point: LapPoint)
    requires Sound(c.plane) && c.gate == ProjectGate(c.plane, gate) && 0 < h < |fixes| && CrossingAt(c, fixes, h).Some?
    requires point.(distM := 0.0) == AnchorAt(fixes, Crossings(c, fixes), h)
    ensures IsOnLine(fixes[h - 1], fixes[h], gate, point)
  {
    var a, b, crossing := fixes[h - 1], fixes[h], CrossingAt(c, fixes, h).value;
    var u := CrossingIsThere(c.plane, FixOfSample(a), FixOfSample(b), gate, 0);
    assert SamePlace(FixAt(a), FixAt(b), gate, crossing.t, u);
    AnchorIsAlong(a, b, crossing, point);
  }

  /** The points of a lap from hop `from` to hop `to`. */
  ghost predicate PointsAre(p: Plane, fixes: seq<Sample>, gate: Gate, from: nat, to: nat, points: seq<LapPoint>)
    requires 0 < from < to < |fixes|
  {
    && |points| == to - from + 2
    && IsOnLine(fixes[from - 1], fixes[from], gate, points[0])
    && IsOnLine(fixes[to - 1], fixes[to], gate, points[|points| - 1])
    && (forall i :: 0 < i <= to - from ==> IsFix(fixes[from + i - 1], points[i]))
    && Measured(p, points, points)
  }

  lemma AxisKeepsAllElse(p: Plane, raw: seq<LapPoint>) returns (points: seq<LapPoint>)
    requires Sound(p)
    ensures points == Axis(p, raw) && Measured(p, points, points)
    ensures forall i :: 0 <= i < |raw| ==> points[i] == raw[i].(distM := points[i].distM)
  {
    points := Axis(p, raw);
    AxisIsMeasured(p, raw);
    forall i | 0 <= i < |points|
      ensures MeasuredAt(p, points, points, i) && points[i] == raw[i].(distM := points[i].distM)
    {
      assert MeasuredAt(p, raw, points, i);
      assert i > 0 ==> MeasuredAt(p, raw, points, i - 1);
    }
  }

  lemma LapPointsAre(c: Setup, fixes: seq<Sample>, gate: Gate, from: nat, to: nat)
    requires Sound(c.plane) && c.gate == ProjectGate(c.plane, gate) && AllPositioned(fixes)
    requires 0 < from < to < |fixes| && CrossingAt(c, fixes, from).Some? && CrossingAt(c, fixes, to).Some?
    ensures PointsAre(c.plane, fixes, gate, from, to, LapPoints(c.plane, fixes, Crossings(c, fixes), from, to))
  {
    var cs := Crossings(c, fixes);
    RawLap(c, fixes, from, to);
    var points := AxisKeepsAllElse(c.plane, Stretch(fixes, cs, from, to) + [AnchorAt(fixes, cs, to)]);
    AnchorIsOnLine(c, fixes, gate, from, points[0]);
    AnchorIsOnLine(c, fixes, gate, to, points[|points| - 1]);
  }

  /** **Every lap of a session opens and closes where its two counted hops meet the gate, and in between has exactly
      the fixes from one to the other**, each a step further along than the one before. */
  lemma LapsAreOnTheGround(c: Setup, samples: seq<Sample>, gate: Gate, k: nat) returns (from: nat, to: nat)
    requires Sound(c.plane) && c.gate == ProjectGate(c.plane, gate) && 0 < k <= |Run(c, samples).laps|
    ensures var fixes := Located(samples);
            var hops := Hops(c, fixes, |fixes|);
            && k < |hops| && from == hops[k - 1] && to == hops[k] && 0 < from < to < |fixes|
            && Crosses(c.plane, fixes, gate, from) && Crosses(c.plane, fixes, gate, to)
            && PointsAre(c.plane, fixes, gate, from, to, Run(c, samples).laps[k - 1].points)
  {
    var fixes := Located(samples);
    from, to := LapInSession(c, samples, k);
    CrossingsAreOnTheGround(c, fixes, gate, from);
    CrossingsAreOnTheGround(c, fixes, gate, to);
    LapPointsAre(c, fixes, gate, from, to);
  }
}
