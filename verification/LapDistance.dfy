/** `lap-distance.ts`: the one distance axis of a lap. */
module LapDistance {
  import opened SampleMath
  import opened Analysis
  import opened Geo

  /** Metres between two points: from their speeds when both are known and time advances, else from
      their positions. */
  function StepM(p: Plane, from: LapPoint, to: LapPoint): real {
    var dtS := (to.timeMs - from.timeMs) / 1000.0;
    if from.speedKmh.Some? && to.speedKmh.Some? && dtS > 0.0 then
      ((from.speedKmh.value + to.speedKmh.value) / 2.0) * 1000.0 * dtS / 3600.0
    else
      DistanceM(p, from.lat, from.lon, to.lat, to.lon)
  }

  /** `d` metres are a step: with both speeds and time passing the mean speed for that long, in km/h and
      milliseconds, and else the straight line. */
  ghost predicate IsStep(p: Plane, from: LapPoint, to: LapPoint, d: real) {
    if from.speedKmh.Some? && to.speedKmh.Some? && from.timeMs < to.timeMs then
      7200.0 * d == (from.speedKmh.value + to.speedKmh.value) * (to.timeMs - from.timeMs)
    else
      var east, north := (to.lon - from.lon) * p.mLon((from.lat + to.lat) / 2.0), (to.lat - from.lat) * 111132.0;
      d >= 0.0 && d * d == east * east + north * north
  }

  lemma StepIs(p: Plane, from: LapPoint, to: LapPoint)
    requires Sound(p)
    ensures IsStep(p, from, to, StepM(p, from, to))
  {
    if from.speedKmh.Some? && to.speedKmh.Some? && from.timeMs < to.timeMs {
      StepBySpeed(p, from, to, to.timeMs - from.timeMs);
      SpeedStepIs(from.speedKmh.value, to.speedKmh.value, to.timeMs - from.timeMs);
    } else {
      DistanceIsPythagorean(p, from.lat, from.lon, to.lat, to.lon);
    }
  }

  lemma SpeedStepIs(v: real, w: real, dtMs: real)
    ensures 7200.0 * SpeedStepM(v, w, dtMs) == (v + w) * dtMs
  {
    assert SpeedStepM(v, w, dtMs) == (v + w) * dtMs / 7200.0;
  }

  /** Point `i` of an axis is the given one, a step further than the one before. */
  ghost predicate MeasuredAt(p: Plane, points: seq<LapPoint>, axis: seq<LapPoint>, i: nat)
    requires i < |points| == |axis|
  {
    && axis[i] == points[i].(distM := axis[i].distM)
    && (if i == 0 then axis[0].distM == 0.0
        else IsStep(p, points[i - 1], points[i], axis[i].distM - axis[i - 1].distM))
  }

  ghost predicate Measured(p: Plane, points: seq<LapPoint>, axis: seq<LapPoint>) {
    && |axis| == |points|
    && forall i {:trigger MeasuredAt(p, points, axis, i)} :: 0 <= i < |points| ==> MeasuredAt(p, points, axis, i)
  }

  /** **The axis starts at 0 and each point is one step further than the one before**, with all else as it was. */
  lemma {:induction false} AxisIsMeasured(p: Plane, points: seq<LapPoint>)
    requires Sound(p)
    ensures Measured(p, points, Axis(p, points))
  {
    if points != [] {
      AxisIsMeasured(p, points[..|points| - 1]);
      AppendIsMeasured(p, points, Axis(p, points[..|points| - 1]));
    }
  }

  lemma AppendIsMeasured(p: Plane, points: seq<LapPoint>, axis: seq<LapPoint>)
    requires Sound(p) && points != [] && Measured(p, points[..|points| - 1], axis)
    ensures Measured(p, points, Append(p, axis, points[|points| - 1]))
  {
    var n, r := |points| - 1, Append(p, axis, points[|points| - 1]);
    forall i | 0 <= i < |points| ensures MeasuredAt(p, points, r, i) {
      if i < n {
        assert MeasuredAt(p, points[..n], axis, i);
      } else if n > 0 {
        assert MeasuredAt(p, points[..n], axis, n - 1);
        StepIs(p, axis[n - 1], points[n]);
      }
    }
  }

  ghost predicate NonNegativeSpeed(speedKmh: Option<real>) {
    speedKmh.Some? ==> speedKmh.value >= 0.0
  }

  lemma StepIsNonNegative(p: Plane, from: LapPoint, to: LapPoint)
    requires Sound(p) && NonNegativeSpeed(from.speedKmh) && NonNegativeSpeed(to.speedKmh)
    ensures StepM(p, from, to) >= 0.0
  {
    var dtS := (to.timeMs - from.timeMs) / 1000.0;
    if from.speedKmh.Some? && to.speedKmh.Some? && dtS > 0.0 {
      MulNonNegative((from.speedKmh.value + to.speedKmh.value) / 2.0 * 1000.0, dtS);
    }
  }

  function SpeedStepM(v: real, w: real, dtMs: real): real {
    ((v + w) / 2.0) * 1000.0 * (dtMs / 1000.0) / 3600.0
  }

  lemma SpeedStepSplits(v: real, w: real, dtMs: real, t: real)
    ensures var u := Lerp(v, w, t);
            SpeedStepM(v, u, t * dtMs) + SpeedStepM(u, w, dtMs - t * dtMs) == SpeedStepM(v, w, dtMs)
  {
    var u := Lerp(v, w, t);
    calc {
      (v + u) * (t * dtMs) + (u + w) * (dtMs - t * dtMs);
      dtMs * (t * v + u + w - t * w);
      dtMs * (v + w);
    }
    assert SpeedStepM(v, u, t * dtMs) == (v + u) * (t * dtMs) / 7200.0;
    assert SpeedStepM(u, w, dtMs - t * dtMs) == (u + w) * (dtMs - t * dtMs) / 7200.0;
    assert SpeedStepM(v, w, dtMs) == dtMs * (v + w) / 7200.0;
  }

  /** **A point put in on the way costs no distance**: with the speed interpolated like the time, the two
      steps through it add up to the step they replace. An anchor on the line leaves the axis as it was. */
  lemma AnchorKeepsDistance(p: Plane, a: LapPoint, m: LapPoint, b: LapPoint, t: real)
    requires a.speedKmh.Some? && b.speedKmh.Some? && a.timeMs < m.timeMs < b.timeMs
    requires m.timeMs == Lerp(a.timeMs, b.timeMs, t) && m.speedKmh == Some(Lerp(a.speedKmh.value, b.speedKmh.value, t))
    ensures StepM(p, a, m) + StepM(p, m, b) == StepM(p, a, b)
  {
    var dtMs := b.timeMs - a.timeMs;
    SpeedStepSplits(a.speedKmh.value, b.speedKmh.value, dtMs, t);
    StepBySpeed(p, a, m, t * dtMs);
    StepBySpeed(p, m, b, dtMs - t * dtMs);
    StepBySpeed(p, a, b, dtMs);
  }

  lemma StepBySpeed(p: Plane, from: LapPoint, to: LapPoint, dtMs: real)
    requires from.speedKmh.Some? && to.speedKmh.Some? && dtMs == to.timeMs - from.timeMs > 0.0
    ensures StepM(p, from, to) == SpeedStepM(from.speedKmh.value, to.speedKmh.value, dtMs)
  {}

  /** `points` with the distances of its axis: 0 at the first point, each further one a step on. */
  ghost predicate OnAxis(p: Plane, points: seq<LapPoint>) {
    && (points != [] ==> points[0].distM == 0.0)
    && forall i :: 0 < i < |points| ==> points[i].distM == points[i - 1].distM + StepM(p, points[i - 1], points[i])
  }

  /** Appends a point one step after the last; the first point is at 0. */
  function Append(p: Plane, points: seq<LapPoint>, point: LapPoint): seq<LapPoint> {
    if points == [] then [point.(distM := 0.0)]
    else points + [point.(distM := points[|points| - 1].distM + StepM(p, points[|points| - 1], point))]
  }

  lemma AppendOnAxis(p: Plane, points: seq<LapPoint>, point: LapPoint)
    requires OnAxis(p, points)
    ensures OnAxis(p, Append(p, points, point))
  {}

  /** The axis of a list of points, whatever distances they came with. */
  function Axis(p: Plane, points: seq<LapPoint>): (r: seq<LapPoint>)
    ensures |r| == |points|
  {
    if points == [] then [] else
      var n := |points| - 1;
      Append(p, Axis(p, points[..n]), points[n])
  }

  /** The axis never goes back while speeds are not negative. */
  lemma {:induction false} AxisAscends(p: Plane, points: seq<LapPoint>)
    requires Sound(p) && OnAxis(p, points) && forall i :: 0 <= i < |points| ==> NonNegativeSpeed(points[i].speedKmh)
    ensures DistancesAscend(points)
  {
    if |points| > 1 {
      var n := |points| - 1;
      AxisAscends(p, points[..n]);
      StepIsNonNegative(p, points[n - 1], points[n]);
      forall i | 0 <= i < n ensures points[i].distM <= points[n].distM {
        assert points[..n][i].distM <= points[..n][n - 1].distM;
      }
      forall i, j | 0 <= i <= j < |points| ensures points[i].distM <= points[j].distM {
        if j < n {
          assert points[..n][i].distM <= points[..n][j].distM;
        }
      }
    }
  }

  function PointOfSample(s: Sample): LapPoint
    requires IsPositioned(s)
  {
    LapPoint(s.time as real, s.lat.value, s.lon.value, 0.0, s.speedKmh, s.gLon)
  }

  function Located(samples: seq<Sample>): (r: seq<Sample>)
    ensures forall i :: 0 <= i < |r| ==> IsPositioned(r[i])
  {
    if samples == [] then [] else
      var n := |samples| - 1;
      Located(samples[..n]) + (if IsPositioned(samples[n]) then [samples[n]] else [])
  }

  /** **Exactly the samples with a position, in their order.** */
  lemma {:induction false} LocatedAre(samples: seq<Sample>) returns (at: seq<nat>)
    ensures |at| == |Located(samples)|
    ensures forall k :: 0 <= k < |at| ==> at[k] < |samples| && Located(samples)[k] == samples[at[k]]
    ensures forall k, l :: 0 <= k < l < |at| ==> at[k] < at[l]
    ensures forall i :: 0 <= i < |samples| ==> (i in at <==> samples[i].lat != None && samples[i].lon != None)
  {
    at := [];
    if samples != [] {
      var n := |samples| - 1;
      var front := LocatedAre(samples[..n]);
      at := front + (if IsPositioned(samples[n]) then [n] else []);
      forall i | 0 <= i < |samples| ensures i in at <==> samples[i].lat != None && samples[i].lon != None {
        if i < n {
          assert samples[..n][i] == samples[i];
          assert i in at <==> i in front;
        } else {
          assert n in at <==> IsPositioned(samples[n]);
        }
      }
    }
  }

  function PointsOf(located: seq<Sample>): (r: seq<LapPoint>)
    requires forall i :: 0 <= i < |located| ==> IsPositioned(located[i])
    ensures |r| == |located| && forall i :: 0 <= i < |r| ==> r[i] == PointOfSample(located[i])
  {
    seq(|located|, i requires 0 <= i < |located| => PointOfSample(located[i]))
  }

  lemma {:induction false} AxisMore(p: Plane, points: seq<LapPoint>, point: LapPoint)
    ensures Axis(p, points + [point]) == Append(p, Axis(p, points), point)
  {
    assert (points + [point])[..|points|] == points;
  }

  lemma LocatedMore(samples: seq<Sample>, i: nat)
    requires i < |samples|
    ensures Located(samples[..i + 1])
            == if IsPositioned(samples[i]) then Located(samples[..i]) + [samples[i]] else Located(samples[..i])
  {
    assert samples[..i + 1][..i] == samples[..i];
  }

  lemma {:induction false} ToLapPointsNext(p: Plane, samples: seq<Sample>, i: nat)
    requires i < |samples|
    ensures var points := Axis(p, PointsOf(Located(samples[..i])));
            Axis(p, PointsOf(Located(samples[..i + 1])))
            == if IsPositioned(samples[i]) then Append(p, points, PointOfSample(samples[i])) else points
  {
    LocatedMore(samples, i);
    if IsPositioned(samples[i]) {
      var located := Located(samples[..i]);
      assert PointsOf(located + [samples[i]]) == PointsOf(located) + [PointOfSample(samples[i])];
      AxisMore(p, PointsOf(located), PointOfSample(samples[i]));
    }
  }

  /** The distance-indexed points of the located samples. */
  method ToLapPoints(p: Plane, samples: seq<Sample>) returns (points: seq<LapPoint>)
    ensures points == Axis(p, PointsOf(Located(samples)))
  {
    points := [];
    for i := 0 to |samples|
      invariant points == Axis(p, PointsOf(Located(samples[..i])))
    {
      ToLapPointsNext(p, samples, i);
      if IsPositioned(samples[i]) {
        points := Append(p, points, PointOfSample(samples[i]));
      }
    }
    assert samples[..|samples|] == samples;
  }
}
