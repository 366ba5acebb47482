/** `buildLapTrace` of `lap-trace.ts`: a lap's racing line rebuilt from the stored samples around it. */
module LapTrace {
  import opened SampleMath
  import opened Analysis
  import opened Geo
  import opened LapDistance
  import opened Decimation

  /** The sample `t` of the way between two fixes, stamped `atMs`. */
  function Between(a: Sample, b: Sample, atMs: int, t: real): Sample
    requires IsPositioned(a) && IsPositioned(b)
  {
    Sample(atMs, Some(Lerp(a.lat.value, b.lat.value, t)), Some(Lerp(a.lon.value, b.lon.value, t)),
           LerpChannel(a.speedKmh, b.speedKmh, t), LerpChannel(a.rpm, b.rpm, t), LerpChannel(a.coolantC, b.coolantC, t),
           LerpChannel(a.oilC, b.oilC, t), LerpChannel(a.gLat, b.gLat, t), LerpChannel(a.gLon, b.gLon, t))
  }

  /** At either end of the hop a synthesized fix is the fix there, with every channel both ends have. */
  lemma BetweenEnds(a: Sample, b: Sample, atMs: int, t: real)
    requires IsPositioned(a) && IsPositioned(b) && (t == 0.0 || t == 1.0)
    ensures var r, at, other := Between(a, b, atMs, t), if t == 0.0 then a else b, if t == 0.0 then b else a;
            && r.time == atMs && r.lat == at.lat && r.lon == at.lon
            && Carries(r.speedKmh, other.speedKmh, at.speedKmh) && Carries(r.rpm, other.rpm, at.rpm)
            && Carries(r.coolantC, other.coolantC, at.coolantC) && Carries(r.oilC, other.oilC, at.oilC)
            && Carries(r.gLat, other.gLat, at.gLat) && Carries(r.gLon, other.gLon, at.gLon)
  {
    LerpEnds(a.lat.value, b.lat.value);
    LerpEnds(a.lon.value, b.lon.value);
    LerpChannelEnds(a.speedKmh, b.speedKmh);
    LerpChannelEnds(a.rpm, b.rpm);
    LerpChannelEnds(a.coolantC, b.coolantC);
    LerpChannelEnds(a.oilC, b.oilC);
    LerpChannelEnds(a.gLat, b.gLat);
    LerpChannelEnds(a.gLon, b.gLon);
  }

  /** The synthesized fix at `atMs`, looking at the pairs from position `i` on: none when a stored fix
      already sits there, or when nothing brackets it. */
  function InterpolateFrom(located: seq<Sample>, atMs: int, i: nat): (r: Option<Sample>)
    requires forall k :: 0 <= k < |located| ==> IsPositioned(located[k])
    ensures r.Some? ==> IsPositioned(r.value) && r.value.time == atMs
    decreases |located| - i
  {
    if i + 1 >= |located| then None else
      var a, b := located[i], located[i + 1];
      if a.time == atMs || b.time == atMs then None
      else if a.time > atMs || b.time < atMs then InterpolateFrom(located, atMs, i + 1)
      else Some(Between(a, b, atMs, (atMs - a.time) as real / (b.time - a.time) as real))
  }

  method InterpolateAt(located: seq<Sample>, atMs: int) returns (r: Option<Sample>)
    requires forall k :: 0 <= k < |located| ==> IsPositioned(located[k])
    ensures r == InterpolateFrom(located, atMs, 0)
  {
    var i := 0;
    while i + 1 < |located|
      invariant InterpolateFrom(located, atMs, 0) == InterpolateFrom(located, atMs, i)
    {
      var a, b := located[i], located[i + 1];
      if a.time == atMs || b.time == atMs {
        return None;
      }
      if !(a.time > atMs || b.time < atMs) {
        return Some(Between(a, b, atMs, (atMs - a.time) as real / (b.time - a.time) as real));
      }
      i := i + 1;
    }
    return None;
  }

  /** A fix as far between two in everything as in time. */
  ghost predicate IsBetween(a: Sample, r: Sample, b: Sample) {
    var from, at, to := a.time as real, r.time as real, b.time as real;
    && a.time < r.time < b.time && IsPositioned(r)
    && ChannelBetween(a.lat, r.lat, b.lat, from, at, to)
    && ChannelBetween(a.lon, r.lon, b.lon, from, at, to)
    && ChannelBetween(a.speedKmh, r.speedKmh, b.speedKmh, from, at, to)
    && ChannelBetween(a.rpm, r.rpm, b.rpm, from, at, to)
    && ChannelBetween(a.coolantC, r.coolantC, b.coolantC, from, at, to)
    && ChannelBetween(a.oilC, r.oilC, b.oilC, from, at, to)
    && ChannelBetween(a.gLat, r.gLat, b.gLat, from, at, to)
    && ChannelBetween(a.gLon, r.gLon, b.gLon, from, at, to)
  }

  lemma BetweenIsBetween(a: Sample, r: Sample, b: Sample, atMs: int)
    requires IsPositioned(a) && IsPositioned(b) && a.time < atMs < b.time
    requires r == Between(a, b, atMs, (atMs - a.time) as real / (b.time - a.time) as real)
    ensures IsBetween(a, r, b)
  {
    var from, at, to := a.time as real, atMs as real, b.time as real;
    var t := ShareOfTime(a.time, atMs, b.time);
    ChannelIsBetween(a.lat, r.lat, b.lat, from, at, to, t);
    ChannelIsBetween(a.lon, r.lon, b.lon, from, at, to, t);
    ChannelIsBetween(a.speedKmh, r.speedKmh, b.speedKmh, from, at, to, t);
    ChannelIsBetween(a.rpm, r.rpm, b.rpm, from, at, to, t);
    ChannelIsBetween(a.coolantC, r.coolantC, b.coolantC, from, at, to, t);
    ChannelIsBetween(a.oilC, r.oilC, b.oilC, from, at, to, t);
    ChannelIsBetween(a.gLat, r.gLat, b.gLat, from, at, to, t);
    ChannelIsBetween(a.gLon, r.gLon, b.gLon, from, at, to, t);
  }

  lemma ShareOfTime(from: int, at: int, to: int) returns (t: real)
    requires from < to
    ensures t == (at - from) as real / (to - from) as real
    ensures at as real - from as real == t * (to as real - from as real)
  {
    t := (at - from) as real / (to - from) as real;
    assert t * (to - from) as real == (at - from) as real;
  }

  /** The instant falls strictly between fix `i` and the next. */
  ghost predicate Brackets(located: seq<Sample>, atMs: int, i: nat) {
    i + 1 < |located| && located[i].time < atMs < located[i + 1].time
  }

  /** No fix of the pairs from `from` to `to` sits at the instant. */
  ghost predicate Untouched(located: seq<Sample>, atMs: int, from: nat, to: nat) {
    forall k :: from <= k <= to + 1 && k < |located| ==> located[k].time != atMs
  }

  /** **A fix is synthesized exactly when some pair brackets the instant before any fix sits at it**, in the first such
      pair, as far between them in everything as in time. */
  lemma {:induction false} SynthesizedExactly(located: seq<Sample>, atMs: int, from: nat) returns (i: nat)
    requires forall k :: 0 <= k < |located| ==> IsPositioned(located[k])
    ensures var r := InterpolateFrom(located, atMs, from);
            && (r.Some? ==> from <= i && Brackets(located, atMs, i) && Untouched(located, atMs, from, i)
                            && IsBetween(located[i], r.value, located[i + 1]) && r.value.time == atMs)
            && (r.None? ==> forall k :: from <= k && Brackets(located, atMs, k) ==> !Untouched(located, atMs, from, k))
    ensures forall k :: from <= k < i && InterpolateFrom(located, atMs, from).Some? ==> !Brackets(located, atMs, k)
    decreases |located| - from
  {
    i := from;
    if from + 1 < |located| {
      var a, b := located[from], located[from + 1];
      if a.time < atMs < b.time {
        BetweenIsBetween(a, InterpolateFrom(located, atMs, from).value, b, atMs);
      } else if a.time != atMs && b.time != atMs {
        i := SynthesizedExactly(located, atMs, from + 1);
        forall k | from <= k && Brackets(located, atMs, k) && Untouched(located, atMs, from, k)
          ensures InterpolateFrom(located, atMs, from).Some?
        {
          assert Untouched(located, atMs, from + 1, k);
        }
      } else {
        forall k | from <= k && Brackets(located, atMs, k) ensures !Untouched(located, atMs, from, k) {
          assert from + 1 < |located|;
        }
      }
    }
  }

  function Inside(located: seq<Sample>, startMs: int, endMs: int): (r: seq<Sample>)
    ensures forall s :: s in r <==> s in located && startMs <= s.time <= endMs
  {
    if located == [] then [] else
      var n := |located| - 1;
      assert located == located[..n] + [located[n]];
      Inside(located[..n], startMs, endMs) + (if startMs <= located[n].time <= endMs then [located[n]] else [])
  }

  function OrNothing(s: Option<Sample>): seq<Sample> {
    if s.Some? then [s.value] else []
  }

  /** The lap's fixes, with a synthesized one at each crossing. */
  function AnchorToLap(located: seq<Sample>, startMs: int, endMs: int): (r: seq<Sample>)
    requires forall k :: 0 <= k < |located| ==> IsPositioned(located[k])
    ensures forall k :: 0 <= k < |r| ==> IsPositioned(r[k])
  {
    var inside := Inside(located, startMs, endMs);
    assert forall k :: 0 <= k < |inside| ==> inside[k] in inside;
    OrNothing(InterpolateFrom(located, startMs, 0)) + inside + OrNothing(InterpolateFrom(located, endMs, 0))
  }

  function PointOf(s: Sample, distM: real, originMs: int): TracePoint
    requires IsPositioned(s)
  {
    TracePoint(distM, (s.time - originMs) as real, s.lat.value, s.lon.value, s.speedKmh, s.rpm, s.coolantC, s.oilC,
               s.gLat, s.gLon)
  }

  function TraceOf(p: Plane, located: seq<Sample>): (r: seq<TracePoint>)
    requires located != [] && forall k :: 0 <= k < |located| ==> IsPositioned(located[k])
    ensures |r| == |located|
  {
    PointsOnAxis(located, Axis(p, PointsOf(located)))
  }

  /** Each fix at its distance, with the time since the first. */
  function PointsOnAxis(located: seq<Sample>, axis: seq<LapPoint>): (r: seq<TracePoint>)
    requires located != [] && |axis| == |located| && forall k :: 0 <= k < |located| ==> IsPositioned(located[k])
    ensures |r| == |located|
  {
    seq(|located|, i requires 0 <= i < |located| => PointOf(located[i], axis[i].distM, located[0].time))
  }

  /** **A trace has its fixes' places and channels**, the time since the first, and the distance from
      one to the next. */
  lemma TraceIsMeasured(p: Plane, located: seq<Sample>, i: nat)
    requires Sound(p) && i < |located| && forall k :: 0 <= k < |located| ==> IsPositioned(located[k])
    ensures var r, s := TraceOf(p, located), located[i];
            && r[i] == TracePoint(r[i].distM, (s.time - located[0].time) as real, s.lat.value, s.lon.value, s.speedKmh,
                                  s.rpm, s.coolantC, s.oilC, s.gLat, s.gLon)
            && (if i == 0 then r[0].distM == 0.0
                else IsStep(p, PointOfSample(located[i - 1]), PointOfSample(s), r[i].distM - r[i - 1].distM))
  {
    AxisIsMeasured(p, PointsOf(located));
    assert MeasuredAt(p, PointsOf(located), Axis(p, PointsOf(located)), i);
  }

  function LapTraceOf(p: Plane, samples: seq<Sample>, maxPoints: int, startMs: int, endMs: int): seq<TracePoint> {
    var located := AnchorToLap(Located(samples), startMs, endMs);
    if located == [] then [] else Decimate(TraceOf(p, located), maxPoints)
  }

  method BuildLapTrace(p: Plane, samples: seq<Sample>, maxPoints: int, startMs: int, endMs: int)
    returns (r: seq<TracePoint>)
    ensures r == LapTraceOf(p, samples, maxPoints, startMs, endMs)
  {
    var fixes := Located(samples);
    var head := InterpolateAt(fixes, startMs);
    var tail := InterpolateAt(fixes, endMs);
    var located := OrNothing(head) + Inside(fixes, startMs, endMs) + OrNothing(tail);
    assert located == AnchorToLap(fixes, startMs, endMs);
    if located == [] {
      return [];
    }
    LocatedTwice(located);
    var axis := ToLapPoints(p, located);
    r := DecimateByDistance(PointsOnAxis(located, axis), maxPoints);
  }

  lemma {:induction false} LocatedTwice(located: seq<Sample>)
    requires forall k :: 0 <= k < |located| ==> IsPositioned(located[k])
    ensures Located(located) == located
  {
    if located != [] {
      LocatedTwice(located[..|located| - 1]);
      assert located == located[..|located| - 1] + [located[|located| - 1]];
    }
  }

  ghost predicate WholeElapsed(points: seq<TracePoint>) {
    forall q :: q in points ==> q.elapsedMs == q.elapsedMs.Floor as real
  }

  lemma TraceOfIsWhole(p: Plane, located: seq<Sample>)
    requires located != [] && forall k :: 0 <= k < |located| ==> IsPositioned(located[k])
    ensures WholeElapsed(TraceOf(p, located))
  {
    var points := TraceOf(p, located);
    forall q | q in points ensures q.elapsedMs == q.elapsedMs.Floor as real {
      var k :| 0 <= k < |points| && points[k] == q;
      WholeInt(located[k].time - located[0].time);
    }
  }

  lemma WholeInt(n: int)
    ensures (n as real).Floor == n
  {}

  /** Elapsed times are whole milliseconds: a stored or synthesized time is a `Date`. */
  lemma TraceIsWhole(p: Plane, samples: seq<Sample>, maxPoints: int, startMs: int, endMs: int)
    ensures WholeElapsed(LapTraceOf(p, samples, maxPoints, startMs, endMs))
  {
    var located := AnchorToLap(Located(samples), startMs, endMs);
    if located != [] {
      TraceOfIsWhole(p, located);
      DecimateKeepsOrder(TraceOf(p, located), maxPoints);
    }
  }

  // ------------------------------------------------------------------------------------------
  // The window of samples a trace is built from
  // ------------------------------------------------------------------------------------------

  /** `findLapWindow`: the samples of the lap plus the one either side of it. */
  function LapWindow(samples: seq<Sample>, startMs: int, endMs: int): seq<Sample> {
    LastBefore(samples, startMs) + Inside(samples, startMs, endMs) + FirstAfter(samples, endMs)
  }

  function LastBefore(samples: seq<Sample>, ms: int): seq<Sample> {
    if samples == [] then [] else
      var n := |samples| - 1;
      if samples[n].time < ms then [samples[n]] else LastBefore(samples[..n], ms)
  }

  function FirstAfter(samples: seq<Sample>, ms: int): seq<Sample> {
    if samples == [] then [] else
      if samples[0].time > ms then [samples[0]] else FirstAfter(samples[1..], ms)
  }

  ghost predicate StrictlyOrdered(samples: seq<Sample>) {
    forall i, j {:trigger Earlier(samples, i, j)} :: 0 <= i < j < |samples| ==> Earlier(samples, i, j)
  }

  ghost predicate Earlier(samples: seq<Sample>, i: nat, j: nat)
    requires i < j < |samples|
  {
    samples[i].time < samples[j].time
  }

  lemma OrderedSlice(samples: seq<Sample>, i: nat, j: nat)
    requires StrictlyOrdered(samples) && i <= j <= |samples|
    ensures StrictlyOrdered(samples[i..j])
  {
    forall k, l | 0 <= k < l < j - i ensures Earlier(samples[i..j], k, l) {
      assert Earlier(samples, i + k, i + l);
    }
  }

  lemma {:induction false} LastBeforeIs(samples: seq<Sample>, ms: int, k: nat)
    requires StrictlyOrdered(samples) && k < |samples| && samples[k].time < ms
    requires k + 1 < |samples| ==> samples[k + 1].time >= ms
    ensures LastBefore(samples, ms) == [samples[k]]
  {
    if k + 1 < |samples| {
      assert k + 1 < |samples| - 1 ==> Earlier(samples, k + 1, |samples| - 1);
      OrderedSlice(samples, 0, |samples| - 1);
      assert samples[0..|samples| - 1] == samples[..|samples| - 1];
      LastBeforeIs(samples[..|samples| - 1], ms, k);
    }
  }

  lemma {:induction false} FirstAfterIs(samples: seq<Sample>, ms: int, k: nat)
    requires StrictlyOrdered(samples) && k < |samples| && samples[k].time > ms
    requires k > 0 ==> samples[k - 1].time <= ms
    ensures FirstAfter(samples, ms) == [samples[k]]
  {
    if k > 0 {
      assert k > 1 ==> Earlier(samples, 0, k - 1);
      OrderedSlice(samples, 1, |samples|);
      assert samples[1..|samples|] == samples[1..];
      FirstAfterIs(samples[1..], ms, k - 1);
    }
  }

  lemma {:induction false} NothingBefore(samples: seq<Sample>, ms: int)
    requires forall i :: 0 <= i < |samples| ==> samples[i].time >= ms
    ensures LastBefore(samples, ms) == []
  {
    if samples != [] {
      NothingBefore(samples[..|samples| - 1], ms);
    }
  }

  lemma {:induction false} NothingAfter(samples: seq<Sample>, ms: int)
    requires forall i :: 0 <= i < |samples| ==> samples[i].time <= ms
    ensures FirstAfter(samples, ms) == []
  {
    if samples != [] {
      NothingAfter(samples[1..], ms);
    }
  }

  lemma {:induction false} InsideIs(samples: seq<Sample>, startMs: int, endMs: int, from: nat, to: nat)
    requires from <= to <= |samples|
    requires forall i :: 0 <= i < |samples| ==> (from <= i < to <==> startMs <= samples[i].time <= endMs)
    ensures Inside(samples, startMs, endMs) == samples[from..to]
  {
    if samples != [] {
      var n := |samples| - 1;
      var front := samples[..n];
      var from', to' := if from <= n then from else n, if to <= n then to else n;
      InsideIs(front, startMs, endMs, from', to');
      assert startMs <= samples[n].time <= endMs <==> from <= n < to;
      SliceLast(samples, from, to);
    }
  }

  lemma SliceLast(samples: seq<Sample>, from: nat, to: nat)
    requires from <= to <= |samples| && samples != []
    ensures var n := |samples| - 1;
            var from', to' := if from <= n then from else n, if to <= n then to else n;
            samples[from..to] == samples[..n][from'..to'] + (if from <= n < to then [samples[n]] else [])
  {}
}
