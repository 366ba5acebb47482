/** The traces of a time-ordered session: each is in order on both axes, which is what thinning, comparing
    and stitching them take for granted. */
module SessionTrace {
  import opened SampleMath
  import opened Analysis
  import opened Geo
  import opened LapDistance
  import opened LapSegmenter
  import opened LapRun
  import opened LapTrace
  import CompareLaps
  import Decimation
  import Core = OptimalLapCore
  import OptimalLap
  import opened Rebuild
  import Sectors
  import StitchedTrace
  import TraceLookup

  // ------------------------------------------------------------------------------------------
  // Parts of an ordered session
  // ------------------------------------------------------------------------------------------

  /** In time order, with no negative speed. */
  ghost predicate Driven(samples: seq<Sample>) {
    TimeOrdered(samples) && SpeedsNonNegative(samples)
  }

  /** Some of the samples in front of one, and perhaps that one. */
  lemma DrivenMore(some: seq<Sample>, samples: seq<Sample>, keep: bool)
    requires samples != [] && Driven(samples) && Driven(some)
    requires forall s :: s in some ==> s in samples[..|samples| - 1]
    ensures Driven(some + (if keep then [samples[|samples| - 1]] else []))
  {
    forall s | s in some ensures s.time <= samples[|samples| - 1].time {
      var i :| 0 <= i < |samples| - 1 && samples[i] == s;
    }
  }

  lemma DrivenFront(samples: seq<Sample>)
    requires samples != [] && Driven(samples)
    ensures Driven(samples[..|samples| - 1])
  {}

  lemma {:induction false} LocatedIsDriven(samples: seq<Sample>)
    requires Driven(samples)
    ensures Driven(Located(samples)) && forall s :: s in Located(samples) ==> s in samples
  {
    if samples != [] {
      DrivenFront(samples);
      LocatedIsDriven(samples[..|samples| - 1]);
      DrivenMore(Located(samples[..|samples| - 1]), samples, IsPositioned(samples[|samples| - 1]));
    }
  }

  lemma {:induction false} InsideIsDriven(samples: seq<Sample>, startMs: int, endMs: int)
    requires Driven(samples)
    ensures Driven(Inside(samples, startMs, endMs))
  {
    if samples != [] {
      var n := |samples| - 1;
      DrivenFront(samples);
      InsideIsDriven(samples[..n], startMs, endMs);
      DrivenMore(Inside(samples[..n], startMs, endMs), samples, startMs <= samples[n].time <= endMs);
    }
  }

  lemma {:induction false} LastBeforeOf(samples: seq<Sample>, ms: int)
    ensures |LastBefore(samples, ms)| <= 1
    ensures forall s :: s in LastBefore(samples, ms) ==> s in samples && s.time < ms
  {
    if samples != [] {
      LastBeforeOf(samples[..|samples| - 1], ms);
    }
  }

  lemma {:induction false} FirstAfterOf(samples: seq<Sample>, ms: int)
    ensures |FirstAfter(samples, ms)| <= 1
    ensures forall s :: s in FirstAfter(samples, ms) ==> s in samples && s.time > ms
  {
    if samples != [] {
      FirstAfterOf(samples[1..], ms);
    }
  }

  /** At most one sample before the bounds and one after, around samples inside them. */
  lemma DrivenAround(head: seq<Sample>, inside: seq<Sample>, tail: seq<Sample>, startMs: int, endMs: int)
    requires |head| <= 1 && Driven(inside) && |tail| <= 1 && startMs <= endMs
    requires forall s :: s in head ==> s.time <= startMs && NonNegativeSpeed(s.speedKmh)
    requires forall s :: s in inside ==> startMs <= s.time <= endMs
    requires forall s :: s in tail ==> endMs <= s.time && NonNegativeSpeed(s.speedKmh)
    ensures Driven(head + inside + tail)
  {
    var all, n := head + inside + tail, |head| + |inside|;
    forall i | 0 <= i < |all|
      ensures all[i] == if i < |head| then head[i] else if i < n then inside[i - |head|] else tail[i - n]
    {}
    assert forall i :: 0 <= i < |head| ==> head[i] in head;
    assert forall i :: 0 <= i < |inside| ==> inside[i] in inside;
    assert forall i :: 0 <= i < |tail| ==> tail[i] in tail;
  }

  lemma WindowIsDriven(samples: seq<Sample>, startMs: int, endMs: int)
    requires Driven(samples) && startMs <= endMs
    ensures Driven(LapWindow(samples, startMs, endMs))
  {
    LastBeforeOf(samples, startMs);
    InsideIsDriven(samples, startMs, endMs);
    FirstAfterOf(samples, endMs);
    DrivenAround(LastBefore(samples, startMs), Inside(samples, startMs, endMs), FirstAfter(samples, endMs), startMs,
                 endMs);
  }

  // ------------------------------------------------------------------------------------------
  // Every trace is in order
  // ------------------------------------------------------------------------------------------

  lemma LerpNonNegative(a: real, b: real, t: real)
    requires 0.0 <= a && 0.0 <= b && 0.0 <= t <= 1.0
    ensures 0.0 <= Lerp(a, b, t)
  {
    MulNonNegative(t, b);
    MulNonNegative(1.0 - t, a);
    assert Lerp(a, b, t) == (1.0 - t) * a + t * b;
  }

  /** A fix synthesized between two others has no negative speed if they have none. */
  lemma BetweenSpeed(a: Sample, b: Sample, atMs: int)
    requires IsPositioned(a) && IsPositioned(b) && a.time < atMs < b.time
    requires NonNegativeSpeed(a.speedKmh) && NonNegativeSpeed(b.speedKmh)
    ensures NonNegativeSpeed(Between(a, b, atMs, (atMs - a.time) as real / (b.time - a.time) as real).speedKmh)
  {
    var t := (atMs - a.time) as real / (b.time - a.time) as real;
    DivBounds((atMs - a.time) as real, (b.time - a.time) as real);
    if a.speedKmh.Some? && b.speedKmh.Some? {
      LerpNonNegative(a.speedKmh.value, b.speedKmh.value, t);
    }
  }

  lemma {:induction false} SynthesizedSpeed(located: seq<Sample>, atMs: int, i: nat)
    requires AllPositioned(located) && SpeedsNonNegative(located)
    ensures var r := InterpolateFrom(located, atMs, i); r.Some? ==> NonNegativeSpeed(r.value.speedKmh)
    decreases |located| - i
  {
    if i + 1 < |located| {
      var a, b := located[i], located[i + 1];
      if a.time < atMs < b.time {
        BetweenSpeed(a, b, atMs);
      } else {
        SynthesizedSpeed(located, atMs, i + 1);
      }
    }
  }

  lemma AnchoredIsDriven(located: seq<Sample>, startMs: int, endMs: int)
    requires AllPositioned(located) && Driven(located) && startMs <= endMs
    ensures Driven(AnchorToLap(located, startMs, endMs))
  {
    SynthesizedSpeed(located, startMs, 0);
    SynthesizedSpeed(located, endMs, 0);
    InsideIsDriven(located, startMs, endMs);
    DrivenAround(OrNothing(InterpolateFrom(located, startMs, 0)), Inside(located, startMs, endMs),
                 OrNothing(InterpolateFrom(located, endMs, 0)), startMs, endMs);
  }

  /** In order on both axes, from 0 on both. */
  ghost predicate Ordered(trace: seq<TracePoint>) {
    && TraceAscends(trace) && ElapsedAscends(trace)
    && (trace != [] ==> trace[0].distM == 0.0 && trace[0].elapsedMs == 0.0)
  }

  lemma MeasuredIsOrdered(p: Plane, located: seq<Sample>)
    requires Sound(p) && AllPositioned(located) && Driven(located) && located != []
    ensures Ordered(TraceOf(p, located))
  {
    var axis, trace := Axis(p, PointsOf(located)), TraceOf(p, located);
    AxisChangesOnlyDistances(p, PointsOf(located));
    forall i | 0 <= i < |axis| ensures NonNegativeSpeed(axis[i].speedKmh) {
      assert axis[i] == PointsOf(located)[i].(distM := axis[i].distM);
    }
    AxisAscends(p, axis);
    forall i, j | 0 <= i <= j < |trace| ensures trace[i].elapsedMs <= trace[j].elapsedMs {
      assert located[i].time <= located[j].time;
    }
  }

  /** **Every trace of a time-ordered session goes forward on both axes, from 0 on both**, whatever
      channels are missing and however far it is thinned. */
  lemma TraceIsOrdered(p: Plane, samples: seq<Sample>, maxPoints: int, startMs: int, endMs: int)
    requires Sound(p) && Driven(samples) && startMs <= endMs
    ensures Ordered(LapTraceOf(p, samples, maxPoints, startMs, endMs))
  {
    LocatedIsDriven(samples);
    AnchoredIsDriven(Located(samples), startMs, endMs);
    var located := AnchorToLap(Located(samples), startMs, endMs);
    if located != [] {
      MeasuredIsOrdered(p, located);
      Decimation.DecimateKeepsOrder(TraceOf(p, located), maxPoints);
    }
  }

  // ------------------------------------------------------------------------------------------
  // From a session to its optimal lap
  // ------------------------------------------------------------------------------------------

  /** A derived lap's bounds are in order and its splits not negative. */
  lemma LapIsUsable(c: Setup, samples: seq<Sample>, k: nat)
    requires Sound(c.plane) && Driven(samples) && 0 < k <= |Run(c, samples).laps|
    ensures var lap := Run(c, samples).laps[k - 1];
            lap.startedAt <= lap.endedAt && forall i :: 0 <= i < |lap.sectorMs| ==> lap.sectorMs[i] >= 0
  {
    LocatedIsDriven(samples);
    LapsAreSound(c, samples, k);
    LapSplitsAddUp(c, samples, k);
    var from, to := LapInSession(c, samples, k);
    var points := Run(c, samples).laps[k - 1].points;
    RoundMonotone(points[0].timeMs, points[|points| - 1].timeMs);
  }

  /** A derived lap as a stored row. */
  ghost function RowOf(lap: DerivedLap): OptimalLap.OptimalLapInput {
    OptimalLap.OptimalLapInput(
      Core.SectoredLap(lap.lapNumber, lap.lapMs, lap.distanceM as real,
                  seq(|lap.sectorMs|, i requires 0 <= i < |lap.sectorMs| => Some(lap.sectorMs[i]))),
      lap.brakingPoints)
  }

  ghost function Rows(laps: seq<DerivedLap>): (r: seq<OptimalLap.OptimalLapInput>)
    ensures |r| == |laps| && forall i :: 0 <= i < |r| ==> r[i] == RowOf(laps[i])
  {
    seq(|laps|, i requires 0 <= i < |laps| => RowOf(laps[i]))
  }

  /** A derived lap with its own splits and the trace rebuilt for it. */
  ghost function Contribution(p: Plane, samples: seq<Sample>, lap: DerivedLap, finest: int)
    : StitchedTrace.ContributingLap
  {
    StitchedTrace.ContributingLap(lap.sectorMs, TraceFor(p, samples, lap, finest))
  }

  ghost function Numbered(laps: seq<DerivedLap>, n: nat): DerivedLap
    requires 0 < n <= |laps|
  {
    laps[n - 1]
  }

  /** Every lap of the session, by its number. */
  ghost function Contributions(p: Plane, samples: seq<Sample>, laps: seq<DerivedLap>, finest: int)
    : map<int, StitchedTrace.ContributingLap>
  {
    map n: int | 0 < n <= |laps| :: Contribution(p, samples, Numbered(laps, n), finest)
  }

  lemma DerivedIsSliceable(c: Setup, samples: seq<Sample>, k: nat, finest: int, sectorCount: nat)
    requires Sound(c.plane) && Driven(samples) && 0 < k <= |Run(c, samples).laps|
    requires |TraceFor(c.plane, samples, Run(c, samples).laps[k - 1], finest)| >= 2
    ensures StitchedTrace.Sliceable(Contribution(c.plane, samples, Run(c, samples).laps[k - 1], finest), sectorCount)
  {
    var lap := Run(c, samples).laps[k - 1];
    LapIsUsable(c, samples, k);
    WindowIsDriven(samples, lap.startedAt, lap.endedAt);
    TraceIsOrdered(c.plane, LapWindow(samples, lap.startedAt, lap.endedAt), finest, lap.startedAt, lap.endedAt);
    var trace := TraceFor(c.plane, samples, lap, finest);
    forall i, j | 0 <= i <= j < |trace| ensures StitchedTrace.NotAfter(trace[i], trace[j]) {}
  }

  /** The plan of a session's laps. */
  ghost function PlanOf(laps: seq<DerivedLap>, sectorCount: nat): Option<Core.OptimalLapCore>
    requires sectorCount > 0
  {
    Core.Best(OptimalLap.Laps(Rows(laps)), sectorCount)
  }

  ghost predicate InSequence(laps: seq<DerivedLap>) {
    forall i :: 0 <= i < |laps| ==> laps[i].lapNumber == i + 1
  }

  /** The laps that set the sectors are the session's, under their own numbers. */
  lemma SectorsAreOfSession(laps: seq<DerivedLap>, sectorCount: nat) returns (core: Core.OptimalLapCore)
    requires sectorCount > 0 && InSequence(laps) && PlanOf(laps, sectorCount).Some?
    ensures core == PlanOf(laps, sectorCount).value && |core.sectors| == sectorCount
    ensures core.lapMs == Sectors.Sum(Core.SectorMs(core.sectors))
    ensures forall k :: 0 <= k < sectorCount ==>
              0 < core.sectors[k].lapNumber <= |laps| && core.sectors[k].sectorMs > 0
  {
    var rows := Rows(laps);
    core := PlanOf(laps, sectorCount).value;
    StitchedTrace.PlansAddUp(rows, sectorCount);
    forall k | 0 <= k < sectorCount ensures 0 < core.sectors[k].lapNumber <= |laps| {
      var w := Core.SectorsAreTrueMinima(OptimalLap.Laps(rows), sectorCount, k);
      var i :| 0 <= i < |rows| && OptimalLap.Laps(rows)[i] == w;
    }
  }

  ghost predicate SliceableIfReadable(lap: StitchedTrace.ContributingLap, sectorCount: nat) {
    |lap.points| >= 2 ==> StitchedTrace.Sliceable(lap, sectorCount)
  }

  /** A plan over laps that can be cut, once they can be read, stitches to a lap. */
  lemma PlanIsALap(core: Core.OptimalLapCore, laps: map<int, StitchedTrace.ContributingLap>, maxPoints: int)
    requires core.sectors != [] && StitchedTrace.Usable(core.sectors, laps)
    requires core.lapMs == Sectors.Sum(Core.SectorMs(core.sectors))
    requires forall k :: 0 <= k < |core.sectors| ==> core.sectors[k].sectorMs > 0
    requires forall n :: n in laps ==> SliceableIfReadable(laps[n], |core.sectors|)
    ensures IsALap(StitchedTrace.Stitched(core, laps, maxPoints), core)
  {
    forall k | 0 <= k < |core.sectors|
      ensures StitchedTrace.Sliceable(laps[core.sectors[k].lapNumber], |core.sectors|)
    {
      assert StitchedTrace.Readable(laps, core.sectors[k].lapNumber);
      assert SliceableIfReadable(laps[core.sectors[k].lapNumber], |core.sectors|);
    }
    StitchedTrace.StitchedIsALap(core, laps, maxPoints);
  }

  /** Neither axis goes back, and the time is exactly the plan's, the sum of its best sectors. */
  ghost predicate IsALap(r: seq<TracePoint>, core: Core.OptimalLapCore) {
    && r != [] && TraceAscends(r) && ElapsedAscends(r)
    && r[|r| - 1].elapsedMs == core.lapMs as real
    && core.lapMs == Sectors.Sum(Core.SectorMs(core.sectors))
  }

  lemma SessionNumbers(c: Setup, samples: seq<Sample>)
    requires Sound(c.plane) && Driven(samples)
    ensures InSequence(Run(c, samples).laps)
  {
    LocatedIsDriven(samples);
    forall i | 0 <= i < |Run(c, samples).laps| ensures Run(c, samples).laps[i].lapNumber == i + 1 {
      LapsAreSound(c, samples, i + 1);
    }
  }

  lemma SessionSlices(c: Setup, samples: seq<Sample>, finest: int, sectorCount: nat)
    returns (laps: map<int, StitchedTrace.ContributingLap>)
    requires Sound(c.plane) && Driven(samples)
    ensures laps == Contributions(c.plane, samples, Run(c, samples).laps, finest)
    ensures forall n :: n in laps ==> SliceableIfReadable(laps[n], sectorCount)
  {
    var derived := Run(c, samples).laps;
    laps := Contributions(c.plane, samples, derived, finest);
    forall n | n in laps ensures SliceableIfReadable(laps[n], sectorCount) {
      assert laps[n] == Contribution(c.plane, samples, Numbered(derived, n), finest);
      if |laps[n].points| >= 2 {
        DerivedIsSliceable(c, samples, n, finest, sectorCount);
      }
    }
  }

  /** A trace that lasts some time has two points. */
  lemma LastingIsReadable(trace: seq<TracePoint>, lap: DerivedLap)
    requires trace != [] && lap.points != [] && LastsTheLap(trace, lap) && lap.lapMs >= 3000
    ensures |trace| >= 2
  {}

  lemma LapIsReadable(c: Setup, samples: seq<Sample>, k: nat, finest: int)
    requires Sound(c.plane) && Driven(samples) && AllPositioned(samples) && StrictlyOrdered(samples)
    requires 0 < k <= |Run(c, samples).laps|
    ensures |TraceFor(c.plane, samples, Run(c, samples).laps[k - 1], finest)| >= 2
  {
    LocatedIsDriven(samples);
    LapsAreSound(c, samples, k);
    var lap, trace := TraceLastsTheLap(c, samples, k, finest);
    LastingIsReadable(trace, lap);
  }

  /** Where every sample has a position and a time of its own, every trace can be read. */
  lemma SessionReadable(c: Setup, samples: seq<Sample>, finest: int)
    returns (laps: map<int, StitchedTrace.ContributingLap>)
    requires Sound(c.plane) && Driven(samples) && AllPositioned(samples) && StrictlyOrdered(samples)
    ensures laps == Contributions(c.plane, samples, Run(c, samples).laps, finest)
    ensures forall n :: 0 < n <= |Run(c, samples).laps| ==> StitchedTrace.Readable(laps, n)
  {
    var derived := Run(c, samples).laps;
    laps := Contributions(c.plane, samples, derived, finest);
    forall n | 0 < n <= |derived| ensures StitchedTrace.Readable(laps, n) {
      assert laps[n] == Contribution(c.plane, samples, Numbered(derived, n), finest);
      LapIsReadable(c, samples, n, finest);
    }
  }

  /** **From a session to its optimal lap.** The best sectors of the laps the segmenter derived, cut from the
      traces rebuilt for them and stitched, are a lap if every trace needed can be read: neither axis goes
      back, and it lasts exactly the sum of the best sectors. */
  lemma OptimalOfSession(c: Setup, samples: seq<Sample>, sectorCount: nat, finest: int, maxPoints: int)
    returns (core: Core.OptimalLapCore, laps: map<int, StitchedTrace.ContributingLap>)
    requires Sound(c.plane) && Driven(samples) && sectorCount > 0 && PlanOf(Run(c, samples).laps, sectorCount).Some?
    ensures core == PlanOf(Run(c, samples).laps, sectorCount).value
    ensures laps == Contributions(c.plane, samples, Run(c, samples).laps, finest)
    ensures StitchedTrace.Usable(core.sectors, laps) ==> IsALap(StitchedTrace.Stitched(core, laps, maxPoints), core)
    ensures AllPositioned(samples) && StrictlyOrdered(samples) ==> StitchedTrace.Usable(core.sectors, laps)
  {
    SessionNumbers(c, samples);
    core := SectorsAreOfSession(Run(c, samples).laps, sectorCount);
    laps := SessionSlices(c, samples, finest, sectorCount);
    if StitchedTrace.Usable(core.sectors, laps) {
      PlanIsALap(core, laps, maxPoints);
    }
    if AllPositioned(samples) && StrictlyOrdered(samples) {
      var readable := SessionReadable(c, samples, finest);
      ReadableIsUsable(core.sectors, laps, |Run(c, samples).laps|);
    }
  }

  lemma ReadableIsUsable(sectors: seq<Core.BestSector>, laps: map<int, StitchedTrace.ContributingLap>, count: nat)
    requires forall n :: 0 < n <= count ==> StitchedTrace.Readable(laps, n)
    requires forall k :: 0 <= k < |sectors| ==> 0 < sectors[k].lapNumber <= count
    ensures StitchedTrace.Usable(sectors, laps)
  {}

  // ------------------------------------------------------------------------------------------
  // Traces on which two readings differ
  // ------------------------------------------------------------------------------------------

  /** Between two stored fixes a window is the trace as it is. */
  lemma StoredToStored(p: Plane, samples: seq<Sample>, maxPoints: int) returns (r: seq<TracePoint>)
    requires samples != [] && AllPositioned(samples) && StrictlyOrdered(samples)
    ensures r == LapTraceOf(p, samples, maxPoints, samples[0].time, samples[|samples| - 1].time)
    ensures r == Decimation.Decimate(TraceOf(p, samples), maxPoints)
  {
    var startMs, endMs := samples[0].time, samples[|samples| - 1].time;
    LocatedTwice(samples);
    AllBetween(samples, startMs, endMs);
    NothingSynthesized(samples, startMs, endMs);
    r := LapTraceOf(p, samples, maxPoints, startMs, endMs);
  }

  lemma {:induction false} AllBetween(samples: seq<Sample>, startMs: int, endMs: int)
    requires samples != [] && StrictlyOrdered(samples)
    requires startMs == samples[0].time && endMs == samples[|samples| - 1].time
    ensures Inside(samples, startMs, endMs) == samples
  {
    var n := |samples| - 1;
    forall i | 0 <= i < |samples| ensures startMs <= samples[i].time <= endMs {
      assert i > 0 ==> Earlier(samples, 0, i);
      assert i < n ==> Earlier(samples, i, n);
    }
    InsideIs(samples, startMs, endMs, 0, |samples|);
  }

  lemma {:induction false} NothingSynthesized(samples: seq<Sample>, startMs: int, endMs: int)
    requires samples != [] && AllPositioned(samples) && StrictlyOrdered(samples)
    requires startMs == samples[0].time && endMs == samples[|samples| - 1].time
    ensures AnchorToLap(samples, startMs, endMs) == Inside(samples, startMs, endMs)
  {
    StoredIsEnough(samples, startMs, 0, 0);
    StoredIsEnough(samples, endMs, 0, |samples| - 1);
  }

  /** A fix on a straight, with its speed. */
  function FixAt(timeMs: int, lat: real, speedKmh: real): Sample {
    Sample(timeMs, Some(lat), Some(0.0), Some(speedKmh), None, None, None, None, None)
  }

  lemma MeasuredTwo(p: Plane, a: Sample, b: Sample)
    requires IsPositioned(a) && IsPositioned(b)
    ensures TraceOf(p, [a, b])
            == [PointOf(a, 0.0, a.time), PointOf(b, StepM(p, PointOfSample(a), PointOfSample(b)), a.time)]
  {
    AxisChangesOnlyDistances(p, PointsOf([a, b]));
    var axis := Axis(p, PointsOf([a, b]));
    assert |axis| == 2 && axis[1].distM == axis[0].distM + StepM(p, axis[0], axis[1]);
    StepIgnoresDistances(p, axis[0], axis[1]);
  }

  lemma MeasuredThree(p: Plane, a: Sample, b: Sample, c: Sample)
    requires IsPositioned(a) && IsPositioned(b) && IsPositioned(c)
    ensures var toB := StepM(p, PointOfSample(a), PointOfSample(b));
            TraceOf(p, [a, b, c])
            == [PointOf(a, 0.0, a.time), PointOf(b, toB, a.time),
                PointOf(c, toB + StepM(p, PointOfSample(b), PointOfSample(c)), a.time)]
  {
    AxisChangesOnlyDistances(p, PointsOf([a, b, c]));
    var axis := Axis(p, PointsOf([a, b, c]));
    assert |axis| == 3 && axis[1].distM == axis[0].distM + StepM(p, axis[0], axis[1]);
    assert axis[2].distM == axis[1].distM + StepM(p, axis[1], axis[2]);
    StepIgnoresDistances(p, axis[0], axis[1]);
    StepIgnoresDistances(p, axis[1], axis[2]);
  }

  lemma ReadingsDiffer(points: seq<TracePoint>)
    requires |points| == 3 && points[0].distM == 0.0 && points[1].distM == 5.0 && points[2].distM == 5.0
    requires points[0].elapsedMs == 0.0 && points[1].elapsedMs == 1000.0 && points[2].elapsedMs == 1200.0
    ensures CompareLaps.Fresh(points, 5.0).elapsedMs == 1000.0
    ensures TraceLookup.PointAt(points, 5.0).elapsedMs == 1200.0
  {
    assert CompareLaps.Advance(points, 5.0, 0) == 0;
    assert CompareLaps.Along(0.0, 5.0, 5.0) == 1.0;
    assert TraceLookup.Dists(points)[0] == 0.0 && TraceLookup.Dists(points)[2] == 5.0;
  }

  lemma TraceOfStop(p: Plane, end: real) returns (points: seq<TracePoint>)
    ensures points == LapTraceOf(p, [FixAt(0, 0.0, 36.0), FixAt(1000, end, 0.0), FixAt(1200, end, 0.0)], 5000, 0, 1200)
    ensures |points| == 3 && points[0].distM == 0.0 && points[1].distM == 5.0 && points[2].distM == 5.0
    ensures points[0].elapsedMs == 0.0 && points[1].elapsedMs == 1000.0 && points[2].elapsedMs == 1200.0
  {
    var a, b, c := FixAt(0, 0.0, 36.0), FixAt(1000, end, 0.0), FixAt(1200, end, 0.0);
    points := StoredToStored(p, [a, b, c], 5000);
    MeasuredThree(p, a, b, c);
    StepBySpeed(p, PointOfSample(a), PointOfSample(b), 1000.0);
    StepBySpeed(p, PointOfSample(b), PointOfSample(c), 200.0);
    assert SpeedStepM(36.0, 0.0, 1000.0) == 5.0 && SpeedStepM(0.0, 0.0, 200.0) == 0.0;
  }

  /** **A car that brakes to a stop and stands there**: at the end of its trace, 5 m on, the cursor of a comparison
      reads the 1000 ms it arrived at and the bracket of a lookup the 1200 ms it still stood there. */
  lemma StandingStillDiffers(p: Plane, end: real) returns (points: seq<TracePoint>)
    ensures points == LapTraceOf(p, [FixAt(0, 0.0, 36.0), FixAt(1000, end, 0.0), FixAt(1200, end, 0.0)], 5000, 0, 1200)
    ensures |points| == 3 && points[2].distM == 5.0
    ensures CompareLaps.Fresh(points, 5.0).elapsedMs == 1000.0
    ensures TraceLookup.PointAt(points, 5.0).elapsedMs == 1200.0
  {
    points := TraceOfStop(p, end);
    ReadingsDiffer(points);
  }

  /** Compared at three points, in the middle the delta is 0.5 ms, reported as 1 one way round and 0 the other. */
  ghost predicate Uneven(a: seq<TracePoint>, b: seq<TracePoint>) {
    && |a| == 2 == |b| && CompareLaps.RawDelta(a, b, 3, 1) == 0.5
    && CompareLaps.Compared(a, b, 3)[1].deltaMs == 1 && CompareLaps.Compared(b, a, 3)[1].deltaMs == 0
  }

  lemma HalfApart(a: seq<TracePoint>, b: seq<TracePoint>)
    requires |a| == 2 == |b| && a[0].distM == b[0].distM == 0.0 && a[1].distM == b[1].distM == 10.0
    requires a[0].elapsedMs == b[0].elapsedMs == 0.0 && a[1].elapsedMs == 1000.0 && b[1].elapsedMs == 1001.0
    ensures Uneven(a, b)
  {
    assert CompareLaps.SharedAxis(a, b, 3)[1] == 5.0 == CompareLaps.SharedAxis(b, a, 3)[1];
    assert CompareLaps.Along(0.0, 10.0, 5.0) == 0.5;
    assert CompareLaps.Fresh(a, 5.0).elapsedMs == 500.0 && CompareLaps.Fresh(b, 5.0).elapsedMs == 500.5;
  }

  /** Ten metres at a steady speed. */
  function TenMetres(ms: int, end: real, speedKmh: real): seq<Sample> {
    [FixAt(0, 0.0, speedKmh), FixAt(ms, end, speedKmh)]
  }

  lemma SteadyTrace(p: Plane, ms: int, end: real, speedKmh: real) returns (points: seq<TracePoint>)
    requires ms > 0 && SpeedStepM(speedKmh, speedKmh, ms as real) == 10.0
    ensures points == LapTraceOf(p, TenMetres(ms, end, speedKmh), 5000, 0, ms)
    ensures |points| == 2 && points[0].distM == 0.0 && points[1].distM == 10.0
    ensures points[0].elapsedMs == 0.0 && points[1].elapsedMs == ms as real
  {
    var a, b := FixAt(0, 0.0, speedKmh), FixAt(ms, end, speedKmh);
    points := StoredToStored(p, [a, b], 5000);
    MeasuredTwo(p, a, b);
    StepBySpeed(p, PointOfSample(a), PointOfSample(b), ms as real);
  }

  /** **Two laps half a millisecond apart half way round**, at a steady 36 km/h and a thousandth less. */
  lemma HalfIsLost(p: Plane, end: real) returns (a: seq<TracePoint>, b: seq<TracePoint>)
    ensures a == LapTraceOf(p, TenMetres(1000, end, 36.0), 5000, 0, 1000)
    ensures b == LapTraceOf(p, TenMetres(1001, end, 36000.0 / 1001.0), 5000, 0, 1001)
    ensures Uneven(a, b)
  {
    a := SteadyTrace(p, 1000, end, 36.0);
    b := SteadyTrace(p, 1001, end, 36000.0 / 1001.0);
    HalfApart(a, b);
  }
}
