/** `lap-segmenter.ts`: the lap state machine fed one sample at a time. */
module LapSegmenter {
  import opened SampleMath
  import opened Analysis
  import opened Geo
  import opened GateCrossing
  import opened LapDistance
  import Sectors
  import BrakingPoints

  datatype DerivedLap = DerivedLap(
    lapNumber: nat,
    startedAt: int,
    endedAt: int,
    lapMs: int,
    distanceM: int,
    maxSpeedKmh: Option<real>,
    minSpeedKmh: Option<real>,
    sectorMs: seq<int>,
    brakingPoints: seq<BrakingPoint>,
    points: seq<LapPoint>)

  /** What a segmenter is built with: the projected gate, and how to split the laps it closes. */
  datatype Setup = Setup(plane: Plane, gate: ProjectedGate, sectorCount: int, sectorGates: Option<seq<Gate>>)

  datatype State = State(
    prev: Option<Sample>,
    dirSign: int,
    lapNumber: nat,
    points: Option<seq<LapPoint>>,
    laps: seq<DerivedLap>)

  const Initial := State(None, 0, 0, None, [])

  // ------------------------------------------------------------------------------------------
  // One sample
  // ------------------------------------------------------------------------------------------

  function MaxOf(a: Option<real>, b: Option<real>): Option<real> {
    if b.None? then a else if a.None? || b.value > a.value then b else a
  }

  function MinOf(a: Option<real>, b: Option<real>): Option<real> {
    if b.None? then a else if a.None? || b.value < a.value then b else a
  }

  function MaxSpeed(points: seq<LapPoint>): Option<real> {
    if points == [] then None else MaxOf(MaxSpeed(points[..|points| - 1]), points[|points| - 1].speedKmh)
  }

  function MinSpeed(points: seq<LapPoint>): Option<real> {
    if points == [] then None else MinOf(MinSpeed(points[..|points| - 1]), points[|points| - 1].speedKmh)
  }

  /** They are none exactly when no point has a speed, and otherwise a point's own, with every speed between. */
  lemma {:induction false} SpeedsAreExtremes(points: seq<LapPoint>)
    ensures MaxSpeed(points).None? <==> forall i :: 0 <= i < |points| ==> points[i].speedKmh.None?
    ensures MinSpeed(points).None? <==> MaxSpeed(points).None?
    ensures MaxSpeed(points).Some? ==>
              && (exists i :: 0 <= i < |points| && points[i].speedKmh == MaxSpeed(points))
              && (exists i :: 0 <= i < |points| && points[i].speedKmh == MinSpeed(points))
              && forall i :: 0 <= i < |points| && points[i].speedKmh.Some? ==>
                   MinSpeed(points).value <= points[i].speedKmh.value <= MaxSpeed(points).value
  {
    if points != [] {
      var n := |points| - 1;
      var front := points[..n];
      SpeedsAreExtremes(front);
      assert forall i :: 0 <= i < n ==> front[i] == points[i];
      if MaxSpeed(front).Some? {
        var i :| 0 <= i < n && front[i].speedKmh == MaxSpeed(front);
        var j :| 0 <= j < n && front[j].speedKmh == MinSpeed(front);
        assert points[i].speedKmh == MaxSpeed(front) && points[j].speedKmh == MinSpeed(front);
      }
    }
  }

  ghost function SectorMs(c: Setup, points: seq<LapPoint>): seq<int> {
    if c.sectorGates.Some? then Sectors.SectorTimesFromGates(c.plane, points, c.sectorGates.value)
    else Sectors.SectorTimes(points, c.sectorCount)
  }

  /** The lap whose points are all in. */
  ghost function LapOf(c: Setup, lapNumber: nat, points: seq<LapPoint>): DerivedLap
    requires points != []
  {
    var first, last := points[0], points[|points| - 1];
    DerivedLap(lapNumber, Round(first.timeMs), Round(last.timeMs), Round(last.timeMs - first.timeMs), Round(last.distM),
               MaxSpeed(points), MinSpeed(points), SectorMs(c, points), BrakingPoints.Detect(points), points)
  }

  /** The crossing as a point of both laps it separates. */
  function Anchor(prev: Sample, sample: Sample, c: Crossing): LapPoint {
    LapPoint(c.crossMs, c.lat, c.lon, 0.0,
             LerpChannel(prev.speedKmh, sample.speedKmh, c.t), LerpChannel(prev.gLon, sample.gLon, c.t))
  }

  /** The crossing of the hop from the last located fix, if the direction latch and the debounce allow it. */
  function Accepted(c: Setup, s: State, sample: Sample): Option<Crossing> {
    if s.prev.None? then None else
      var crossing := FindGateCrossing(FixOfSample(s.prev.value), FixOfSample(sample), c.gate, s.dirSign);
      if crossing.None? then None
      else if
        || s.points.None? || s.points.value == []
        || crossing.value.crossMs - s.points.value[0].timeMs >= MIN_LAP_MS
      then crossing
      else None
  }

  /** Closes the lap that is running, if any, and opens the next on the same anchor. */
  ghost function CrossLine(c: Setup, s: State, sample: Sample, crossing: Crossing): State
    requires s.prev.Some?
  {
    var anchor := Anchor(s.prev.value, sample, crossing);
    var laps := if s.points.None? then s.laps
                else s.laps + [LapOf(c, s.lapNumber, Append(c.plane, s.points.value, anchor))];
    State(s.prev, if s.dirSign == 0 then crossing.dirSign else s.dirSign, s.lapNumber + 1, Some([anchor]), laps)
  }

  ghost function Push(c: Setup, s: State, sample: Sample): State {
    if !IsPositioned(sample) then s else
      var crossing := Accepted(c, s, sample);
      var s' := if crossing.Some? then CrossLine(c, s, sample, crossing.value) else s;
      s'.(points := if s'.points.None? then None else Some(Append(c.plane, s'.points.value, PointOfSample(sample))),
          prev := Some(sample))
  }

  ghost function PushEach(c: Setup, s: State, samples: seq<Sample>): State {
    if samples == [] then s else Push(c, PushEach(c, s, samples[..|samples| - 1]), samples[|samples| - 1])
  }

  /** A whole session. */
  ghost function Run(c: Setup, samples: seq<Sample>): State {
    PushEach(c, Initial, samples)
  }

  // ------------------------------------------------------------------------------------------
  // The segmenter object
  // ------------------------------------------------------------------------------------------

  class Segmenter {
    const setup: Setup
    var prev: Option<Sample>
    var dirSign: int
    var lapNumber: nat
    var points: Option<seq<LapPoint>>
    var laps: seq<DerivedLap>

    function Now(): State
      reads this
    {
      State(prev, dirSign, lapNumber, points, laps)
    }

    /** A running lap always has its opening anchor. */
    ghost predicate Valid()
      reads this
    {
      points.Some? ==> points.value != []
    }

    constructor (plane: Plane, gate: Gate, sectorCount: int, sectorGates: Option<seq<Gate>>)
      ensures Valid() && Now() == Initial
      ensures setup == Setup(plane, ProjectGate(plane, gate), sectorCount, sectorGates)
    {
      setup := Setup(plane, ProjectGate(plane, gate), sectorCount, sectorGates);
      prev, dirSign, lapNumber, points, laps := None, 0, 0, None, [];
    }

    method AppendPoint(point: LapPoint)
      requires Valid()
      modifies this`points
      ensures Valid()
      ensures points == if old(points).None? then None else Some(Append(setup.plane, old(points).value, point))
    {
      if points.None? {
        return;
      }
      var last := points.value[|points.value| - 1];
      points := Some(points.value + [point.(distM := last.distM + StepM(setup.plane, last, point))]);
    }

    method CloseLap(anchor: LapPoint)
      requires Valid()
      modifies this`points, this`laps
      ensures points == None
      ensures laps == if old(points).None? then old(laps)
                      else old(laps) + [LapOf(setup, lapNumber, Append(setup.plane, old(points).value, anchor))]
    {
      if points.None? {
        return;
      }
      AppendPoint(anchor);
      var lap := Derive(points.value);
      laps := laps + [lap];
      points := None;
    }

    /** The numbers of a lap whose points are all in. */
    method Derive(lap: seq<LapPoint>) returns (r: DerivedLap)
      requires lap != []
      ensures r == LapOf(setup, lapNumber, lap)
    {
      var first, last := lap[0], lap[|lap| - 1];
      var maxSpeedKmh, minSpeedKmh := SpeedRange(lap);
      var sectorMs;
      if setup.sectorGates.Some? {
        sectorMs := Sectors.ComputeSectorTimesFromGates(setup.plane, lap, setup.sectorGates.value);
      } else {
        sectorMs := Sectors.ComputeSectorTimes(lap, setup.sectorCount);
      }
      var brakingPoints := BrakingPoints.DetectBrakingPoints(lap);
      r := DerivedLap(lapNumber, Round(first.timeMs), Round(last.timeMs), Round(last.timeMs - first.timeMs),
                      Round(last.distM), maxSpeedKmh, minSpeedKmh, sectorMs, brakingPoints, lap);
    }

    /** Closes the running lap at the crossing and opens the next there. */
    method PassLine(sample: Sample, crossing: Crossing)
      requires Valid() && prev.Some?
      modifies this
      ensures Valid() && Now() == CrossLine(setup, old(Now()), sample, crossing)
    {
      var anchor := Anchor(prev.value, sample, crossing);
      if dirSign == 0 {
        dirSign := crossing.dirSign;
      }
      CloseLap(anchor);
      lapNumber := lapNumber + 1;
      points := Some([anchor]);
    }

    method PushSample(sample: Sample)
      requires Valid()
      modifies this
      ensures Valid() && Now() == Push(setup, old(Now()), sample)
    {
      if !IsPositioned(sample) {
        return;
      }
      if prev.Some? {
        var crossing := FindGateCrossing(FixOfSample(prev.value), FixOfSample(sample), setup.gate, dirSign);
        if crossing.Some? && (points.None? || crossing.value.crossMs - points.value[0].timeMs >= MIN_LAP_MS) {
          PassLine(sample, crossing.value);
        }
      }
      AppendPoint(PointOfSample(sample));
      prev := Some(sample);
    }

    method PushAll(samples: seq<Sample>)
      requires Valid()
      modifies this
      ensures Valid() && Now() == PushEach(setup, old(Now()), samples)
    {
      for i := 0 to |samples|
        invariant Valid() && Now() == PushEach(setup, old(Now()), samples[..i])
      {
        assert samples[..i + 1][..i] == samples[..i];
        PushSample(samples[i]);
      }
      assert samples[..|samples|] == samples;
    }
  }

  method SpeedRange(points: seq<LapPoint>) returns (maxSpeedKmh: Option<real>, minSpeedKmh: Option<real>)
    ensures maxSpeedKmh == MaxSpeed(points) && minSpeedKmh == MinSpeed(points)
  {
    maxSpeedKmh, minSpeedKmh := None, None;
    for i := 0 to |points|
      invariant maxSpeedKmh == MaxSpeed(points[..i]) && minSpeedKmh == MinSpeed(points[..i])
    {
      assert points[..i + 1][..i] == points[..i];
      var speedKmh := points[i].speedKmh;
      if speedKmh.Some? {
        maxSpeedKmh := if maxSpeedKmh.None? || speedKmh.value > maxSpeedKmh.value then speedKmh else maxSpeedKmh;
        minSpeedKmh := if minSpeedKmh.None? || speedKmh.value < minSpeedKmh.value then speedKmh else minSpeedKmh;
      }
    }
    assert points[..|points|] == points;
  }
}
