/** `compareLaps` of `lap-trace.ts`: two laps read at the same distances in one pass, each through a cursor
    that only moves forward. */
module CompareLaps {
  import opened SampleMath
  import opened Analysis
  import opened TraceLookup

  const MAX_STEPS := 5000

  /** One point of the comparison (`LapDeltaPointDto`). */
  datatype DeltaPoint = DeltaPoint(distM: real, elapsedAMs: int, elapsedBMs: int, deltaMs: int,
                                   speedAKmh: Option<real>, speedBKmh: Option<real>)

  datatype Reading = Reading(elapsedMs: real, speedKmh: Option<real>)

  class Cursor {
    var index: nat

    constructor ()
      ensures index == 0
    {
      index := 0;
    }
  }

  /** Where a cursor at `i` stops for a distance: the first point whose successor reaches it. */
  function Advance(points: seq<TracePoint>, distM: real, i: nat): (j: nat)
    requires i < |points|
    ensures i <= j < |points|
    ensures forall k :: i < k <= j ==> points[k].distM < distM
    ensures j + 1 < |points| ==> points[j + 1].distM >= distM
    decreases |points| - i
  {
    if i + 1 < |points| && points[i + 1].distM < distM then Advance(points, distM, i + 1) else i
  }

  function Along(from: real, to: real, distM: real): real {
    if to - from > 0.0 then Clamp((distM - from) / (to - from), 0.0, 1.0) else 0.0
  }

  function SpeedBetween(a: Option<real>, b: Option<real>, t: real): Option<real> {
    if a.None? then b else if b.None? then a else Some(RoundTo(Lerp(a.value, b.value, t), 100.0))
  }

  /** What a cursor resting at `i` reads. */
  function ReadFrom(points: seq<TracePoint>, distM: real, i: nat): Reading
    requires i < |points|
  {
    var from, to := points[i], points[MinInt(i + 1, |points| - 1)];
    var t := Along(from.distM, to.distM, distM);
    Reading(Lerp(from.elapsedMs, to.elapsedMs, t), SpeedBetween(from.speedKmh, to.speedKmh, t))
  }

  /** What a scan from the start of the trace reads. */
  function Fresh(points: seq<TracePoint>, distM: real): Reading
    requires points != []
  {
    ReadFrom(points, distM, Advance(points, distM, 0))
  }

  method SampleAtDistance(points: seq<TracePoint>, distM: real, cursor: Cursor) returns (r: Reading)
    requires cursor.index < |points|
    modifies cursor
    ensures cursor.index == Advance(points, distM, old(cursor.index))
    ensures r == ReadFrom(points, distM, cursor.index)
  {
    var i := cursor.index;
    while i < |points| - 1 && points[i + 1].distM < distM
      invariant i < |points| && Advance(points, distM, old(cursor.index)) == Advance(points, distM, i)
    {
      i := i + 1;
    }
    cursor.index := i;
    var from, to := points[i], points[MinInt(i + 1, |points| - 1)];
    var t := Along(from.distM, to.distM, distM);
    r := Reading(Lerp(from.elapsedMs, to.elapsedMs, t), SpeedBetween(from.speedKmh, to.speedKmh, t));
  }

  /** **A cursor that has already served a shorter distance serves a longer one exactly as a scan from
      the start would**, on any trace. */
  lemma {:induction false} ResumedIsFresh(points: seq<TracePoint>, x: real, y: real, i: nat)
    requires i < |points| && x <= y
    ensures Advance(points, y, Advance(points, x, i)) == Advance(points, y, i)
    decreases |points| - i
  {
    if i + 1 < |points| && points[i + 1].distM < x {
      ResumedIsFresh(points, x, y, i + 1);
    }
  }

  // ------------------------------------------------------------------------------------------
  // The comparison
  // ------------------------------------------------------------------------------------------

  function StepCount(maxPoints: int): (steps: int)
    ensures 2 <= steps <= MAX_STEPS
  {
    MaxInt(MinInt(maxPoints, MAX_STEPS), 2)
  }

  function SharedM(a: seq<TracePoint>, b: seq<TracePoint>): real
    requires a != [] && b != []
  {
    Min(a[|a| - 1].distM, b[|b| - 1].distM)
  }

  function StepM(distanceM: real, i: int, steps: int): real
    requires steps >= 2
  {
    FractionM(distanceM, i, steps - 1)
  }

  function Delta(a: Reading, b: Reading, distM: real): DeltaPoint {
    DeltaPoint(RoundTo(distM, 10.0), Round(a.elapsedMs), Round(b.elapsedMs), Round(b.elapsedMs - a.elapsedMs),
               a.speedKmh, b.speedKmh)
  }

  /** The shared axis: evenly spaced from the line to the end of the shorter lap. */
  function Axis(distanceM: real, steps: int): (axis: seq<real>)
    requires steps >= 2
    ensures |axis| == steps && forall i :: 0 <= i < steps ==> axis[i] == StepM(distanceM, i, steps)
  {
    seq(steps, i requires 0 <= i < steps => StepM(distanceM, i, steps))
  }

  function SharedAxis(a: seq<TracePoint>, b: seq<TracePoint>, maxPoints: int): (axis: seq<real>)
    requires a != [] && b != []
    ensures |axis| == StepCount(maxPoints)
  {
    Axis(SharedM(a, b), StepCount(maxPoints))
  }

  /** One step of the comparison, looked up afresh. */
  function Step(a: seq<TracePoint>, b: seq<TracePoint>, distM: real): DeltaPoint
    requires a != [] && b != []
  {
    Delta(Fresh(a, distM), Fresh(b, distM), distM)
  }

  function Compared(a: seq<TracePoint>, b: seq<TracePoint>, maxPoints: int): (r: seq<DeltaPoint>)
    ensures |r| == if |a| < 2 || |b| < 2 then 0 else StepCount(maxPoints)
    ensures forall i :: 0 <= i < |r| ==> r[i] == Step(a, b, SharedAxis(a, b, maxPoints)[i])
  {
    if |a| < 2 || |b| < 2 then [] else
      seq(StepCount(maxPoints), i requires 0 <= i < StepCount(maxPoints) => Step(a, b, SharedAxis(a, b, maxPoints)[i]))
  }

  /** Where a cursor stands before step `i`, each step resuming where the last one stopped. */
  function CursorAt(points: seq<TracePoint>, axis: seq<real>, i: nat): (j: nat)
    requires points != [] && i <= |axis|
    ensures j < |points|
  {
    if i == 0 then 0 else Advance(points, axis[i - 1], CursorAt(points, axis, i - 1))
  }

  /** Step `i` of the comparison, looked up from where the cursors stand. */
  function ResumedStep(a: seq<TracePoint>, b: seq<TracePoint>, axis: seq<real>, i: nat): DeltaPoint
    requires a != [] && b != [] && i < |axis|
  {
    Delta(ReadFrom(a, axis[i], CursorAt(a, axis, i + 1)), ReadFrom(b, axis[i], CursorAt(b, axis, i + 1)), axis[i])
  }

  function ResumedTo(a: seq<TracePoint>, b: seq<TracePoint>, axis: seq<real>, n: nat): seq<DeltaPoint>
    requires a != [] && b != [] && n <= |axis|
  {
    if n == 0 then [] else ResumedTo(a, b, axis, n - 1) + [ResumedStep(a, b, axis, n - 1)]
  }

  function Resumed(a: seq<TracePoint>, b: seq<TracePoint>, maxPoints: int): seq<DeltaPoint> {
    if |a| < 2 || |b| < 2 then [] else ResumedTo(a, b, SharedAxis(a, b, maxPoints), StepCount(maxPoints))
  }

  method CompareStep(a: seq<TracePoint>, b: seq<TracePoint>, distM: real, cursorA: Cursor, cursorB: Cursor)
    returns (p: DeltaPoint)
    requires cursorA != cursorB && cursorA.index < |a| && cursorB.index < |b|
    modifies cursorA, cursorB
    ensures cursorA.index == Advance(a, distM, old(cursorA.index))
            && cursorB.index == Advance(b, distM, old(cursorB.index))
    ensures p == Delta(ReadFrom(a, distM, cursorA.index), ReadFrom(b, distM, cursorB.index), distM)
  {
    var atA := SampleAtDistance(a, distM, cursorA);
    var atB := SampleAtDistance(b, distM, cursorB);
    p := Delta(atA, atB, distM);
  }

  /** The two cursors between them move no further than the two traces are long: `moved` counts every
      position either advances. */
  method CompareAlong(a: seq<TracePoint>, b: seq<TracePoint>, axis: seq<real>)
    returns (points: seq<DeltaPoint>, ghost moved: nat)
    requires a != [] && b != []
    ensures points == ResumedTo(a, b, axis, |axis|)
    ensures moved <= |a| + |b|
  {
    points, moved := [], 0;
    var cursorA := new Cursor();
    var cursorB := new Cursor();
    for i := 0 to |axis|
      invariant fresh(cursorA) && fresh(cursorB) && cursorA != cursorB
      invariant cursorA.index == CursorAt(a, axis, i) && cursorB.index == CursorAt(b, axis, i)
      invariant moved == cursorA.index + cursorB.index
      invariant points == ResumedTo(a, b, axis, i)
    {
      ghost var startA, startB := cursorA.index, cursorB.index;
      var p := CompareStep(a, b, axis[i], cursorA, cursorB);
      moved := moved + (cursorA.index - startA) + (cursorB.index - startB);
      points := points + [p];
    }
  }

  method Compare(a: seq<TracePoint>, b: seq<TracePoint>, maxPoints: int)
    returns (distanceM: real, points: seq<DeltaPoint>, ghost moved: nat)
    ensures points == Resumed(a, b, maxPoints)
    ensures distanceM == if |a| < 2 || |b| < 2 then 0.0 else RoundTo(SharedM(a, b), 10.0)
    ensures moved <= |a| + |b|
  {
    if |a| < 2 || |b| < 2 {
      return 0.0, [], 0;
    }
    points, moved := CompareAlong(a, b, SharedAxis(a, b, maxPoints));
    distanceM := RoundTo(SharedM(a, b), 10.0);
  }

  lemma StepsAscend(distanceM: real, i: int, j: int, steps: int)
    requires 0.0 <= distanceM && i <= j && steps >= 2
    ensures StepM(distanceM, i, steps) <= StepM(distanceM, j, steps)
  {
    MulNonNegative(distanceM, (j - i) as real);
    assert distanceM * (j as real) - distanceM * (i as real) == distanceM * ((j - i) as real);
    DivMonotone(distanceM * (i as real), distanceM * (j as real), (steps - 1) as real);
  }

  lemma SharedAxisAscends(a: seq<TracePoint>, b: seq<TracePoint>, maxPoints: int)
    requires a != [] && b != [] && 0.0 <= SharedM(a, b)
    ensures NeverFalls(SharedAxis(a, b, maxPoints))
  {
    var steps := StepCount(maxPoints);
    forall i, j | 0 <= i <= j < steps ensures StepM(SharedM(a, b), i, steps) <= StepM(SharedM(a, b), j, steps) {
      StepsAscend(SharedM(a, b), i, j, steps);
    }
  }

  lemma {:induction false} CursorIsFresh(points: seq<TracePoint>, axis: seq<real>, i: nat)
    requires points != [] && i < |axis| && NeverFalls(axis)
    ensures CursorAt(points, axis, i + 1) == Advance(points, axis[i], 0)
  {
    if i > 0 {
      CursorIsFresh(points, axis, i - 1);
      ResumedIsFresh(points, axis[i - 1], axis[i], 0);
    }
  }

  lemma StepIsFresh(a: seq<TracePoint>, b: seq<TracePoint>, axis: seq<real>, i: nat)
    requires a != [] && b != [] && i < |axis| && NeverFalls(axis)
    ensures ResumedStep(a, b, axis, i) == Step(a, b, axis[i])
  {
    CursorIsFresh(a, axis, i);
    CursorIsFresh(b, axis, i);
  }

  ghost predicate Matches(a: seq<TracePoint>, b: seq<TracePoint>, axis: seq<real>, steps: seq<DeltaPoint>, i: nat)
    requires a != [] && b != [] && i < |axis| == |steps|
  {
    ResumedStep(a, b, axis, i) == steps[i]
  }

  lemma {:induction false} ResumedToIs(a: seq<TracePoint>, b: seq<TracePoint>, axis: seq<real>,
                                       steps: seq<DeltaPoint>, n: nat)
    requires a != [] && b != [] && n <= |axis| == |steps|
    requires forall i {:trigger Matches(a, b, axis, steps, i)} :: 0 <= i < |axis| ==> Matches(a, b, axis, steps, i)
    ensures ResumedTo(a, b, axis, n) == steps[..n]
  {
    if n > 0 {
      ResumedToIs(a, b, axis, steps, n - 1);
      assert Matches(a, b, axis, steps, n - 1);
      assert steps[..n] == steps[..n - 1] + [steps[n - 1]];
    }
  }

  lemma AllMatch(a: seq<TracePoint>, b: seq<TracePoint>, axis: seq<real>, steps: seq<DeltaPoint>)
    requires a != [] && b != [] && |axis| == |steps| && NeverFalls(axis)
    requires forall i :: 0 <= i < |axis| ==> steps[i] == Step(a, b, axis[i])
    ensures forall i {:trigger Matches(a, b, axis, steps, i)} :: 0 <= i < |axis| ==> Matches(a, b, axis, steps, i)
  {
    forall i | 0 <= i < |axis| ensures Matches(a, b, axis, steps, i) {
      StepIsFresh(a, b, axis, i);
    }
  }

  /** **The one-pass comparison reads at every step what a scan from the start would.** */
  lemma OnePassIsFresh(a: seq<TracePoint>, b: seq<TracePoint>, maxPoints: int)
    requires |a| >= 2 && |b| >= 2 ==> 0.0 <= SharedM(a, b)
    ensures Resumed(a, b, maxPoints) == Compared(a, b, maxPoints)
  {
    if |a| >= 2 && |b| >= 2 {
      var axis, steps := SharedAxis(a, b, maxPoints), Compared(a, b, maxPoints);
      SharedAxisAscends(a, b, maxPoints);
      AllMatch(a, b, axis, steps);
      ResumedToIs(a, b, axis, steps, |axis|);
      assert steps[..|axis|] == steps;
    }
  }

  // ------------------------------------------------------------------------------------------
  // What the comparison says
  // ------------------------------------------------------------------------------------------

  lemma AlongMonotone(from: real, to: real, x: real, y: real)
    requires x <= y
    ensures Along(from, to, x) <= Along(from, to, y)
  {
    if to - from > 0.0 {
      DivMonotone(x - from, y - from, to - from);
    }
  }

  lemma {:induction false} AdvanceMonotone(points: seq<TracePoint>, x: real, y: real, i: nat)
    requires i < |points| && x <= y
    ensures Advance(points, x, i) <= Advance(points, y, i)
    decreases |points| - i
  {
    if i + 1 < |points| && points[i + 1].distM < x {
      AdvanceMonotone(points, x, y, i + 1);
    }
  }

  /** Elapsed time never decreases along the axis. */
  lemma FreshAscends(points: seq<TracePoint>, x: real, y: real)
    requires points != [] && ElapsedAscends(points) && x <= y
    ensures Fresh(points, x).elapsedMs <= Fresh(points, y).elapsedMs
  {
    AdvanceMonotone(points, x, y, 0);
    var i, j := Advance(points, x, 0), Advance(points, y, 0);
    var i', j' := MinInt(i + 1, |points| - 1), MinInt(j + 1, |points| - 1);
    var s, t := Along(points[i].distM, points[i'].distM, x), Along(points[j].distM, points[j'].distM, y);
    LerpBounds(points[i].elapsedMs, points[i'].elapsedMs, s);
    LerpBounds(points[j].elapsedMs, points[j'].elapsedMs, t);
    if i == j {
      AlongMonotone(points[i].distM, points[i'].distM, x, y);
      LerpMonotone(points[i].elapsedMs, points[i'].elapsedMs, s, t);
    } else {
      assert points[i'].elapsedMs <= points[j].elapsedMs;
    }
  }

  lemma StepAscends(a: seq<TracePoint>, b: seq<TracePoint>, x: real, y: real)
    requires a != [] && b != [] && ElapsedAscends(a) && ElapsedAscends(b) && x <= y
    ensures NotBefore(Step(a, b, x), Step(a, b, y))
  {
    RoundToMonotone(x, y, 10.0);
    FreshAscends(a, x, y);
    FreshAscends(b, x, y);
    RoundMonotone(Fresh(a, x).elapsedMs, Fresh(a, y).elapsedMs);
    RoundMonotone(Fresh(b, x).elapsedMs, Fresh(b, y).elapsedMs);
  }

  /** A comparison has exactly the steps asked for, from the line to the end of the shorter lap. */
  lemma ComparisonSpansTheLap(a: seq<TracePoint>, b: seq<TracePoint>, maxPoints: int) returns (r: seq<DeltaPoint>)
    requires |a| >= 2 && |b| >= 2
    ensures r == Compared(a, b, maxPoints) && |r| == MaxInt(MinInt(maxPoints, 5000), 2)
    ensures r[0].distM == 0.0 && r[|r| - 1].distM == RoundTo(SharedM(a, b), 10.0)
  {
    r := Compared(a, b, maxPoints);
    AxisEnds(SharedM(a, b), StepCount(maxPoints));
  }

  /** **The steps are evenly spaced, and each has what the two laps read there**, rounded: distances to a tenth, times
      and their difference, lap B's less lap A's, to the millisecond. */
  lemma StepIsRead(a: seq<TracePoint>, b: seq<TracePoint>, maxPoints: int, i: nat) returns (d: real)
    requires |a| >= 2 && |b| >= 2 && i < |Compared(a, b, maxPoints)|
    ensures var steps := |Compared(a, b, maxPoints)|;
            d * ((steps - 1) as real) == Min(a[|a| - 1].distM, b[|b| - 1].distM) * (i as real)
    ensures var p := Compared(a, b, maxPoints)[i];
            && IsRoundedTo(p.distM, d, 10.0)
            && IsNearest(p.elapsedAMs, Fresh(a, d).elapsedMs) && IsNearest(p.elapsedBMs, Fresh(b, d).elapsedMs)
            && IsNearest(p.deltaMs, Fresh(b, d).elapsedMs - Fresh(a, d).elapsedMs)
            && p.speedAKmh == Fresh(a, d).speedKmh && p.speedBKmh == Fresh(b, d).speedKmh
  {
    d := SharedAxis(a, b, maxPoints)[i];
    EvenStep(SharedM(a, b), i, StepCount(maxPoints));
    RoundToIs(d, 10.0);
    RoundNear(Fresh(a, d).elapsedMs);
    RoundNear(Fresh(b, d).elapsedMs);
    RoundNear(Fresh(b, d).elapsedMs - Fresh(a, d).elapsedMs);
  }

  lemma EvenStep(distanceM: real, i: nat, steps: int)
    requires steps >= 2
    ensures StepM(distanceM, i, steps) * ((steps - 1) as real) == distanceM * (i as real)
  {
    var n := (steps - 1) as real;
    assert distanceM * (i as real) / n * n == distanceM * (i as real);
  }

  /** The speed between two points: the one there is, if only one has any, and else as far between them as the
      distance, not beyond either, to a hundredth. */
  ghost predicate SpeedThere(from: TracePoint, to: TracePoint, distM: real, speed: Option<real>) {
    if from.speedKmh == None then speed == to.speedKmh
    else if to.speedKmh == None then speed == from.speedKmh
    else speed.Some? && exists x :: IsRoundedTo(speed.value, x, 100.0) && SpeedAlong(from, to, distM, x)
  }

  ghost predicate SpeedAlong(from: TracePoint, to: TracePoint, distM: real, x: real)
    requires from.speedKmh.Some? && to.speedKmh.Some?
  {
    if from.distM < to.distM then
      Proportional(from.distM, Clamp(distM, from.distM, to.distM), to.distM, from.speedKmh.value, x, to.speedKmh.value)
    else x == from.speedKmh.value
  }

  /** The share of a hop a distance is along, kept to the hop. */
  lemma AlongIs(from: real, to: real, distM: real)
    requires from < to
    ensures Clamp(distM, from, to) - from == Along(from, to, distM) * (to - from)
  {
    MulDivCancel(distM - from, to - from);
    if distM < from {
      DivStrict(distM - from, 0.0, to - from);
    } else if distM > to {
      DivStrict(to - from, distM - from, to - from);
      MulDivCancel(to - from, to - from);
    } else {
      DivBounds(distM - from, to - from);
    }
  }

  /** **The speed a lap reads is that of the first hop to get to the distance**, or of the last if none does. */
  lemma SpeedIsRead(points: seq<TracePoint>, distM: real, i: nat)
    requires i < |points| && (forall j :: 0 < j <= i ==> points[j].distM < distM)
    requires i + 1 < |points| ==> points[i + 1].distM >= distM
    ensures SpeedThere(points[i], points[if i + 1 < |points| then i + 1 else i], distM, Fresh(points, distM).speedKmh)
  {
    var j := Advance(points, distM, 0);
    assert j == i;
    var from, to := points[i], points[if i + 1 < |points| then i + 1 else i];
    if from.speedKmh.Some? && to.speedKmh.Some? {
      var t := Along(from.distM, to.distM, distM);
      var x := Lerp(from.speedKmh.value, to.speedKmh.value, t);
      RoundToIs(x, 100.0);
      if from.distM < to.distM {
        AlongIs(from.distM, to.distM, distM);
        LerpIsProportional(from.distM, Clamp(distM, from.distM, to.distM), to.distM, from.speedKmh.value,
                           to.speedKmh.value, t);
      } else {
        LerpEnds(from.speedKmh.value, to.speedKmh.value);
      }
      assert SpeedAlong(from, to, distM, x);
    }
  }

  /** Elapsed times and distances never go back, and the three separately rounded times of a step are
      within a millisecond of agreeing. */
  lemma ComparisonAscends(a: seq<TracePoint>, b: seq<TracePoint>, maxPoints: int) returns (r: seq<DeltaPoint>)
    requires |a| >= 2 && |b| >= 2 && ElapsedAscends(a) && ElapsedAscends(b) && 0.0 <= SharedM(a, b)
    ensures r == Compared(a, b, maxPoints)
    ensures forall i, j :: 0 <= i <= j < |r| ==> NotBefore(r[i], r[j])
    ensures forall i :: 0 <= i < |r| ==> -1 <= r[i].elapsedBMs - r[i].elapsedAMs - r[i].deltaMs <= 1
  {
    var axis := SharedAxis(a, b, maxPoints);
    r := Compared(a, b, maxPoints);
    SharedAxisAscends(a, b, maxPoints);
    forall i, j | 0 <= i <= j < |axis| ensures NotBefore(r[i], r[j]) {
      StepAscends(a, b, axis[i], axis[j]);
    }
    forall i | 0 <= i < |axis| ensures -1 <= r[i].elapsedBMs - r[i].elapsedAMs - r[i].deltaMs <= 1 {
      RoundedDifference(Fresh(a, axis[i]).elapsedMs, Fresh(b, axis[i]).elapsedMs);
    }
  }

  predicate NotBefore(p: DeltaPoint, q: DeltaPoint) {
    p.distM <= q.distM && p.elapsedAMs <= q.elapsedAMs && p.elapsedBMs <= q.elapsedBMs
  }

  lemma AxisEnds(distanceM: real, steps: int)
    requires steps >= 2
    ensures StepM(distanceM, 0, steps) == 0.0 && StepM(distanceM, steps - 1, steps) == distanceM
            && RoundTo(0.0, 10.0) == 0.0
  {
    MulDiv(distanceM, (steps - 1) as real);
    assert Round(0.0) == 0;
  }

  lemma RoundedDifference(x: real, y: real)
    ensures -1 <= Round(y) - Round(x) - Round(y - x) <= 1
  {
    RoundNear(x);
    RoundNear(y);
    RoundNear(y - x);
  }

  /** A lap against itself is all zeros. */
  lemma AgainstItself(a: seq<TracePoint>, maxPoints: int)
    ensures forall p :: p in Compared(a, a, maxPoints) ==>
              p.deltaMs == 0 && p.elapsedAMs == p.elapsedBMs && p.speedAKmh == p.speedBKmh
  {
    RoundOfInt(0);
  }

  /** **At a distance where lap A has a point, the step shows that point's time and speed in A's columns**,
      and B's in B's when the laps are exchanged. */
  lemma StepShowsStored(a: seq<TracePoint>, b: seq<TracePoint>, j: nat)
    requires 0 < j < |a| && b != [] && Rises(Dists(a)) && a[j - 1].speedKmh.Some? && a[j].speedKmh.Some?
    ensures var p, q := Step(a, b, a[j].distM), Step(b, a, a[j].distM);
            && p.elapsedAMs == q.elapsedBMs == Round(a[j].elapsedMs)
            && p.speedAKmh == q.speedBKmh == Some(RoundTo(a[j].speedKmh.value, 100.0))
  {
    var x := a[j].distM;
    RisesNeverFalls(Dists(a));
    assert Dists(a)[j - 1] < Dists(a)[j];
    AdvanceIsFirst(a, x, 0);
    FirstIs(Dists(a), x, j);
    ReadWhole(a, j);
  }

  lemma ReadWhole(points: seq<TracePoint>, j: nat)
    requires 0 < j < |points| && points[j - 1].distM < points[j].distM
    requires points[j - 1].speedKmh.Some? && points[j].speedKmh.Some?
    ensures ReadFrom(points, points[j].distM, j - 1)
            == Reading(points[j].elapsedMs, Some(RoundTo(points[j].speedKmh.value, 100.0)))
  {
    var from, to := points[j - 1], points[j];
    assert (to.distM - from.distM) / (to.distM - from.distM) == 1.0;
    assert Along(from.distM, to.distM, to.distM) == 1.0;
    assert Lerp(from.speedKmh.value, to.speedKmh.value, 1.0) == to.speedKmh.value;
  }

  /** The delta before rounding. */
  function RawDelta(a: seq<TracePoint>, b: seq<TracePoint>, maxPoints: int, i: nat): real
    requires a != [] && b != [] && i < StepCount(maxPoints)
  {
    var distM := SharedAxis(a, b, maxPoints)[i];
    Fresh(b, distM).elapsedMs - Fresh(a, distM).elapsedMs
  }

  predicate OnHalf(x: real) { x - (x.Floor as real) == 0.5 }

  lemma RoundNegates(x: real)
    ensures Round(-x) == -Round(x) + (if OnHalf(x) then 1 else 0)
  {
    var n := x.Floor;
    if x - (n as real) < 0.5 {
      assert Round(x) == n;
    } else {
      assert Round(x) == n + 1;
    }
  }

  /** The same step with the laps exchanged, `raw` being the delta before rounding. */
  ghost predicate Exchanged(p: DeltaPoint, q: DeltaPoint, raw: real) {
    && q.distM == p.distM && q.elapsedAMs == p.elapsedBMs && q.elapsedBMs == p.elapsedAMs
    && q.speedAKmh == p.speedBKmh && q.speedBKmh == p.speedAKmh
    && (q.deltaMs == -p.deltaMs <==> !OnHalf(raw))
  }

  lemma ExchangedDelta(x: Reading, y: Reading, distM: real, p: DeltaPoint, q: DeltaPoint, raw: real)
    requires p == Delta(x, y, distM) && q == Delta(y, x, distM) && raw == y.elapsedMs - x.elapsedMs
    ensures Exchanged(p, q, raw)
  {
    RoundNegates(raw);
    assert x.elapsedMs - y.elapsedMs == -raw;
  }

  lemma ComparedAt(a: seq<TracePoint>, b: seq<TracePoint>, maxPoints: int, i: nat)
    returns (distM: real, x: Reading, y: Reading, p: DeltaPoint, q: DeltaPoint)
    requires |a| >= 2 && |b| >= 2 && i < StepCount(maxPoints)
    ensures p == Compared(a, b, maxPoints)[i] == Delta(x, y, distM)
    ensures q == Compared(b, a, maxPoints)[i] == Delta(y, x, distM)
    ensures RawDelta(a, b, maxPoints, i) == y.elapsedMs - x.elapsedMs
    ensures RawDelta(b, a, maxPoints, i) == x.elapsedMs - y.elapsedMs
  {
    assert SharedM(b, a) == SharedM(a, b);
    distM := SharedAxis(a, b, maxPoints)[i];
    x, y := Fresh(a, distM), Fresh(b, distM);
    p, q := Delta(x, y, distM), Delta(y, x, distM);
  }

  /** **Exchanging the laps exchanges the columns and negates the delta before rounding; the reported
      delta is negated exactly when the delta is not halfway between two milliseconds**, because
      `Math.round` sends halves upwards either way. */
  lemma ExchangedLaps(a: seq<TracePoint>, b: seq<TracePoint>, maxPoints: int, i: nat)
    returns (p: DeltaPoint, q: DeltaPoint, raw: real)
    requires |a| >= 2 && |b| >= 2 && i < StepCount(maxPoints)
    ensures p == Compared(a, b, maxPoints)[i] && q == Compared(b, a, maxPoints)[i]
    ensures raw == RawDelta(a, b, maxPoints, i) == -RawDelta(b, a, maxPoints, i)
    ensures Exchanged(p, q, raw)
  {
    var distM, x, y;
    distM, x, y, p, q := ComparedAt(a, b, maxPoints, i);
    raw := y.elapsedMs - x.elapsedMs;
    ExchangedDelta(x, y, distM, p, q, raw);
  }

  // ------------------------------------------------------------------------------------------
  // The cursor and the bracket
  // ------------------------------------------------------------------------------------------

  /** The first point at or past a distance, short of the trace's end. */
  function FirstAt(points: seq<TracePoint>, distM: real): nat
    requires points != []
  {
    MinInt(FirstAtLeast(Dists(points), distM, 0), |points| - 1)
  }

  lemma {:induction false} AdvanceIsFirst(points: seq<TracePoint>, distM: real, i: nat)
    requires i < |points|
    ensures Advance(points, distM, i) == FirstAtLeast(Dists(points), distM, i + 1) - 1
    decreases |points| - i
  {
    if i + 1 < |points| && points[i + 1].distM < distM {
      AdvanceIsFirst(points, distM, i + 1);
    }
  }

  /** **The cursor reads the elapsed time the bracket does**, at every distance, exactly when the car
      did not sit at the very end of the trace: the bracket answers with the last point there, the
      cursor with the first point that reached it. */
  lemma CursorReadsBracket(points: seq<TracePoint>, distM: real)
    requires points != [] && TraceAscends(points)
    ensures Fresh(points, distM).elapsedMs == PointAt(points, distM).elapsedMs
            <==> (distM == points[|points| - 1].distM && points[0].distM < distM ==>
                  points[FirstAt(points, distM)].elapsedMs == points[|points| - 1].elapsedMs)
  {
    AdvanceIsFirst(points, distM, 0);
    var keys, values := Dists(points), Times(points);
    LookupsReadAxes(points, distM);
    if First(keys) < distM < Last(keys) {
      AtMiddle(points, distM);
    } else if distM <= First(keys) {
      AtStart(points, distM);
    } else {
      AtEnd(points, distM);
    }
  }

  lemma ReadWithin(points: seq<TracePoint>, distM: real, i: nat)
    requires i + 1 < |points| && points[i].distM < distM <= points[i + 1].distM
    ensures ReadFrom(points, distM, i).elapsedMs
            == Lerp(points[i].elapsedMs, points[i + 1].elapsedMs,
                    (distM - points[i].distM) / (points[i + 1].distM - points[i].distM))
  {
    FractionOnHop(points[i].distM, points[i + 1].distM, distM);
  }

  lemma AtMiddle(points: seq<TracePoint>, distM: real)
    requires points != [] && TraceAscends(points) && points[0].distM < distM < points[|points| - 1].distM
    ensures Fresh(points, distM).elapsedMs == PointAt(points, distM).elapsedMs
  {
    AdvanceIsFirst(points, distM, 0);
    LookupsReadAxes(points, distM);
    var i, t := OnHop(Dists(points), Times(points), distM);
    ReadWithin(points, distM, i - 1);
  }

  lemma AtStart(points: seq<TracePoint>, distM: real)
    requires points != [] && TraceAscends(points) && distM <= points[0].distM
    ensures Fresh(points, distM).elapsedMs == points[0].elapsedMs == PointAt(points, distM).elapsedMs
  {
    var to := points[MinInt(1, |points| - 1)];
    if to.distM - points[0].distM > 0.0 {
      DivMonotone(distM - points[0].distM, 0.0, to.distM - points[0].distM);
    }
  }

  lemma AtEnd(points: seq<TracePoint>, distM: real)
    requires points != [] && TraceAscends(points) && points[0].distM < distM && points[|points| - 1].distM <= distM
    ensures PointAt(points, distM).elapsedMs == points[|points| - 1].elapsedMs
    ensures Fresh(points, distM).elapsedMs ==
            if points[|points| - 1].distM < distM then points[|points| - 1].elapsedMs
            else points[FirstAt(points, distM)].elapsedMs
  {
    if points[|points| - 1].distM == distM {
      FreshAtEnd(points, distM);
    } else {
      AdvanceIsFirst(points, distM, 0);
    }
  }

  lemma FreshAtEnd(points: seq<TracePoint>, distM: real)
    requires points != [] && TraceAscends(points) && points[0].distM < distM == points[|points| - 1].distM
    ensures Fresh(points, distM).elapsedMs == points[FirstAt(points, distM)].elapsedMs
  {
    AdvanceIsFirst(points, distM, 0);
    var i := FirstAtLeast(Dists(points), distM, 0);
    assert 0 < i < |points| && points[i].distM == distM;
    ReadWithin(points, distM, i - 1);
    WholeHop(points[i - 1].distM, points[i].distM, points[i - 1].elapsedMs, points[i].elapsedMs);
  }
}
