/** `sectors.ts`: a lap's sector splits, at fractions of its own distance or at fixed gates. */
module Sectors {
  import opened SampleMath
  import opened Analysis
  import opened Geo
  import opened GateCrossing

  // ------------------------------------------------------------------------------------------
  // When a distance was reached
  // ------------------------------------------------------------------------------------------

  function DistancesOf(points: seq<LapPoint>): (r: seq<real>)
    ensures |r| == |points| && forall k :: 0 <= k < |r| ==> r[k] == points[k].distM
  {
    seq(|points|, k requires 0 <= k < |points| => points[k].distM)
  }

  /** The first point at or after position `i` whose distance is at least `targetM`, or the length. */
  function FirstReaching(points: seq<LapPoint>, targetM: real, i: nat): (k: nat)
    requires i <= |points|
    ensures i <= k <= |points|
    ensures k < |points| ==> points[k].distM >= targetM
    ensures forall j :: i <= j < k ==> points[j].distM < targetM
  {
    var distances := DistancesOf(points);
    FirstAtLeast(distances, targetM, i)
  }

  lemma FractionBounds(a: real, b: real, target: real)
    requires a <= target <= b
    ensures 0.0 <= Fraction(a, b, target) <= 1.0
  {
    if b > a {
      DivBounds(target - a, b - a);
    }
  }

  function TimeAt(points: seq<LapPoint>, targetM: real): real
    requires |points| >= 1
  {
    var i := FirstReaching(points, targetM, 1);
    if i == |points| then points[|points| - 1].timeMs
    else
      var a, b := points[i - 1], points[i];
      Lerp(a.timeMs, b.timeMs, Fraction(a.distM, b.distM, targetM))
  }

  method TimeAtDistance(points: seq<LapPoint>, targetM: real) returns (ms: real)
    requires |points| >= 1
    ensures ms == TimeAt(points, targetM)
  {
    for i := 1 to |points|
      invariant FirstReaching(points, targetM, 1) == FirstReaching(points, targetM, i)
    {
      var a, b := points[i - 1], points[i];
      if !(b.distM < targetM) {
        var span := b.distM - a.distM;
        var t := if span > 0.0 then (targetM - a.distM) / span else 0.0;
        return a.timeMs + t * (b.timeMs - a.timeMs);
      }
    }
    return points[|points| - 1].timeMs;
  }

  ghost predicate MonotoneLap(points: seq<LapPoint>) {
    TimesAscend(points) && DistancesAscend(points)
  }

  /** The instant lies on the hop that reaches the distance. */
  lemma {:induction false} TimeAtIsOnHop(points: seq<LapPoint>, targetM: real)
    requires MonotoneLap(points) && |points| >= 2 && points[0].distM <= targetM <= points[|points| - 1].distM
    ensures var i := FirstReaching(points, targetM, 1);
            && i < |points|
            && points[i - 1].distM <= targetM <= points[i].distM
            && points[i - 1].timeMs <= TimeAt(points, targetM) <= points[i].timeMs
  {
    var i := FirstReaching(points, targetM, 1);
    if i < |points| {
      FractionBounds(points[i - 1].distM, points[i].distM, targetM);
      LerpBounds(points[i - 1].timeMs, points[i].timeMs, Fraction(points[i - 1].distM, points[i].distM, targetM));
    }
  }

  lemma FractionMonotone(a: real, b: real, x: real, y: real)
    requires x <= y && a <= b
    ensures Fraction(a, b, x) <= Fraction(a, b, y)
  {
    if b > a {
      DivMonotone(x - a, y - a, b - a);
    }
  }

  /** Later distances are reached later. */
  lemma TimeAtMonotone(points: seq<LapPoint>, x: real, y: real)
    requires MonotoneLap(points) && |points| >= 2
    requires points[0].distM <= x <= y <= points[|points| - 1].distM
    ensures TimeAt(points, x) <= TimeAt(points, y)
  {
    var i, j := FirstReaching(points, x, 1), FirstReaching(points, y, 1);
    TimeAtIsOnHop(points, x);
    TimeAtIsOnHop(points, y);
    if i == j {
      var a, b := points[i - 1], points[i];
      FractionMonotone(a.distM, b.distM, x, y);
      LerpMonotone(a.timeMs, b.timeMs, Fraction(a.distM, b.distM, x), Fraction(a.distM, b.distM, y));
    } else {
      assert i <= j - 1;
    }
  }

  // ------------------------------------------------------------------------------------------
  // Rounded splits
  // ------------------------------------------------------------------------------------------

  /** The rounded durations between consecutive boundaries. */
  function Splits(boundaries: seq<real>): (r: seq<int>)
    requires |boundaries| >= 1
    ensures |r| == |boundaries| - 1
  {
    seq(|boundaries| - 1, i requires 0 <= i < |boundaries| - 1 => Round(boundaries[i + 1] - boundaries[i]))
  }

  function Sum(ms: seq<int>): int {
    if ms == [] then 0 else Sum(ms[..|ms| - 1]) + ms[|ms| - 1]
  }

  ghost predicate Ascends(b: seq<real>) {
    forall i :: 0 <= i < |b| - 1 ==> b[i] <= b[i + 1]
  }

  lemma {:induction false} SplitsSum(b: seq<real>)
    requires |b| >= 1
    ensures var n := |b| - 1;
            - (n as real) / 2.0 <= Sum(Splits(b)) as real - (b[n] - b[0]) <= (n as real) / 2.0
  {
    var n := |b| - 1;
    if n > 0 {
      SplitsSum(b[..n]);
      LastSplit(b);
      RoundNear(b[n] - b[n - 1]);
      HalfMore(n - 1, Sum(Splits(b[..n])), b[n - 1] - b[0], Round(b[n] - b[n - 1]), b[n] - b[n - 1]);
    }
  }

  lemma LastSplit(b: seq<real>)
    requires |b| >= 2
    ensures var n := |b| - 1; Sum(Splits(b)) == Sum(Splits(b[..n])) + Round(b[n] - b[n - 1])
  {
    var n := |b| - 1;
    assert Splits(b)[..n - 1] == Splits(b[..n]);
  }

  lemma HalfMore(n: nat, sum: int, span: real, split: int, part: real)
    requires -(n as real) / 2.0 <= sum as real - span <= (n as real) / 2.0
    requires part - 0.5 < split as real <= part + 0.5
    ensures -((n + 1) as real) / 2.0 <= (sum + split) as real - (span + part) <= ((n + 1) as real) / 2.0
  {}

  lemma SumVersusRound(sum: int, x: real, n: nat)
    requires - (n as real) / 2.0 <= sum as real - x <= (n as real) / 2.0
    ensures - ((n + 1) / 2) <= sum - Round(x) <= (n + 1) / 2
  {
    RoundNear(x);
    var d := sum - Round(x);
    assert (2 * d) as real == 2.0 * (d as real);
    assert - ((n + 1) as real) <= (2 * d) as real <= (n + 1) as real;
  }

  lemma SplitsNonNegative(b: seq<real>)
    requires |b| >= 1 && Ascends(b)
    ensures forall i :: 0 <= i < |b| - 1 ==> Splits(b)[i] >= 0
  {
    forall i | 0 <= i < |b| - 1 ensures Splits(b)[i] >= 0 {
      assert b[i] <= b[i + 1];
      RoundNonNegative(b[i + 1] - b[i]);
    }
  }

  lemma RoundNonNegative(x: real)
    requires 0.0 <= x
    ensures 0 <= Round(x)
  {}

  /** **The splits are not negative, and their sum is off the rounded lap time by at most half a
      millisecond per split and half for the lap**: ⌊(N+1)/2⌋ ms. */
  lemma SplitsAreFaithful(b: seq<real>)
    requires |b| >= 1 && Ascends(b)
    ensures var n, lapMs := |b| - 1, Round(b[|b| - 1] - b[0]);
            && (forall i :: 0 <= i < n ==> Splits(b)[i] >= 0)
            && - ((n + 1) / 2) <= Sum(Splits(b)) - lapMs <= (n + 1) / 2
  {
    SplitsNonNegative(b);
    SplitsSum(b);
    SumVersusRound(Sum(Splits(b)), b[|b| - 1] - b[0], |b| - 1);
  }

  // ------------------------------------------------------------------------------------------
  // Equal fractions of the distance
  // ------------------------------------------------------------------------------------------

  function TargetM(points: seq<LapPoint>, i: int, n: int): real
    requires |points| >= 1 && n > 0
  {
    points[0].distM + FractionM(points[|points| - 1].distM - points[0].distM, i, n)
  }

  function Boundaries(points: seq<LapPoint>, n: nat): (r: seq<real>)
    requires |points| >= 1 && n > 0
    ensures |r| == n + 1
  {
    [points[0].timeMs] + seq(n - 1, i requires 0 <= i < n - 1 => TimeAt(points, TargetM(points, i + 1, n)))
      + [points[|points| - 1].timeMs]
  }

  predicate Splittable(points: seq<LapPoint>, sectorCount: int) {
    && sectorCount >= 1 && |points| >= 2
    && points[|points| - 1].distM - points[0].distM > 0.0
    && points[|points| - 1].timeMs - points[0].timeMs > 0.0
  }

  function SectorTimes(points: seq<LapPoint>, sectorCount: int): seq<int> {
    if Splittable(points, sectorCount) then Splits(Boundaries(points, sectorCount)) else []
  }

  method ComputeSectorTimes(points: seq<LapPoint>, sectorCount: int) returns (ms: seq<int>)
    ensures ms == SectorTimes(points, sectorCount)
  {
    if sectorCount < 1 || |points| < 2 {
      return [];
    }
    var first, last := points[0], points[|points| - 1];
    var totalM := last.distM - first.distM;
    var totalMs := last.timeMs - first.timeMs;
    if totalM <= 0.0 || totalMs <= 0.0 {
      return [];
    }
    var boundaries := [first.timeMs];
    ghost var all := Boundaries(points, sectorCount);
    for i := 1 to sectorCount
      invariant |boundaries| == i && forall j :: 0 <= j < i ==> boundaries[j] == all[j]
    {
      BoundaryAt(points, sectorCount, i);
      var at := TimeAtDistance(points, TargetM(points, i, sectorCount));
      boundaries := boundaries + [at];
    }
    boundaries := boundaries + [last.timeMs];
    assert boundaries == all;
    return Splits(boundaries);
  }

  lemma BoundaryAt(points: seq<LapPoint>, n: nat, i: nat)
    requires |points| >= 1 && 0 < i < n
    ensures Boundaries(points, n)[i] == TimeAt(points, TargetM(points, i, n))
  {}

  lemma TargetsAscend(points: seq<LapPoint>, i: int, j: int, n: int)
    requires |points| >= 1 && 0 <= i <= j <= n && n > 0
    requires points[0].distM <= points[|points| - 1].distM
    ensures points[0].distM <= TargetM(points, i, n) <= TargetM(points, j, n) <= points[|points| - 1].distM
  {
    FractionsAscend(points[|points| - 1].distM - points[0].distM, i, j, n);
  }

  lemma BoundariesAscend(points: seq<LapPoint>, n: nat)
    requires MonotoneLap(points) && |points| >= 2 && n > 0
    ensures Ascends(Boundaries(points, n))
  {
    forall i | 0 <= i < n ensures Boundaries(points, n)[i] <= Boundaries(points, n)[i + 1] {
      BoundaryAscends(points, n, i);
    }
  }

  lemma BoundaryAscends(points: seq<LapPoint>, n: nat, i: nat)
    requires MonotoneLap(points) && |points| >= 2 && i < n
    ensures Boundaries(points, n)[i] <= Boundaries(points, n)[i + 1]
  {
    var first, last := points[0], points[|points| - 1];
    TargetsAscend(points, i, i + 1, n);
    if 0 < i {
      TimeAtIsOnHop(points, TargetM(points, i, n));
      assert points[FirstReaching(points, TargetM(points, i, n), 1)].timeMs <= last.timeMs;
    }
    if i + 1 < n {
      TimeAtIsOnHop(points, TargetM(points, i + 1, n));
      assert first.timeMs <= points[FirstReaching(points, TargetM(points, i + 1, n), 1) - 1].timeMs;
      if 0 < i {
        TimeAtMonotone(points, TargetM(points, i, n), TargetM(points, i + 1, n));
      }
    }
  }

  /** Distance splits of a monotone lap: one per sector, none negative, adding up to the lap. */
  lemma SectorTimesAddUp(points: seq<LapPoint>, sectorCount: int)
    requires MonotoneLap(points)
    ensures var ms := SectorTimes(points, sectorCount);
            ms != [] ==>
              var lapMs := Round(points[|points| - 1].timeMs - points[0].timeMs);
              && |ms| == sectorCount
              && (forall i :: 0 <= i < |ms| ==> ms[i] >= 0)
              && - ((sectorCount + 1) / 2) <= Sum(ms) - lapMs <= (sectorCount + 1) / 2
  {
    if Splittable(points, sectorCount) {
      BoundariesAscend(points, sectorCount);
      SplitsAreFaithful(Boundaries(points, sectorCount));
    }
  }

  /** Hop `i` is the first to get to a distance. */
  ghost predicate FirstHopTo(points: seq<LapPoint>, distM: real, i: nat) {
    0 < i < |points| && points[i].distM >= distM && forall j :: 0 < j < i ==> points[j].distM < distM
  }

  /** `ms` is when a hop is at a distance: as far through its time as through its length, or its start if it has
      none. */
  ghost predicate ThereAt(a: LapPoint, b: LapPoint, distM: real, ms: real) {
    if a.distM < b.distM then Proportional(a.distM, distM, b.distM, a.timeMs, ms, b.timeMs) else ms == a.timeMs
  }

  lemma TimeAtIs(points: seq<LapPoint>, distM: real, i: nat)
    requires FirstHopTo(points, distM, i)
    ensures ThereAt(points[i - 1], points[i], distM, TimeAt(points, distM))
  {
    var a, b := points[i - 1], points[i];
    var k := FirstReaching(points, distM, 1);
    assert k == i;
    if a.distM < b.distM {
      var t := (distM - a.distM) / (b.distM - a.distM);
      assert distM - a.distM == t * (b.distM - a.distM);
      LerpIsProportional(a.distM, distM, b.distM, a.timeMs, b.timeMs, t);
    } else {
      LerpEnds(a.timeMs, b.timeMs);
    }
  }

  /** The instant comes when the lap has gone `k / n` of its distance. */
  ghost predicate EndsPart(points: seq<LapPoint>, k: nat, n: nat, ms: real)
    requires |points| >= 2 && n > 0
  {
    var first, last := points[0], points[|points| - 1];
    IsReached(points, first.distM + (last.distM - first.distM) * (k as real) / (n as real), ms)
  }

  ghost predicate IsReached(points: seq<LapPoint>, distM: real, ms: real) {
    exists i: nat :: FirstHopTo(points, distM, i) && ThereAt(points[i - 1], points[i], distM, ms)
  }

  lemma SplitIsNearest(b: seq<real>, k: nat)
    requires k + 1 < |b|
    ensures IsNearest(Splits(b)[k], b[k + 1] - b[k])
  {
    RoundNear(b[k + 1] - b[k]);
  }

  /** There are no splits exactly without a sector, a hop, a distance or a time. */
  lemma UnsplitExactly(points: seq<LapPoint>, n: int)
    ensures SectorTimes(points, n) == [] <==>
              || n < 1 || |points| < 2 || points[|points| - 1].distM <= points[0].distM
              || points[|points| - 1].timeMs <= points[0].timeMs
  {
    if Splittable(points, n) {
      assert |SectorTimes(points, n)| == n;
    }
  }

  /** **A lap's sectors are equal parts of its distance**: they run from its start to its end, change where each part
      of the distance is reached, and are timed to the nearest millisecond. */
  lemma SectorsAreEqualParts(points: seq<LapPoint>, n: nat, k: nat)
    requires SectorTimes(points, n) != [] && k < n
    ensures |points| >= 2 && |SectorTimes(points, n)| == n
    ensures var b := Boundaries(points, n);
            && b[0] == points[0].timeMs && b[n] == points[|points| - 1].timeMs
            && (k > 0 ==> EndsPart(points, k, n, b[k]))
            && IsNearest(SectorTimes(points, n)[k], b[k + 1] - b[k])
  {
    SplitIsNearest(Boundaries(points, n), k);
    if k > 0 {
      PartIsReached(points, k, n);
    }
  }

  lemma PartIsReached(points: seq<LapPoint>, k: nat, n: nat)
    requires Splittable(points, n) && 0 < k < n
    ensures EndsPart(points, k, n, Boundaries(points, n)[k])
  {
    BoundaryAt(points, n, k);
    TargetIs(points, k, n);
    TargetsAscend(points, k, k, n);
    TimeAtIsReached(points, TargetM(points, k, n));
  }

  lemma TargetIs(points: seq<LapPoint>, k: nat, n: nat)
    requires |points| >= 1 && n > 0
    ensures TargetM(points, k, n)
            == points[0].distM + (points[|points| - 1].distM - points[0].distM) * (k as real) / (n as real)
  {}

  lemma TimeAtIsReached(points: seq<LapPoint>, distM: real)
    requires |points| >= 2 && distM <= points[|points| - 1].distM
    ensures IsReached(points, distM, TimeAt(points, distM))
  {
    var i := FirstReaching(points, distM, 1);
    assert i < |points|;
    assert FirstHopTo(points, distM, i);
    TimeAtIs(points, distM, i);
  }

  // ------------------------------------------------------------------------------------------
  // Fixed gates
  // ------------------------------------------------------------------------------------------

  datatype LapGateCrossing = LapGateCrossing(crossMs: real, distM: real)

  /** Hop `i`, from point `i - 1` to point `i`. */
  function HopCrossing(points: seq<LapPoint>, g: ProjectedGate, i: nat): Option<LapGateCrossing> {
    if i == 0 || i >= |points| then None else
    var a, b := points[i - 1], points[i];
    var c := FindGateCrossing(FixOfPoint(a), FixOfPoint(b), g, 0);
    if c.None? then None else Some(LapGateCrossing(c.value.crossMs, Lerp(a.distM, b.distM, c.value.t)))
  }

  /** Hop `i` crosses the gate and no other hop does. */
  ghost predicate CrossesOnce(points: seq<LapPoint>, g: ProjectedGate, i: nat) {
    HopCrossing(points, g, i).Some? && forall j :: j != i ==> HopCrossing(points, g, j).None?
  }

  ghost predicate CrossedOnceIn(points: seq<LapPoint>, g: ProjectedGate, n: nat, found: Option<LapGateCrossing>,
                                count: nat)
    requires n <= |points|
  {
    && (count == 0 <==> forall j :: 0 < j < n ==> HopCrossing(points, g, j).None?)
    && (count == 1 ==> exists i :: 0 < i < n && found == HopCrossing(points, g, i) && found.Some?
                        && forall j :: 0 < j < n && j != i ==> HopCrossing(points, g, j).None?)
    && (count > 1 ==> exists i, j ::
        0 < i < j < n && HopCrossing(points, g, i).Some? && HopCrossing(points, g, j).Some?)
  }

  /** The one crossing of a gate, if there is exactly one. */
  ghost function OnlyCrossing(points: seq<LapPoint>, g: ProjectedGate): (r: Option<LapGateCrossing>)
    ensures r.Some? <==> exists i :: CrossesOnce(points, g, i)
    ensures forall i :: CrossesOnce(points, g, i) ==> r == HopCrossing(points, g, i)
  {
    if exists i :: CrossesOnce(points, g, i) then
      var i :| CrossesOnce(points, g, i);
      assert forall j :: CrossesOnce(points, g, j) ==> j == i;
      HopCrossing(points, g, i)
    else None
  }

  method CountCrossings(points: seq<LapPoint>, g: ProjectedGate) returns (r: Option<LapGateCrossing>)
    requires |points| >= 2
    ensures r == OnlyCrossing(points, g)
  {
    var found: Option<LapGateCrossing> := None;
    var count := 0;
    for i := 1 to |points|
      invariant count >= 0 && CrossedOnceIn(points, g, i, found, count)
    {
      var crossing := HopCrossing(points, g, i);
      CountNext(points, g, i, found, count);
      if crossing.Some? {
        count := count + 1;
        found := crossing;
      }
    }
    OnlyIfOne(points, g, found, count);
    return if count != 1 || found.None? then None else found;
  }

  lemma CountNext(points: seq<LapPoint>, g: ProjectedGate, n: nat, found: Option<LapGateCrossing>, count: nat)
    requires 0 < n < |points| && CrossedOnceIn(points, g, n, found, count)
    ensures var c := HopCrossing(points, g, n);
            CrossedOnceIn(points, g, n + 1, if c.Some? then c else found, if c.Some? then count + 1 else count)
  {
    if HopCrossing(points, g, n).Some? && count == 1 {
      var i :| 0 < i < n && HopCrossing(points, g, i).Some?;
      assert 0 < i < n < n + 1;
    }
  }

  lemma OnlyIfOne(points: seq<LapPoint>, g: ProjectedGate, found: Option<LapGateCrossing>, count: nat)
    requires CrossedOnceIn(points, g, |points|, found, count)
    ensures OnlyCrossing(points, g) == if count == 1 then found else None
    ensures count == 1 ==> found.Some?
  {
    if count == 1 {
      var i :| 0 < i < |points| && found == HopCrossing(points, g, i)
               && forall j :: 0 < j < |points| && j != i ==> HopCrossing(points, g, j).None?;
      assert CrossesOnce(points, g, i);
    }
  }

  /** The instant before the `k`-th crossing: the crossing before it, or the start of the lap. */
  function Before(first: real, crossings: seq<LapGateCrossing>, k: nat): real
    requires k <= |crossings|
  {
    if k == 0 then first else crossings[k - 1].crossMs
  }

  predicate Later(first: real, crossings: seq<LapGateCrossing>, k: nat)
    requires k < |crossings|
  {
    Before(first, crossings, k) < crossings[k].crossMs
  }

  /** The instants come strictly one after the other, strictly inside the lap. */
  ghost predicate InOrder(first: real, crossings: seq<LapGateCrossing>, last: real) {
    && (forall k {:trigger Later(first, crossings, k)} :: 0 <= k < |crossings| ==> Later(first, crossings, k))
    && Before(first, crossings, |crossings|) < last
  }

  /** Crossing `k` comes before the next, the last before the lap ends, and the first after it has begun. */
  ghost predicate StepsOn(first: real, crossings: seq<LapGateCrossing>, last: real, k: nat)
    requires k <= |crossings|
  {
    (if k == 0 then first else crossings[k - 1].crossMs) < (if k == |crossings| then last else crossings[k].crossMs)
  }

  lemma InOrderIs(first: real, crossings: seq<LapGateCrossing>, last: real)
    ensures InOrder(first, crossings, last)
            <==> forall k {:trigger StepsOn(first, crossings, last, k)} :: 0 <= k <= |crossings| ==>
                   StepsOn(first, crossings, last, k)
  {
    if forall k {:trigger StepsOn(first, crossings, last, k)} :: 0 <= k <= |crossings| ==>
         StepsOn(first, crossings, last, k)
    {
      forall k | 0 <= k < |crossings| ensures Later(first, crossings, k) {
        assert StepsOn(first, crossings, last, k);
      }
      assert StepsOn(first, crossings, last, |crossings|);
    }
    if InOrder(first, crossings, last) {
      forall k | 0 <= k <= |crossings| ensures StepsOn(first, crossings, last, k) {
        assert k < |crossings| ==> Later(first, crossings, k);
      }
    }
  }

  function Projected(p: Plane, gates: seq<Gate>): (r: seq<ProjectedGate>)
    ensures |r| == |gates| && forall k :: 0 <= k < |r| ==> r[k] == ProjectGate(p, gates[k])
  {
    seq(|gates|, k requires 0 <= k < |gates| => ProjectGate(p, gates[k]))
  }

  ghost predicate AllCrossed(points: seq<LapPoint>, gates: seq<ProjectedGate>) {
    forall k :: 0 <= k < |gates| ==> OnlyCrossing(points, gates[k]).Some?
  }

  /** The one crossing of every gate. */
  ghost function OnlyCrossings(points: seq<LapPoint>, gates: seq<ProjectedGate>): (r: seq<LapGateCrossing>)
    requires AllCrossed(points, gates)
    ensures |r| == |gates|
    ensures forall k :: 0 <= k < |gates| ==> r[k] == OnlyCrossing(points, gates[k]).value
  {
    seq(|gates|, k requires 0 <= k < |gates| => OnlyCrossing(points, gates[k]).value)
  }

  /** The lap's split set: every gate crossed exactly once, in order, strictly inside the lap. */
  ghost function SplitSet(points: seq<LapPoint>, gates: seq<ProjectedGate>): (r: Option<seq<LapGateCrossing>>) {
    if gates != [] && |points| >= 2 && AllCrossed(points, gates)
       && InOrder(points[0].timeMs, OnlyCrossings(points, gates), points[|points| - 1].timeMs)
    then Some(OnlyCrossings(points, gates)) else None
  }

  method CollectCrossings(p: Plane, points: seq<LapPoint>, gates: seq<Gate>) returns (r: Option<seq<LapGateCrossing>>)
    requires |points| >= 2
    ensures var pg := Projected(p, gates);
            r == if AllCrossed(points, pg) then Some(OnlyCrossings(points, pg)) else None
  {
    ghost var pg := Projected(p, gates);
    var crossings: seq<LapGateCrossing> := [];
    for k := 0 to |gates|
      invariant |crossings| == k
      invariant forall j :: 0 <= j < k ==> OnlyCrossing(points, pg[j]) == Some(crossings[j])
    {
      var found := CountCrossings(points, ProjectGate(p, gates[k]));
      assert found == OnlyCrossing(points, pg[k]);
      if found.None? {
        return None;
      }
      crossings := crossings + [found.value];
    }
    assert crossings == OnlyCrossings(points, pg);
    return Some(crossings);
  }

  method CheckOrder(first: real, crossings: seq<LapGateCrossing>, last: real) returns (ok: bool)
    ensures ok <==> InOrder(first, crossings, last)
  {
    var previous := first;
    for k := 0 to |crossings|
      invariant previous == Before(first, crossings, k)
      invariant forall j {:trigger Later(first, crossings, j)} :: 0 <= j < k ==> Later(first, crossings, j)
    {
      assert Later(first, crossings, k) <==> previous < crossings[k].crossMs;
      if crossings[k].crossMs <= previous {
        return false;
      }
      previous := crossings[k].crossMs;
    }
    return previous < last;
  }

  method CrossGates(p: Plane, points: seq<LapPoint>, gates: seq<Gate>) returns (r: Option<seq<LapGateCrossing>>)
    ensures r == SplitSet(points, Projected(p, gates))
  {
    if |gates| == 0 || |points| < 2 {
      return None;
    }
    var crossings := CollectCrossings(p, points, gates);
    if crossings.None? {
      return None;
    }
    var ok := CheckOrder(points[0].timeMs, crossings.value, points[|points| - 1].timeMs);
    if !ok {
      return None;
    }
    return crossings;
  }

  /** `hops[k]` is the one hop that crosses gate `k`, and `crossings[k]` its crossing, in gate order. */
  ghost predicate SplitBy(points: seq<LapPoint>, gates: seq<ProjectedGate>, hops: seq<nat>,
                          crossings: seq<LapGateCrossing>) {
    && |hops| == |gates| == |crossings| && |points| >= 2
    && (forall k :: 0 <= k < |gates| ==> CrossesOnce(points, gates[k], hops[k]))
    && (forall k :: 0 <= k < |gates| ==> HopCrossing(points, gates[k], hops[k]) == Some(crossings[k]))
    && InOrder(points[0].timeMs, crossings, points[|points| - 1].timeMs)
  }

  lemma HopsGiveSplits(points: seq<LapPoint>, gates: seq<ProjectedGate>, hops: seq<nat>,
                       crossings: seq<LapGateCrossing>)
    requires gates != [] && SplitBy(points, gates, hops, crossings)
    ensures SplitSet(points, gates) == Some(crossings)
  {
    forall k | 0 <= k < |gates| ensures OnlyCrossing(points, gates[k]) == Some(crossings[k]) {
      assert CrossesOnce(points, gates[k], hops[k]);
    }
    assert OnlyCrossings(points, gates) == crossings;
  }

  lemma HopOfGate(points: seq<LapPoint>, g: ProjectedGate) returns (i: nat)
    requires OnlyCrossing(points, g).Some?
    ensures CrossesOnce(points, g, i) && HopCrossing(points, g, i) == OnlyCrossing(points, g)
  {
    i :| CrossesOnce(points, g, i);
  }

  lemma {:induction false} HopsOfGates(points: seq<LapPoint>, gates: seq<ProjectedGate>) returns (hops: seq<nat>)
    requires AllCrossed(points, gates)
    ensures |hops| == |gates|
    ensures forall k :: 0 <= k < |gates| ==> CrossesOnce(points, gates[k], hops[k])
    ensures forall k :: 0 <= k < |gates| ==> HopCrossing(points, gates[k], hops[k]) == OnlyCrossing(points, gates[k])
  {
    if gates == [] {
      hops := [];
    } else {
      var i := HopOfGate(points, gates[0]);
      var rest := HopsOfGates(points, gates[1..]);
      hops := [i] + rest;
    }
  }

  lemma SplitsGiveHops(points: seq<LapPoint>, gates: seq<ProjectedGate>) returns (hops: seq<nat>)
    requires SplitSet(points, gates).Some?
    ensures SplitBy(points, gates, hops, SplitSet(points, gates).value)
  {
    hops := HopsOfGates(points, gates);
  }

  /** **A lap has gate splits exactly when every gate is crossed by one hop and no other, and those
      crossings come in gate order strictly inside the lap**; the splits are those crossings. */
  lemma SplitsExactly(points: seq<LapPoint>, gates: seq<ProjectedGate>, crossings: seq<LapGateCrossing>)
    ensures SplitSet(points, gates) == Some(crossings)
            <==> gates != [] && exists hops :: SplitBy(points, gates, hops, crossings)
  {
    if SplitSet(points, gates) == Some(crossings) {
      var hops := SplitsGiveHops(points, gates);
    }
    if gates != [] && exists hops :: SplitBy(points, gates, hops, crossings) {
      var hops :| SplitBy(points, gates, hops, crossings);
      HopsGiveSplits(points, gates, hops, crossings);
    }
  }

  ghost function GateBoundaries(points: seq<LapPoint>, crossings: seq<LapGateCrossing>): seq<real>
    requires |points| >= 1
  {
    [points[0].timeMs] + seq(|crossings|, k requires 0 <= k < |crossings| => crossings[k].crossMs)
        + [points[|points| - 1].timeMs]
  }

  ghost function SectorTimesFromGates(p: Plane, points: seq<LapPoint>, gates: seq<Gate>): seq<int> {
    var crossings := SplitSet(points, Projected(p, gates));
    if crossings.None? then [] else Splits(GateBoundaries(points, crossings.value))
  }

  method ComputeSectorTimesFromGates(p: Plane, points: seq<LapPoint>, gates: seq<Gate>) returns (ms: seq<int>)
    ensures ms == SectorTimesFromGates(p, points, gates)
  {
    var crossings := CrossGates(p, points, gates);
    if crossings.None? {
      return [];
    }
    var inner := seq(|crossings.value|, k requires 0 <= k < |crossings.value| => crossings.value[k].crossMs);
    var boundaries := [points[0].timeMs] + inner + [points[|points| - 1].timeMs];
    assert boundaries == GateBoundaries(points, crossings.value);
    return Splits(boundaries);
  }

  /** **The splits between the crossings of a lap's gates**: from the lap's start through each gate's one crossing,
      strictly later every time, to its end, each to the nearest millisecond. */
  lemma GateSplitsAre(p: Plane, points: seq<LapPoint>, gates: seq<Gate>, crossings: seq<LapGateCrossing>, k: nat)
    requires SplitSet(points, Projected(p, gates)) == Some(crossings) && k <= |gates|
    ensures |points| >= 2 && |SectorTimesFromGates(p, points, gates)| == |gates| + 1 == |crossings| + 1
    ensures var from := if k == 0 then points[0].timeMs else crossings[k - 1].crossMs;
            var to := if k == |gates| then points[|points| - 1].timeMs else crossings[k].crossMs;
            from < to && IsNearest(SectorTimesFromGates(p, points, gates)[k], to - from)
  {
    var pg := Projected(p, gates);
    var hops := SplitsGiveHops(points, pg);
    SplitOfGates(points, crossings, k);
  }

  lemma SplitOfGates(points: seq<LapPoint>, crossings: seq<LapGateCrossing>, k: nat)
    requires |points| >= 1 && InOrder(points[0].timeMs, crossings, points[|points| - 1].timeMs) && k <= |crossings|
    ensures var b := GateBoundaries(points, crossings);
            var from := if k == 0 then points[0].timeMs else crossings[k - 1].crossMs;
            var to := if k == |crossings| then points[|points| - 1].timeMs else crossings[k].crossMs;
            |b| == |crossings| + 2 && from < to && IsNearest(Splits(b)[k], to - from)
  {
    var b := GateBoundaries(points, crossings);
    assert k < |crossings| ==> Later(points[0].timeMs, crossings, k);
    SplitIsNearest(b, k);
  }

  /** Gate splits: one per sector, none negative, adding up to the lap. */
  lemma GateTimesAddUp(p: Plane, points: seq<LapPoint>, gates: seq<Gate>)
    ensures var ms := SectorTimesFromGates(p, points, gates);
            ms != [] ==>
              && |points| >= 2 && |ms| == |gates| + 1
              && (forall i :: 0 <= i < |ms| ==> ms[i] >= 0)
              && - ((|ms| + 1) / 2) <= Sum(ms) - Round(points[|points| - 1].timeMs - points[0].timeMs) <= (|ms| + 1) / 2
  {
    var crossings := SplitSet(points, Projected(p, gates));
    if crossings.Some? {
      InOrderAscends(points, crossings.value);
      SplitsAreFaithful(GateBoundaries(points, crossings.value));
    }
  }

  lemma InOrderAscends(points: seq<LapPoint>, crossings: seq<LapGateCrossing>)
    requires |points| >= 1 && InOrder(points[0].timeMs, crossings, points[|points| - 1].timeMs)
    ensures Ascends(GateBoundaries(points, crossings))
  {
    var b := GateBoundaries(points, crossings);
    forall i | 0 <= i < |b| - 1 ensures b[i] <= b[i + 1] {
      assert b[i] == Before(points[0].timeMs, crossings, i);
      if i < |crossings| {
        assert Later(points[0].timeMs, crossings, i);
        assert b[i + 1] == crossings[i].crossMs;
      }
    }
  }

  /** The crossing `t` of the way along the hop. */
  ghost predicate IsShare(a: LapPoint, b: LapPoint, t: real, c: LapGateCrossing) {
    c.crossMs == Lerp(a.timeMs, b.timeMs, t) && c.distM == Lerp(a.distM, b.distM, t)
  }

  /** **A hop of the lap crosses a gate exactly when it does on the ground**, and the crossing is at that share of its
      way, its time and its distance. */
  lemma HopCrossedOnTheGround(p: Plane, points: seq<LapPoint>, gate: Gate, i: nat)
    requires Sound(p) && 0 < i < |points|
    ensures var a, b, c := points[i - 1], points[i], HopCrossing(points, ProjectGate(p, gate), i);
            var prev := Fix(a.timeMs, Some(a.lat), Some(a.lon), a.speedKmh);
            var cur := Fix(b.timeMs, Some(b.lat), Some(b.lon), b.speedKmh);
            && (c.Some? <==> CrossesGate(p, prev, cur, gate))
            && (c.Some? ==> exists t, u :: SamePlace(prev, cur, gate, t, u) && IsShare(a, b, t, c.value))
  {
    var a, b, g := points[i - 1], points[i], ProjectGate(p, gate);
    CrossedOnTheGround(p, FixOfPoint(a), FixOfPoint(b), gate, 0);
    if HopCrossing(points, g, i).Some? {
      var u := CrossingIsThere(p, FixOfPoint(a), FixOfPoint(b), gate, 0);
      var t := FindGateCrossing(FixOfPoint(a), FixOfPoint(b), g, 0).value.t;
      assert SamePlace(FixOfPoint(a), FixOfPoint(b), gate, t, u) && IsShare(a, b, t, HopCrossing(points, g, i).value);
    }
  }
}
