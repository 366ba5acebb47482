/** `buildOptimalLap` of `optimal-lap.ts`: the session's optimal lap with its braking points moved onto
    the combined distance axis. */
module OptimalLap {
  import opened SampleMath
  import opened Analysis
  import opened OptimalLapCore

  const DEFAULT_SECTOR_COUNT: nat := 3

  datatype OptimalLapInput = OptimalLapInput(lap: SectoredLap, brakingPoints: seq<BrakingPoint>)

  datatype Seam = Seam(distM: real, gapM: real)

  /** The plan handed to the caller; only its seams change afterwards. */
  class OptimalLapDto {
    const core: OptimalLapCore
    const brakingPoints: seq<BrakingPoint>
    var seams: seq<Seam>

    constructor (core: OptimalLapCore, brakingPoints: seq<BrakingPoint>)
      ensures this.core == core && this.brakingPoints == brakingPoints && seams == []
    {
      this.core := core;
      this.brakingPoints := brakingPoints;
      seams := [];
    }
  }

  function Laps(inputs: seq<OptimalLapInput>): (r: seq<SectoredLap>)
    ensures |r| == |inputs| && forall i :: 0 <= i < |r| ==> r[i] == inputs[i].lap
  {
    seq(|inputs|, i requires 0 <= i < |inputs| => inputs[i].lap)
  }

  /** The `Map` from lap number to lap: a later lap replaces an earlier one. */
  function ByLapNumber(inputs: seq<OptimalLapInput>, lapNumber: int): (r: Option<OptimalLapInput>)
    ensures r.Some? ==> r.value in inputs && r.value.lap.lapNumber == lapNumber
    ensures r.None? ==> forall x :: x in inputs ==> x.lap.lapNumber != lapNumber
  {
    if inputs == [] then None else
      var n := |inputs| - 1;
      assert inputs == inputs[..n] + [inputs[n]];
      if inputs[n].lap.lapNumber == lapNumber then Some(inputs[n]) else ByLapNumber(inputs[..n], lapNumber)
  }

  /** Part of a lap's distance axis; only the last sector's holds its own end. */
  datatype Range = Range(fromM: real, toM: real, closed: bool)

  predicate Holds(range: Range, distM: real) {
    distM >= range.fromM && (distM < range.toM || (range.closed && distM == range.toM))
  }

  function RangeOf(distanceM: real, sector: nat, sectorCount: nat): Range
    requires sectorCount > 0
  {
    var step := Share(distanceM, sectorCount);
    Range(step * (sector as real), step * ((sector + 1) as real), sector + 1 == sectorCount)
  }

  function Moved(bp: BrakingPoint, cumulativeM: real, fromM: real): BrakingPoint {
    bp.(distM := RoundTo(cumulativeM + (bp.distM - fromM), 10.0))
  }

  function MovedInto(bps: seq<BrakingPoint>, range: Range, cumulativeM: real): seq<BrakingPoint> {
    if bps == [] then [] else
      var n := |bps| - 1;
      MovedInto(bps[..n], range, cumulativeM)
      + (if Holds(range, bps[n].distM) then [Moved(bps[n], cumulativeM, range.fromM)] else [])
  }

  method RebaseSector(bps: seq<BrakingPoint>, range: Range, cumulativeM: real) returns (r: seq<BrakingPoint>)
    ensures r == MovedInto(bps, range, cumulativeM)
  {
    r := [];
    for i := 0 to |bps|
      invariant r == MovedInto(bps[..i], range, cumulativeM)
    {
      assert bps[..i + 1][..i] == bps[..i];
      if Holds(range, bps[i].distM) {
        r := r + [Moved(bps[i], cumulativeM, range.fromM)];
      }
    }
    assert bps[..|bps|] == bps;
  }

  datatype Rebased = Rebased(points: seq<BrakingPoint>, cumulativeM: real)

  ghost predicate AllFound(inputs: seq<OptimalLapInput>, sectors: seq<BestSector>) {
    forall k :: 0 <= k < |sectors| ==> ByLapNumber(inputs, sectors[k].lapNumber).Some? && sectors[k].sector == k
  }

  /** After the first `k` sectors. */
  function RebaseTo(inputs: seq<OptimalLapInput>, sectors: seq<BestSector>, k: nat): Rebased
    requires AllFound(inputs, sectors) && k <= |sectors|
  {
    if k == 0 then Rebased([], 0.0) else
      var s := RebaseTo(inputs, sectors, k - 1);
      var input := ByLapNumber(inputs, sectors[k - 1].lapNumber).value;
      Rebased(s.points + MovedInto(input.brakingPoints, RangeOf(input.lap.distanceM, k - 1, |sectors|), s.cumulativeM),
              s.cumulativeM + Share(input.lap.distanceM, |sectors|))
  }

  lemma SectorsAreFound(inputs: seq<OptimalLapInput>, sectorCount: nat)
    requires sectorCount > 0 && Best(Laps(inputs), sectorCount).Some?
    ensures var sectors := Best(Laps(inputs), sectorCount).value.sectors;
            |sectors| == sectorCount && AllFound(inputs, sectors)
  {
    var sectors := Best(Laps(inputs), sectorCount).value.sectors;
    forall k | 0 <= k < |sectors| ensures ByLapNumber(inputs, sectors[k].lapNumber).Some? && sectors[k].sector == k {
      var w := SectorsAreTrueMinima(Laps(inputs), sectorCount, k);
      var i :| 0 <= i < |inputs| && Laps(inputs)[i] == w;
      assert inputs[i] in inputs;
    }
  }

  function RebasedPoints(inputs: seq<OptimalLapInput>, sectorCount: nat): seq<BrakingPoint>
    requires sectorCount > 0 && Best(Laps(inputs), sectorCount).Some?
  {
    SectorsAreFound(inputs, sectorCount);
    RebaseTo(inputs, Best(Laps(inputs), sectorCount).value.sectors, sectorCount).points
  }

  method RebasePoints(inputs: seq<OptimalLapInput>, sectors: seq<BestSector>) returns (points: seq<BrakingPoint>)
    requires AllFound(inputs, sectors)
    ensures points == RebaseTo(inputs, sectors, |sectors|).points
  {
    points := [];
    var cumulativeM := 0.0;
    for k := 0 to |sectors|
      invariant Rebased(points, cumulativeM) == RebaseTo(inputs, sectors, k)
    {
      var input := ByLapNumber(inputs, sectors[k].lapNumber).value;
      var moved := RebaseSector(input.brakingPoints, RangeOf(input.lap.distanceM, sectors[k].sector, |sectors|),
                                cumulativeM);
      points := points + moved;
      cumulativeM := cumulativeM + Share(input.lap.distanceM, |sectors|);
    }
  }

  method BuildOptimalLap(inputs: seq<OptimalLapInput>) returns (plan: OptimalLapDto?)
    ensures plan == null <==> Best(Laps(inputs), 3).None?
    ensures plan != null ==>
              && fresh(plan) && plan.seams == []
              && plan.core == Best(Laps(inputs), 3).value
              && plan.brakingPoints == RebasedPoints(inputs, 3)
  {
    var core := PickBestSectors(Laps(inputs), DEFAULT_SECTOR_COUNT);
    if core.None? {
      return null;
    }
    SectorsAreFound(inputs, DEFAULT_SECTOR_COUNT);
    var brakingPoints := RebasePoints(inputs, core.value.sectors);
    plan := new OptimalLapDto(core.value, brakingPoints);
  }

  // ------------------------------------------------------------------------------------------
  // The combined axis
  // ------------------------------------------------------------------------------------------

  ghost predicate OneInputPerNumber(inputs: seq<OptimalLapInput>) {
    forall x, y :: x in inputs && y in inputs && x.lap.lapNumber == y.lap.lapNumber ==> x == y
  }

  lemma LapOfInput(inputs: seq<OptimalLapInput>, lap: SectoredLap) returns (input: OptimalLapInput)
    requires OneInputPerNumber(inputs) && lap in Laps(inputs)
    ensures input in inputs && input.lap == lap && ByLapNumber(inputs, lap.lapNumber) == Some(input)
  {
    var i :| 0 <= i < |inputs| && Laps(inputs)[i] == lap;
    input := inputs[i];
  }

  lemma InputsHaveOneLapPerNumber(inputs: seq<OptimalLapInput>)
    requires OneInputPerNumber(inputs)
    ensures OneLapPerNumber(Laps(inputs))
  {
    forall x, y | x in Laps(inputs) && y in Laps(inputs) && x.lapNumber == y.lapNumber ensures x == y {
      var a := LapOfInput(inputs, x);
      var b := LapOfInput(inputs, y);
    }
  }

  lemma AxisNext(inputs: seq<OptimalLapInput>, lap: SectoredLap, sectors: seq<BestSector>, k: nat)
    requires OneInputPerNumber(inputs) && AllFound(inputs, sectors) && k < |sectors|
    requires lap in Laps(inputs) && lap.lapNumber == sectors[k].lapNumber
    ensures RebaseTo(inputs, sectors, k + 1).cumulativeM
            == RebaseTo(inputs, sectors, k).cumulativeM + Share(lap.distanceM, |sectors|)
  {
    var input := LapOfInput(inputs, lap);
  }

  lemma {:induction false} SharedNext(eligible: seq<SectoredLap>, sectors: seq<BestSector>, k: nat, sectorCount: nat)
    requires sectorCount > 0 && k < |sectors|
    requires forall i :: 0 <= i < |sectors| ==> FindLap(eligible, sectors[i].lapNumber).Some?
    ensures SharedM(eligible, sectors[..k + 1], sectorCount)
            == SharedM(eligible, sectors[..k], sectorCount)
               + Share(FindLap(eligible, sectors[k].lapNumber).value.distanceM, sectorCount)
  {
    assert sectors[..k + 1][..k] == sectors[..k];
  }

  lemma {:induction false} AxisIsShared(inputs: seq<OptimalLapInput>, eligible: seq<SectoredLap>,
                                        sectors: seq<BestSector>, k: nat)
    requires OneInputPerNumber(inputs) && AllFound(inputs, sectors) && 0 < |sectors| && k <= |sectors|
    requires forall lap :: lap in eligible ==> lap in Laps(inputs)
    requires forall i :: 0 <= i < |sectors| ==> FindLap(eligible, sectors[i].lapNumber).Some?
    ensures RebaseTo(inputs, sectors, k).cumulativeM == SharedM(eligible, sectors[..k], |sectors|)
  {
    if k > 0 {
      AxisIsShared(inputs, eligible, sectors, k - 1);
      var lap := FindLap(eligible, sectors[k - 1].lapNumber).value;
      AxisNext(inputs, lap, sectors, k - 1);
      SharedNext(eligible, sectors, k - 1, |sectors|);
    }
  }

  lemma CoreShares(laps: seq<SectoredLap>, sectorCount: nat)
    returns (eligible: seq<SectoredLap>, sectors: seq<BestSector>)
    requires sectorCount > 0 && Best(laps, sectorCount).Some?
    ensures sectors == Best(laps, sectorCount).value.sectors && |sectors| == sectorCount
    ensures forall lap :: lap in eligible ==> lap in laps
    ensures forall i :: 0 <= i < |sectors| ==> FindLap(eligible, sectors[i].lapNumber).Some?
    ensures Best(laps, sectorCount).value.distanceM == SharedM(eligible, sectors, |sectors|)
  {
    eligible := EligibleLaps(laps, sectorCount);
    sectors := BestSectors(eligible, sectorCount);
    WinnersAreFound(eligible, sectorCount);
  }

  /** **The axis the braking points are moved onto is as long as the optimal lap says it is.** */
  lemma {:induction false} AxisIsCoreDistance(inputs: seq<OptimalLapInput>, sectorCount: nat)
    requires sectorCount > 0 && OneInputPerNumber(inputs) && Best(Laps(inputs), sectorCount).Some?
    ensures var core := Best(Laps(inputs), sectorCount).value;
            AllFound(inputs, core.sectors)
                && RebaseTo(inputs, core.sectors, |core.sectors|).cumulativeM == core.distanceM
  {
    SectorsAreFound(inputs, sectorCount);
    var eligible, sectors := CoreShares(Laps(inputs), sectorCount);
    WholeAxisIsShared(inputs, eligible, sectors);
  }

  lemma {:induction false} WholeAxisIsShared(inputs: seq<OptimalLapInput>, eligible: seq<SectoredLap>,
                                             sectors: seq<BestSector>)
    requires OneInputPerNumber(inputs) && AllFound(inputs, sectors) && 0 < |sectors|
    requires forall lap :: lap in eligible ==> lap in Laps(inputs)
    requires forall i :: 0 <= i < |sectors| ==> FindLap(eligible, sectors[i].lapNumber).Some?
    ensures RebaseTo(inputs, sectors, |sectors|).cumulativeM == SharedM(eligible, sectors, |sectors|)
  {
    AxisIsShared(inputs, eligible, sectors, |sectors|);
    assert sectors[..|sectors|] == sectors;
  }

  // ------------------------------------------------------------------------------------------
  // The moved points
  // ------------------------------------------------------------------------------------------

  ghost predicate InOrder(bps: seq<BrakingPoint>) {
    forall i, j :: 0 <= i <= j < |bps| ==> bps[i].distM <= bps[j].distM
  }

  ghost predicate Between(bps: seq<BrakingPoint>, lo: real, hi: real) {
    forall i :: 0 <= i < |bps| ==> lo <= bps[i].distM <= hi
  }

  lemma MovedBetween(bp: BrakingPoint, range: Range, cumulativeM: real)
    requires Holds(range, bp.distM)
    ensures RoundTo(cumulativeM, 10.0) <= Moved(bp, cumulativeM, range.fromM).distM
            <= RoundTo(cumulativeM + (range.toM - range.fromM), 10.0)
  {
    RoundToMonotone(cumulativeM, cumulativeM + (bp.distM - range.fromM), 10.0);
    RoundToMonotone(cumulativeM + (bp.distM - range.fromM), cumulativeM + (range.toM - range.fromM), 10.0);
  }

  lemma MovedMonotone(a: BrakingPoint, b: BrakingPoint, cumulativeM: real, fromM: real)
    requires a.distM <= b.distM
    ensures Moved(a, cumulativeM, fromM).distM <= Moved(b, cumulativeM, fromM).distM
  {
    RoundToMonotone(cumulativeM + (a.distM - fromM), cumulativeM + (b.distM - fromM), 10.0);
  }

  ghost predicate NoneAfter(r: seq<BrakingPoint>, last: BrakingPoint) {
    forall i :: 0 <= i < |r| ==> r[i].distM <= last.distM
  }

  lemma NoneAfterLater(r: seq<BrakingPoint>, a: BrakingPoint, b: BrakingPoint)
    requires NoneAfter(r, a) && a.distM <= b.distM
    ensures NoneAfter(r, b)
  {}

  lemma LastInOrder(r: seq<BrakingPoint>, last: BrakingPoint, lo: real, hi: real)
    requires InOrder(r) && Between(r, lo, hi) && NoneAfter(r, last) && lo <= last.distM <= hi
    ensures InOrder(r + [last]) && Between(r + [last], lo, hi) && NoneAfter(r + [last], last)
  {}

  lemma {:induction false} MovedInOrder(bps: seq<BrakingPoint>, range: Range, cumulativeM: real, lo: real, hi: real)
    requires InOrder(bps) && lo == RoundTo(cumulativeM, 10.0)
             && hi == RoundTo(cumulativeM + (range.toM - range.fromM), 10.0)
    ensures var r := MovedInto(bps, range, cumulativeM);
            && InOrder(r) && Between(r, lo, hi)
            && (bps == [] ==> r == []) && (bps != [] ==> NoneAfter(r, Moved(bps[|bps| - 1], cumulativeM, range.fromM)))
  {
    if bps != [] {
      var n := |bps| - 1;
      MovedInOrder(bps[..n], range, cumulativeM, lo, hi);
      var r, last := MovedInto(bps[..n], range, cumulativeM), Moved(bps[n], cumulativeM, range.fromM);
      if n > 0 {
        MovedMonotone(bps[n - 1], bps[n], cumulativeM, range.fromM);
        NoneAfterLater(r, Moved(bps[n - 1], cumulativeM, range.fromM), last);
      }
      if Holds(range, bps[n].distM) {
        MovedBetween(bps[n], range, cumulativeM);
        LastInOrder(r, last, lo, hi);
      }
    }
  }

  ghost predicate Drivable(inputs: seq<OptimalLapInput>) {
    forall x :: x in inputs ==> x.lap.distanceM >= 0.0 && InOrder(x.brakingPoints)
  }

  lemma RangeIsAShare(distanceM: real, sector: nat, sectorCount: nat)
    requires sectorCount > 0
    ensures var range := RangeOf(distanceM, sector, sectorCount);
            range.toM - range.fromM == Share(distanceM, sectorCount)
  {}

  lemma ShareNonNegative(distanceM: real, sectorCount: nat)
    requires sectorCount > 0 && distanceM >= 0.0
    ensures Share(distanceM, sectorCount) >= 0.0
  {
    DivMonotone(0.0, distanceM, sectorCount as real);
  }

  /** What holds after every sector. */
  ghost predicate InOrderTo(points: seq<BrakingPoint>, cumulativeM: real) {
    InOrder(points) && Between(points, 0.0, RoundTo(cumulativeM, 10.0)) && cumulativeM >= 0.0
  }

  lemma JoinInOrder(a: seq<BrakingPoint>, b: seq<BrakingPoint>, mid: real, hi: real)
    requires InOrder(a) && Between(a, 0.0, mid) && InOrder(b) && Between(b, mid, hi) && 0.0 <= mid <= hi
    ensures InOrder(a + b) && Between(a + b, 0.0, hi)
  {}

  lemma {:induction false} SectorInOrder(points: seq<BrakingPoint>, cumulativeM: real, bps: seq<BrakingPoint>,
                                         range: Range)
    requires InOrderTo(points, cumulativeM) && InOrder(bps) && range.toM - range.fromM >= 0.0
    ensures InOrderTo(points + MovedInto(bps, range, cumulativeM), cumulativeM + (range.toM - range.fromM))
  {
    var mid, hi := RoundTo(cumulativeM, 10.0), RoundTo(cumulativeM + (range.toM - range.fromM), 10.0);
    RoundToMonotone(0.0, cumulativeM, 10.0);
    RoundToMonotone(cumulativeM, cumulativeM + (range.toM - range.fromM), 10.0);
    MovedInOrder(bps, range, cumulativeM, mid, hi);
    JoinInOrder(points, MovedInto(bps, range, cumulativeM), mid, hi);
  }

  lemma SectorRebased(s: Rebased, input: OptimalLapInput, sector: nat, sectorCount: nat) returns (r: Rebased)
    requires InOrderTo(s.points, s.cumulativeM) && sector < sectorCount
    requires input.lap.distanceM >= 0.0 && InOrder(input.brakingPoints)
    ensures r == Rebased(
                   s.points + MovedInto(input.brakingPoints, RangeOf(input.lap.distanceM, sector, sectorCount),
                                        s.cumulativeM),
                   s.cumulativeM + Share(input.lap.distanceM, sectorCount))
    ensures InOrderTo(r.points, r.cumulativeM)
  {
    var range := RangeOf(input.lap.distanceM, sector, sectorCount);
    RangeIsAShare(input.lap.distanceM, sector, sectorCount);
    ShareNonNegative(input.lap.distanceM, sectorCount);
    SectorInOrder(s.points, s.cumulativeM, input.brakingPoints, range);
    r := Rebased(s.points + MovedInto(input.brakingPoints, range, s.cumulativeM),
                 s.cumulativeM + Share(input.lap.distanceM, sectorCount));
  }

  /** **The moved points run in order along the combined axis and stay on it**, sector after sector. */
  lemma {:induction false} RebasedInOrder(inputs: seq<OptimalLapInput>, sectors: seq<BestSector>, k: nat)
    returns (r: Rebased)
    requires AllFound(inputs, sectors) && Drivable(inputs) && k <= |sectors|
    ensures r == RebaseTo(inputs, sectors, k) && InOrderTo(r.points, r.cumulativeM)
  {
    if k == 0 {
      r := Rebased([], 0.0);
    } else {
      var s := RebasedInOrder(inputs, sectors, k - 1);
      var input := ByLapNumber(inputs, sectors[k - 1].lapNumber).value;
      r := SectorRebased(s, input, k - 1, |sectors|);
    }
  }

  // ------------------------------------------------------------------------------------------
  // One lap wins every sector
  // ------------------------------------------------------------------------------------------

  function Kept(bps: seq<BrakingPoint>, range: Range): seq<BrakingPoint> {
    if bps == [] then [] else
      var n := |bps| - 1;
      Kept(bps[..n], range) + (if Holds(range, bps[n].distM) then [bps[n]] else [])
  }

  /** Distances as they are stored: whole tenths of a metre. */
  ghost predicate InTenths(bps: seq<BrakingPoint>) {
    forall i :: 0 <= i < |bps| ==> RoundTo(bps[i].distM, 10.0) == bps[i].distM
  }

  /** Moving by nothing leaves a stored point as it is. */
  lemma {:induction false} UnmovedIsKept(bps: seq<BrakingPoint>, range: Range)
    requires InTenths(bps)
    ensures MovedInto(bps, range, range.fromM) == Kept(bps, range)
  {
    if bps != [] {
      var n := |bps| - 1;
      UnmovedIsKept(bps[..n], range);
      assert range.fromM + (bps[n].distM - range.fromM) == bps[n].distM;
    }
  }

  lemma {:induction false} NoneKept(bps: seq<BrakingPoint>, range: Range)
    requires forall i :: 0 <= i < |bps| ==> bps[i].distM < range.fromM
    ensures Kept(bps, range) == []
  {
    if bps != [] {
      NoneKept(bps[..|bps| - 1], range);
    }
  }

  /** Two ranges that meet keep what their union keeps, in the same order. */
  lemma {:induction false} KeptLast(bps: seq<BrakingPoint>, range: Range, held: bool)
    requires bps != [] && (held <==> Holds(range, bps[|bps| - 1].distM))
    ensures var n := |bps| - 1;
            Kept(bps, range) == if held then Kept(bps[..n], range) + [bps[n]] else Kept(bps[..n], range)
  {}

  lemma {:induction false} KeptMeets(bps: seq<BrakingPoint>, lo: real, mid: real, hi: real, closed: bool)
    requires InOrder(bps) && lo <= mid <= hi
    ensures Kept(bps, Range(lo, mid, false)) + Kept(bps, Range(mid, hi, closed)) == Kept(bps, Range(lo, hi, closed))
  {
    if bps != [] {
      var n := |bps| - 1;
      var left, right, whole := Range(lo, mid, false), Range(mid, hi, closed), Range(lo, hi, closed);
      KeptMeets(bps[..n], lo, mid, hi, closed);
      if Holds(left, bps[n].distM) {
        NoneKept(bps[..n], right);
        KeptLast(bps, left, true);
        KeptLast(bps, right, false);
        KeptLast(bps, whole, true);
      } else {
        var held := Holds(right, bps[n].distM);
        KeptLast(bps, left, false);
        KeptLast(bps, right, held);
        KeptLast(bps, whole, held);
      }
    }
  }

  lemma {:induction false} NothingInEmpty(bps: seq<BrakingPoint>, at: real)
    ensures Kept(bps, Range(at, at, false)) == []
  {
    if bps != [] {
      NothingInEmpty(bps[..|bps| - 1], at);
    }
  }

  ghost predicate SetBy(inputs: seq<OptimalLapInput>, sectors: seq<BestSector>, input: OptimalLapInput) {
    forall k :: 0 <= k < |sectors| ==> ByLapNumber(inputs, sectors[k].lapNumber) == Some(input)
  }

  /** Where each sector of one lap starts, and where the last ends. */
  ghost predicate Edges(distanceM: real, edges: seq<real>) {
    && |edges| >= 2 && edges[0] == 0.0 && edges[|edges| - 1] == distanceM
    && (forall k {:trigger SectorBetween(distanceM, edges, k)} :: 0 <= k < |edges| - 1 ==>
        SectorBetween(distanceM, edges, k))
  }

  ghost predicate SectorBetween(distanceM: real, edges: seq<real>, k: nat)
    requires k < |edges| - 1
  {
    var n := |edges| - 1;
    && RangeOf(distanceM, k, n) == Range(edges[k], edges[k + 1], k + 1 == n)
    && 0.0 <= edges[k] <= edges[k + 1] == edges[k] + Share(distanceM, n)
  }

  lemma OneStepOn(step: real, k: nat)
    requires step >= 0.0
    ensures 0.0 <= step * (k as real) <= step * ((k + 1) as real) == step * (k as real) + step
  {
    MulNonNegative(step, k as real);
  }

  lemma StepIsSector(distanceM: real, edges: seq<real>, step: real, k: nat)
    requires k < |edges| - 1 && step == Share(distanceM, |edges| - 1) >= 0.0
    requires edges[k] == step * (k as real) && edges[k + 1] == step * ((k + 1) as real)
    ensures SectorBetween(distanceM, edges, k)
  {
    OneStepOn(step, k);
  }

  lemma EdgesOf(distanceM: real, n: nat) returns (edges: seq<real>)
    requires n > 0 && distanceM >= 0.0
    ensures |edges| == n + 1 && Edges(distanceM, edges)
  {
    var step := Share(distanceM, n);
    edges := seq(n + 1, k requires 0 <= k <= n => step * (k as real));
    AllShares(distanceM, n);
    ShareNonNegative(distanceM, n);
    forall k | 0 <= k < n ensures SectorBetween(distanceM, edges, k) {
      StepIsSector(distanceM, edges, step, k);
    }
  }

  /** The lap's own braking points up to a distance. */
  ghost predicate RebasedIs(bps: seq<BrakingPoint>, to: real, k: nat, sectorCount: nat, r: Rebased) {
    r == Rebased(Kept(bps, Range(0.0, to, k > 0 && k == sectorCount)), to)
  }

  /** One sector's braking points join those before. */
  ghost predicate Extends(bps: seq<BrakingPoint>, from: real, to: real, closed: bool, before: Rebased, r: Rebased) {
    r == Rebased(before.points + MovedInto(bps, Range(from, to, closed), before.cumulativeM),
                 before.cumulativeM + (to - from))
  }

  lemma {:induction false} NextSector(bps: seq<BrakingPoint>, from: real, to: real, k: nat, n: nat, before: Rebased,
                                      r: Rebased)
    requires InOrder(bps) && InTenths(bps) && 0.0 <= from <= to
    requires k < n && RebasedIs(bps, from, k, n, before) && Extends(bps, from, to, k + 1 == n, before, r)
    ensures RebasedIs(bps, to, k + 1, n, r)
  {
    UnmovedIsKept(bps, Range(from, to, k + 1 == n));
    KeptMeets(bps, 0.0, from, to, k + 1 == n);
  }

  lemma NextRebased(inputs: seq<OptimalLapInput>, sectors: seq<BestSector>, input: OptimalLapInput, edges: seq<real>,
                    k: nat, before: Rebased)
    returns (r: Rebased)
    requires AllFound(inputs, sectors) && SetBy(inputs, sectors, input) && k < |sectors|
    requires |edges| == |sectors| + 1 && Edges(input.lap.distanceM, edges) && before == RebaseTo(inputs, sectors, k)
    ensures r == RebaseTo(inputs, sectors, k + 1)
    ensures Extends(input.brakingPoints, edges[k], edges[k + 1], k + 1 == |sectors|, before, r)
    ensures 0.0 <= edges[k] <= edges[k + 1]
  {
    r := RebaseTo(inputs, sectors, k + 1);
    assert SectorBetween(input.lap.distanceM, edges, k);
  }

  lemma {:induction false} OneLapNext(inputs: seq<OptimalLapInput>, sectors: seq<BestSector>, input: OptimalLapInput,
                                      edges: seq<real>, k: nat, before: Rebased) returns (r: Rebased)
    requires AllFound(inputs, sectors) && SetBy(inputs, sectors, input) && k < |sectors|
    requires |edges| == |sectors| + 1 && Edges(input.lap.distanceM, edges)
    requires InOrder(input.brakingPoints) && InTenths(input.brakingPoints)
    requires before == RebaseTo(inputs, sectors, k) && RebasedIs(input.brakingPoints, edges[k], k, |sectors|, before)
    ensures r == RebaseTo(inputs, sectors, k + 1)
    ensures RebasedIs(input.brakingPoints, edges[k + 1], k + 1, |sectors|, r)
  {
    r := NextRebased(inputs, sectors, input, edges, k, before);
    NextSector(input.brakingPoints, edges[k], edges[k + 1], k, |sectors|, before, r);
  }

  lemma {:induction false} OneLapRebased(inputs: seq<OptimalLapInput>, sectors: seq<BestSector>, input: OptimalLapInput,
                                         edges: seq<real>, k: nat) returns (r: Rebased)
    requires AllFound(inputs, sectors) && SetBy(inputs, sectors, input) && k <= |sectors|
    requires |edges| == |sectors| + 1 && Edges(input.lap.distanceM, edges)
    requires InOrder(input.brakingPoints) && InTenths(input.brakingPoints)
    ensures r == RebaseTo(inputs, sectors, k)
    ensures RebasedIs(input.brakingPoints, edges[k], k, |sectors|, r)
  {
    if k == 0 {
      NothingInEmpty(input.brakingPoints, 0.0);
      r := RebaseTo(inputs, sectors, 0);
    } else {
      var before := OneLapRebased(inputs, sectors, input, edges, k - 1);
      r := OneLapNext(inputs, sectors, input, edges, k - 1, before);
    }
  }

  /** **When one lap set every sector the braking points are that lap's own**, those on its distance,
      in its order, unchanged. */
  lemma OneLapKeepsItsPoints(inputs: seq<OptimalLapInput>, sectorCount: nat) returns (input: OptimalLapInput)
    requires sectorCount > 0 && OneInputPerNumber(inputs)
    requires Best(Laps(inputs), sectorCount).Some? && Best(Laps(inputs), sectorCount).value.matchesLapNumber.Some?
    requires forall x :: x in inputs ==> x.lap.distanceM >= 0.0 && InOrder(x.brakingPoints) && InTenths(x.brakingPoints)
    ensures input in inputs && Best(Laps(inputs), sectorCount).value.matchesLapNumber == Some(input.lap.lapNumber)
    ensures RebasedPoints(inputs, sectorCount) == Kept(input.brakingPoints, Range(0.0, input.lap.distanceM, true))
  {
    var sectors := Best(Laps(inputs), sectorCount).value.sectors;
    input := OneLapSetsAll(inputs, sectors, sectorCount);
    OneLapRebasedWhole(inputs, sectors, input);
  }

  lemma {:induction false} OneLapRebasedWhole(inputs: seq<OptimalLapInput>, sectors: seq<BestSector>,
                                              input: OptimalLapInput)
    requires AllFound(inputs, sectors) && SetBy(inputs, sectors, input) && sectors != []
    requires input.lap.distanceM >= 0.0 && InOrder(input.brakingPoints) && InTenths(input.brakingPoints)
    ensures RebaseTo(inputs, sectors, |sectors|).points
            == Kept(input.brakingPoints, Range(0.0, input.lap.distanceM, true))
  {
    var edges := EdgesOf(input.lap.distanceM, |sectors|);
    var r := OneLapRebased(inputs, sectors, input, edges, |sectors|);
  }

  lemma OneLapSetsAll(inputs: seq<OptimalLapInput>, sectors: seq<BestSector>, sectorCount: nat)
    returns (input: OptimalLapInput)
    requires sectorCount > 0 && OneInputPerNumber(inputs) && Best(Laps(inputs), sectorCount).Some?
    requires sectors == Best(Laps(inputs), sectorCount).value.sectors
    requires Best(Laps(inputs), sectorCount).value.matchesLapNumber.Some?
    ensures input in inputs && Best(Laps(inputs), sectorCount).value.matchesLapNumber == Some(input.lap.lapNumber)
    ensures |sectors| == sectorCount && AllFound(inputs, sectors) && SetBy(inputs, sectors, input)
  {
    InputsHaveOneLapPerNumber(inputs);
    var lap := OneLapIsTheOptimal(Laps(inputs), sectorCount);
    input := LapOfInput(inputs, lap);
    SectorsAreFound(inputs, sectorCount);
  }

  // ------------------------------------------------------------------------------------------
  // Where every braking point comes from
  // ------------------------------------------------------------------------------------------

  /** The last of the inputs with a lap number. */
  ghost predicate IsLatest(inputs: seq<OptimalLapInput>, input: OptimalLapInput, lapNumber: int) {
    exists i :: 0 <= i < |inputs| && inputs[i] == input && input.lap.lapNumber == lapNumber
                && forall j :: i < j < |inputs| ==> inputs[j].lap.lapNumber != lapNumber
  }

  lemma {:induction false} FoundIsLatest(inputs: seq<OptimalLapInput>, lapNumber: int)
    requires ByLapNumber(inputs, lapNumber).Some?
    ensures IsLatest(inputs, ByLapNumber(inputs, lapNumber).value, lapNumber)
  {
    var n := |inputs| - 1;
    if inputs[n].lap.lapNumber == lapNumber {
      assert inputs[n] == ByLapNumber(inputs, lapNumber).value;
    } else {
      FoundIsLatest(inputs[..n], lapNumber);
      var i :| 0 <= i < n && inputs[..n][i] == ByLapNumber(inputs, lapNumber).value
               && forall j :: i < j < n ==> inputs[..n][j].lap.lapNumber != lapNumber;
      assert inputs[i] == ByLapNumber(inputs, lapNumber).value;
      forall j | i < j < |inputs| ensures inputs[j].lap.lapNumber != lapNumber {
        assert j < n ==> inputs[j] == inputs[..n][j];
      }
    }
  }

  /** The part of a lap's axis a sector covers, and where it starts on the combined axis. */
  datatype Part = Part(fromM: real, toM: real, startM: real)

  /** From `k` to `k + 1` of `n` equal parts of the lap. */
  ghost predicate IsPart(part: Part, distanceM: real, k: nat, n: nat) {
    part.fromM * (n as real) == distanceM * (k as real) && part.toM * (n as real) == distanceM * ((k + 1) as real)
  }

  /** Each sector is its part of its setter's lap and starts where the one before it ends. */
  ghost predicate AreParts(setters: seq<OptimalLapInput>, parts: seq<Part>) {
    && |parts| == |setters|
    && (parts != [] ==> parts[0].startM == 0.0)
    && (forall k :: 0 <= k < |parts| ==> IsPart(parts[k], setters[k].lap.distanceM, k, |parts|))
    && forall k :: 0 < k < |parts| ==> parts[k].startM == parts[k - 1].startM + (parts[k - 1].toM - parts[k - 1].fromM)
  }

  /** The braking point at an index of the lap that set a sector. */
  datatype Origin = Origin(sector: nat, index: nat)

  ghost predicate Earlier(a: Origin, b: Origin) {
    a.sector < b.sector || (a.sector == b.sector && a.index < b.index)
  }

  /** It lies in that sector of its own lap; the last sector holds its own end. */
  ghost predicate IsOrigin(setters: seq<OptimalLapInput>, parts: seq<Part>, o: Origin)
    requires |parts| == |setters|
  {
    && o.sector < |setters| && o.index < |setters[o.sector].brakingPoints|
    && var distM, part := setters[o.sector].brakingPoints[o.index].distM, parts[o.sector];
       part.fromM <= distM && (distM < part.toM || (o.sector + 1 == |parts| && distM == part.toM))
  }

  /** As far after `startM` as it was after `fromM`, to the tenth of a metre, and otherwise unchanged. */
  ghost predicate IsMoved(p: BrakingPoint, bp: BrakingPoint, startM: real, fromM: real) {
    p == bp.(distM := p.distM) && IsRoundedTo(p.distM, startM + (bp.distM - fromM), 10.0)
  }

  ghost predicate ComesFrom(setters: seq<OptimalLapInput>, parts: seq<Part>, o: Origin, p: BrakingPoint)
    requires |parts| == |setters|
  {
    && IsOrigin(setters, parts, o)
    && IsMoved(p, setters[o.sector].brakingPoints[o.index], parts[o.sector].startM, parts[o.sector].fromM)
  }

  /** The braking points of the first `k` sectors, all of them, in order. */
  ghost predicate AreFrom(setters: seq<OptimalLapInput>, parts: seq<Part>, k: nat, from: seq<Origin>,
                          points: seq<BrakingPoint>)
    requires |parts| == |setters|
  {
    && |from| == |points|
    && (forall i :: 0 <= i < |from| ==> from[i].sector < k && ComesFrom(setters, parts, from[i], points[i]))
    && (forall i, j :: 0 <= i < j < |from| ==> Earlier(from[i], from[j]))
    && forall o: Origin :: o.sector < k && IsOrigin(setters, parts, o) ==> o in from
  }

  ghost predicate MovedFrom(bps: seq<BrakingPoint>, range: Range, cumulativeM: real, k: nat, from: seq<Origin>,
                            points: seq<BrakingPoint>) {
    && |from| == |points|
    && (forall i :: 0 <= i < |from| ==>
        && from[i].sector == k && from[i].index < |bps| && Holds(range, bps[from[i].index].distM)
        && points[i] == Moved(bps[from[i].index], cumulativeM, range.fromM))
    && (forall i, j :: 0 <= i < j < |from| ==> from[i].index < from[j].index)
    && forall j: nat :: j < |bps| && Holds(range, bps[j].distM) ==> Origin(k, j) in from
  }

  lemma {:induction false} SectorOrigins(bps: seq<BrakingPoint>, range: Range, cumulativeM: real, k: nat)
    returns (from: seq<Origin>)
    ensures MovedFrom(bps, range, cumulativeM, k, from, MovedInto(bps, range, cumulativeM))
  {
    if bps == [] {
      from := [];
    } else {
      var n := |bps| - 1;
      from := SectorOrigins(bps[..n], range, cumulativeM, k);
      if Holds(range, bps[n].distM) {
        from := from + [Origin(k, n)];
      }
    }
  }

  lemma MovedIsRounded(bp: BrakingPoint, startM: real, fromM: real)
    ensures IsMoved(Moved(bp, startM, fromM), bp, startM, fromM)
  {
    RoundToIs(startM + (bp.distM - fromM), 10.0);
  }

  lemma ShareTimes(distanceM: real, k: nat, n: nat)
    requires n > 0
    ensures Share(distanceM, n) * (k as real) * (n as real) == distanceM * (k as real)
  {
    var share := Share(distanceM, n);
    AllShares(distanceM, n);
    assert share * (k as real) * (n as real) == share * (n as real) * (k as real);
  }

  lemma EdgeIs(distanceM: real, edgeM: real, k: nat, n: nat)
    requires n > 0 && edgeM * (n as real) == distanceM * (k as real)
    ensures edgeM == Share(distanceM, n) * (k as real)
  {
    ShareTimes(distanceM, k, n);
    CancelFactor(edgeM, Share(distanceM, n) * (k as real), n as real);
  }

  lemma RangeIsPart(distanceM: real, part: Part, k: nat, n: nat)
    requires n > 0 && IsPart(part, distanceM, k, n)
    ensures RangeOf(distanceM, k, n) == Range(part.fromM, part.toM, k + 1 == n)
  {
    EdgeIs(distanceM, part.fromM, k, n);
    EdgeIs(distanceM, part.toM, k + 1, n);
  }

  lemma PartIsAShare(distanceM: real, part: Part, k: nat, n: nat)
    requires n > 0 && IsPart(part, distanceM, k, n)
    ensures Share(distanceM, n) == part.toM - part.fromM
  {
    RangeIsPart(distanceM, part, k, n);
    RangeIsAShare(distanceM, k, n);
  }

  lemma PartOf(distanceM: real, k: nat, n: nat, startM: real) returns (part: Part)
    requires n > 0
    ensures part.startM == startM && IsPart(part, distanceM, k, n)
  {
    ShareTimes(distanceM, k, n);
    ShareTimes(distanceM, k + 1, n);
    part := Part(Share(distanceM, n) * (k as real), Share(distanceM, n) * ((k + 1) as real), startM);
  }

  lemma {:induction false} PartsOf(setters: seq<OptimalLapInput>) returns (parts: seq<Part>)
    ensures AreParts(setters, parts)
  {
    parts := [];
    var startM, n := 0.0, |setters|;
    for k := 0 to n
      invariant |parts| == k && (k == 0 ==> startM == 0.0) && (k > 0 ==> parts[0].startM == 0.0)
      invariant k > 0 ==> startM == parts[k - 1].startM + (parts[k - 1].toM - parts[k - 1].fromM)
      invariant forall i :: 0 <= i < k ==> IsPart(parts[i], setters[i].lap.distanceM, i, n)
      invariant forall i :: 0 < i < k ==>
                parts[i].startM == parts[i - 1].startM + (parts[i - 1].toM - parts[i - 1].fromM)
    {
      var part := PartOf(setters[k].lap.distanceM, k, n, startM);
      parts, startM := parts + [part], startM + (part.toM - part.fromM);
    }
  }

  lemma MovedComesFrom(setters: seq<OptimalLapInput>, parts: seq<Part>, o: Origin)
    requires AreParts(setters, parts) && o.sector < |setters| && o.index < |setters[o.sector].brakingPoints|
    ensures var range := RangeOf(setters[o.sector].lap.distanceM, o.sector, |setters|);
            var bp := setters[o.sector].brakingPoints[o.index];
            && (Holds(range, bp.distM) <==> IsOrigin(setters, parts, o))
            && (Holds(range, bp.distM) ==>
                ComesFrom(setters, parts, o, Moved(bp, parts[o.sector].startM, range.fromM)))
  {
    var k, bp := o.sector, setters[o.sector].brakingPoints[o.index];
    RangeIsPart(setters[k].lap.distanceM, parts[k], k, |setters|);
    MovedIsRounded(bp, parts[k].startM, parts[k].fromM);
  }

  lemma LaterSectorFollows(before: seq<Origin>, last: seq<Origin>, k: nat)
    requires forall i :: 0 <= i < |before| ==> before[i].sector < k
    requires forall i, j :: 0 <= i < j < |before| ==> Earlier(before[i], before[j])
    requires forall i :: 0 <= i < |last| ==> last[i].sector == k
    requires forall i, j :: 0 <= i < j < |last| ==> last[i].index < last[j].index
    ensures var from := before + last; forall i, j :: 0 <= i < j < |from| ==> Earlier(from[i], from[j])
  {}

  lemma {:induction false} OriginsNext(setters: seq<OptimalLapInput>, parts: seq<Part>, k: nat, before: seq<Origin>,
                                       points: seq<BrakingPoint>, last: seq<Origin>, moved: seq<BrakingPoint>)
    requires AreParts(setters, parts) && k < |setters| && AreFrom(setters, parts, k, before, points)
    requires MovedFrom(setters[k].brakingPoints, RangeOf(setters[k].lap.distanceM, k, |setters|), parts[k].startM, k,
                       last, moved)
    ensures AreFrom(setters, parts, k + 1, before + last, points + moved)
  {
    var from, all := before + last, points + moved;
    forall i | 0 <= i < |from| ensures from[i].sector < k + 1 && ComesFrom(setters, parts, from[i], all[i]) {
      if i < |before| {
        assert from[i] == before[i] && all[i] == points[i];
      } else {
        assert from[i] == last[i - |before|] && all[i] == moved[i - |before|];
        MovedComesFrom(setters, parts, from[i]);
      }
    }
    LaterSectorFollows(before, last, k);
    forall o: Origin | o.sector < k + 1 && IsOrigin(setters, parts, o) ensures o in from {
      if o.sector == k {
        MovedComesFrom(setters, parts, o);
        assert Origin(k, o.index) == o;
      }
    }
  }

  ghost predicate AreSetters(inputs: seq<OptimalLapInput>, sectors: seq<BestSector>, setters: seq<OptimalLapInput>) {
    |setters| == |sectors|
    && forall k :: 0 <= k < |sectors| ==> ByLapNumber(inputs, sectors[k].lapNumber) == Some(setters[k])
  }

  lemma RebaseNext(inputs: seq<OptimalLapInput>, sectors: seq<BestSector>, setters: seq<OptimalLapInput>,
                   parts: seq<Part>, k: nat) returns (last: seq<Origin>, moved: seq<BrakingPoint>)
    requires AllFound(inputs, sectors) && AreSetters(inputs, sectors, setters) && AreParts(setters, parts)
    requires k < |sectors| && RebaseTo(inputs, sectors, k).cumulativeM == parts[k].startM
    ensures MovedFrom(setters[k].brakingPoints, RangeOf(setters[k].lap.distanceM, k, |setters|), parts[k].startM, k,
                      last, moved)
    ensures RebaseTo(inputs, sectors, k + 1).points == RebaseTo(inputs, sectors, k).points + moved
    ensures k + 1 < |sectors| ==> RebaseTo(inputs, sectors, k + 1).cumulativeM == parts[k + 1].startM
  {
    var input := setters[k];
    var range := RangeOf(input.lap.distanceM, k, |sectors|);
    moved := MovedInto(input.brakingPoints, range, parts[k].startM);
    last := SectorOrigins(input.brakingPoints, range, parts[k].startM, k);
    PartIsAShare(input.lap.distanceM, parts[k], k, |sectors|);
  }

  lemma {:induction false} RebasedFrom(inputs: seq<OptimalLapInput>, sectors: seq<BestSector>,
                                       setters: seq<OptimalLapInput>, parts: seq<Part>, k: nat)
    returns (from: seq<Origin>)
    requires AllFound(inputs, sectors) && AreSetters(inputs, sectors, setters) && AreParts(setters, parts)
    requires k <= |sectors|
    ensures k < |sectors| ==> RebaseTo(inputs, sectors, k).cumulativeM == parts[k].startM
    ensures AreFrom(setters, parts, k, from, RebaseTo(inputs, sectors, k).points)
  {
    if k == 0 {
      from := [];
    } else {
      var before := RebasedFrom(inputs, sectors, setters, parts, k - 1);
      var last, moved := RebaseNext(inputs, sectors, setters, parts, k - 1);
      OriginsNext(setters, parts, k - 1, before, RebaseTo(inputs, sectors, k - 1).points, last, moved);
      from := before + last;
    }
  }

  /** **The optimal lap's braking points are exactly those of each sector's own lap inside that sector**,
      as far into it, sector after sector in the lap's order. */
  lemma RebasedAre(inputs: seq<OptimalLapInput>, sectorCount: nat)
    returns (setters: seq<OptimalLapInput>, parts: seq<Part>, from: seq<Origin>)
    requires sectorCount > 0 && Best(Laps(inputs), sectorCount).Some?
    ensures var sectors := Best(Laps(inputs), sectorCount).value.sectors;
            && |setters| == |sectors| == sectorCount
            && forall k :: 0 <= k < sectorCount ==> IsLatest(inputs, setters[k], sectors[k].lapNumber)
    ensures AreParts(setters, parts)
    ensures AreFrom(setters, parts, sectorCount, from, RebasedPoints(inputs, sectorCount))
  {
    var sectors := Best(Laps(inputs), sectorCount).value.sectors;
    SectorsAreFound(inputs, sectorCount);
    setters := seq(sectorCount, k requires 0 <= k < sectorCount => ByLapNumber(inputs, sectors[k].lapNumber).value);
    forall k | 0 <= k < sectorCount ensures IsLatest(inputs, setters[k], sectors[k].lapNumber) {
      FoundIsLatest(inputs, sectors[k].lapNumber);
    }
    parts := PartsOf(setters);
    from := RebasedFrom(inputs, sectors, setters, parts, sectorCount);
  }
}
