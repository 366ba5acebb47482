/** `stitchOptimalTrace` of `optimal-lap.ts`: for every sector a slice of one lap's trace, moved to where the
    slices before it end and stretched to the time that lap took for the sector. */
module StitchedTrace {
  import opened SampleMath
  import opened Analysis
  import opened Geo
  import opened Sectors
  import opened Decimation
  import opened TraceLookup
  import opened OptimalLapCore
  import opened OptimalLap

  /** A lap's own splits and its trace. A lap without splits has an empty list. */
  datatype ContributingLap = ContributingLap(sectorMs: seq<int>, points: seq<TracePoint>)

  // ------------------------------------------------------------------------------------------
  // One slice
  // ------------------------------------------------------------------------------------------

  /** Where sector `k` starts along a lap's trace: where its own splits say, or an equal fraction. */
  function Boundary(lap: ContributingLap, k: nat, sectorCount: nat): real
    requires lap.points != [] && k <= sectorCount && sectorCount > 0
  {
    var lapDistanceM := lap.points[|lap.points| - 1].distM;
    if |lap.sectorMs| != sectorCount then FractionM(lapDistanceM, k, sectorCount)
    else if k == 0 then lap.points[0].distM
    else if k == sectorCount then lapDistanceM
    else DistanceAt(lap.points, Sum(lap.sectorMs[..k]) as real)
  }

  function Interior(trace: seq<TracePoint>, fromM: real, toM: real): seq<TracePoint> {
    if trace == [] then [] else
      var n := |trace| - 1;
      Interior(trace[..n], fromM, toM) + (if fromM < trace[n].distM < toM then [trace[n]] else [])
  }

  function OrOneMs(spanMs: real): real { if spanMs == 0.0 then 1.0 else spanMs }

  /** Where a slice goes: distances from `fromM` on are counted from `cumulativeM`, times from
      `startMs` on are stretched by `scale` and counted from `cumulativeMs`. */
  datatype Placement = Placement(cumulativeM: real, fromM: real, cumulativeMs: int, startMs: real, scale: real)

  function Stretched(ms: real, at: Placement): real {
    (ms - at.startMs) * at.scale
  }

  function Place(p: TracePoint, at: Placement): TracePoint {
    p.(distM := RoundTo(at.cumulativeM + (p.distM - at.fromM), 10.0),
       elapsedMs := Round(at.cumulativeMs as real + Stretched(p.elapsedMs, at)) as real)
  }

  function PlaceAll(slice: seq<TracePoint>, at: Placement): (r: seq<TracePoint>)
    ensures |r| == |slice| && forall i :: 0 <= i < |r| ==> r[i] == Place(slice[i], at)
  {
    seq(|slice|, i requires 0 <= i < |slice| => Place(slice[i], at))
  }

  method PushSlice(stitched: seq<TracePoint>, slice: seq<TracePoint>, at: Placement) returns (r: seq<TracePoint>)
    ensures r == stitched + PlaceAll(slice, at)
  {
    r := stitched;
    for i := 0 to |slice|
      invariant r == stitched + PlaceAll(slice, at)[..i]
    {
      r := r + [Place(slice[i], at)];
    }
  }

  // ------------------------------------------------------------------------------------------
  // The stitch
  // ------------------------------------------------------------------------------------------

  predicate Readable(laps: map<int, ContributingLap>, lapNumber: int) {
    lapNumber in laps && |laps[lapNumber].points| >= 2
  }

  predicate Usable(sectors: seq<BestSector>, laps: map<int, ContributingLap>) {
    forall k :: 0 <= k < |sectors| ==> Readable(laps, sectors[k].lapNumber)
  }

  /** The physical gap between the end of what is stitched so far and the next slice's start. */
  function SeamOf(p: Plane, previousEnd: TracePoint, startPoint: TracePoint, atDistM: real): Seam {
    Seam(RoundTo(atDistM, 10.0),
         RoundTo(DistanceM(p, previousEnd.lat, previousEnd.lon, startPoint.lat, startPoint.lon), 100.0))
  }

  function RecordSeam(p: Plane, seams: seq<Seam>, stitched: seq<TracePoint>, startPoint: TracePoint,
                      atDistM: real): seq<Seam> {
    if stitched == [] then seams else seams + [SeamOf(p, stitched[|stitched| - 1], startPoint, atDistM)]
  }

  /** The piece of a lap's trace a sector is drawn from, with an interpolated point at each boundary,
      and the sector's own time. */
  datatype Cut = Cut(start: TracePoint, interior: seq<TracePoint>, end: TracePoint, fromM: real, toM: real,
                     sectorMs: int)

  function CutBetween(trace: seq<TracePoint>, fromM: real, toM: real, sectorMs: int): Cut
    requires trace != []
  {
    Cut(PointAt(trace, fromM), Interior(trace, fromM, toM), PointAt(trace, toM), fromM, toM, sectorMs)
  }

  function CutOf(sectors: seq<BestSector>, laps: map<int, ContributingLap>, k: nat): Cut
    requires Usable(sectors, laps) && k < |sectors|
  {
    var lap := laps[sectors[k].lapNumber];
    CutBetween(lap.points, Boundary(lap, k, |sectors|), Boundary(lap, k + 1, |sectors|), sectors[k].sectorMs)
  }

  function Cuts(sectors: seq<BestSector>, laps: map<int, ContributingLap>): (cuts: seq<Cut>)
    requires Usable(sectors, laps)
    ensures |cuts| == |sectors| && forall k :: 0 <= k < |cuts| ==> cuts[k] == CutOf(sectors, laps, k)
  {
    seq(|sectors|, k requires 0 <= k < |sectors| => CutOf(sectors, laps, k))
  }

  function Slice(cut: Cut): seq<TracePoint> { [cut.start] + cut.interior + [cut.end] }

  /** The distance the first `k` cuts cover. */
  function CoveredM(cuts: seq<Cut>, k: nat): real
    requires k <= |cuts|
  {
    if k == 0 then 0.0 else CoveredM(cuts, k - 1) + (cuts[k - 1].toM - cuts[k - 1].fromM)
  }

  /** The time of the first `k` cuts' sectors. */
  function ElapsedTo(cuts: seq<Cut>, k: nat): int
    requires k <= |cuts|
  {
    if k == 0 then 0 else ElapsedTo(cuts, k - 1) + cuts[k - 1].sectorMs
  }

  function PlacementOf(cut: Cut, distM: real, elapsedMs: int): Placement {
    var spanMs := cut.end.elapsedMs - cut.start.elapsedMs;
    Placement(distM, cut.fromM, elapsedMs, cut.start.elapsedMs, cut.sectorMs as real / OrOneMs(spanMs))
  }

  function PlaceCut(cut: Cut, distM: real, elapsedMs: int): seq<TracePoint> {
    PlaceAll(Slice(cut), PlacementOf(cut, distM, elapsedMs))
  }

  /** The stitched points of the first `k` cuts. */
  function PointsTo(cuts: seq<Cut>, k: nat): seq<TracePoint>
    requires k <= |cuts|
  {
    if k == 0 then [] else
      PointsTo(cuts, k - 1) + PlaceCut(cuts[k - 1], CoveredM(cuts, k - 1), ElapsedTo(cuts, k - 1))
  }

  /** The seams recorded over the first `k` cuts. */
  function SeamsTo(p: Plane, cuts: seq<Cut>, k: nat): seq<Seam>
    requires k <= |cuts|
  {
    if k == 0 then [] else
      RecordSeam(p, SeamsTo(p, cuts, k - 1), PointsTo(cuts, k - 1), cuts[k - 1].start, CoveredM(cuts, k - 1))
  }

  /** The true final point is pinned to the lap time and the whole distance. */
  function Pinned(points: seq<TracePoint>, distM: real, lapMs: int): seq<TracePoint> {
    if points == [] then [] else
      var n := |points| - 1;
      points[..n] + [points[n].(distM := RoundTo(distM, 10.0), elapsedMs := lapMs as real)]
  }

  function Stitched(core: OptimalLapCore, laps: map<int, ContributingLap>, maxPoints: int): seq<TracePoint> {
    if !Usable(core.sectors, laps) then [] else
      var cuts := Cuts(core.sectors, laps);
      Decimate(Pinned(PointsTo(cuts, |cuts|), CoveredM(cuts, |cuts|), core.lapMs), maxPoints)
  }

  function Seams(p: Plane, core: OptimalLapCore, laps: map<int, ContributingLap>): seq<Seam> {
    if !Usable(core.sectors, laps) then [] else SeamsTo(p, Cuts(core.sectors, laps), |core.sectors|)
  }

  method PushSeam(p: Plane, plan: OptimalLapDto, stitchedSoFar: seq<TracePoint>, startPoint: TracePoint, atDistM: real)
    modifies plan`seams
    ensures plan.seams == RecordSeam(p, old(plan.seams), stitchedSoFar, startPoint, atDistM)
  {
    if stitchedSoFar == [] {
      return;
    }
    plan.seams := plan.seams + [SeamOf(p, stitchedSoFar[|stitchedSoFar| - 1], startPoint, atDistM)];
  }

  method CutSector(lap: ContributingLap, k: nat, sectorCount: nat, sectorMs: int) returns (cut: Cut)
    requires lap.points != [] && k < sectorCount
    ensures cut == CutBetween(lap.points, Boundary(lap, k, sectorCount), Boundary(lap, k + 1, sectorCount), sectorMs)
  {
    var fromM, toM := Boundary(lap, k, sectorCount), Boundary(lap, k + 1, sectorCount);
    var startPoint := InterpolateTracePointAt(lap.points, fromM);
    var endPoint := InterpolateTracePointAt(lap.points, toM);
    cut := Cut(startPoint, Interior(lap.points, fromM, toM), endPoint, fromM, toM, sectorMs);
  }

  method CutSectors(sectors: seq<BestSector>, laps: map<int, ContributingLap>) returns (cuts: seq<Cut>)
    requires Usable(sectors, laps)
    ensures cuts == Cuts(sectors, laps)
  {
    cuts := [];
    for i := 0 to |sectors|
      invariant |cuts| == i && forall k :: 0 <= k < i ==> cuts[k] == CutOf(sectors, laps, k)
    {
      var cut := CutSector(laps[sectors[i].lapNumber], i, |sectors|, sectors[i].sectorMs);
      cuts := cuts + [cut];
    }
  }

  /** One sector: its seam recorded, its points pushed. */
  method StitchSector(p: Plane, plan: OptimalLapDto, stitched: seq<TracePoint>, distM: real, elapsedMs: int, cut: Cut)
    returns (r: seq<TracePoint>)
    modifies plan`seams
    ensures r == stitched + PlaceCut(cut, distM, elapsedMs)
    ensures plan.seams == RecordSeam(p, old(plan.seams), stitched, cut.start, distM)
  {
    PushSeam(p, plan, stitched, cut.start, distM);
    var scale := cut.sectorMs as real / OrOneMs(cut.end.elapsedMs - cut.start.elapsedMs);
    r := PushSlice(stitched, Slice(cut), Placement(distM, cut.fromM, elapsedMs, cut.start.elapsedMs, scale));
  }

  lemma SeamsAreAppended(p: Plane, before: seq<Seam>, seams: seq<Seam>, stitched: seq<TracePoint>, start: TracePoint,
                         distM: real)
    ensures RecordSeam(p, before + seams, stitched, start, distM)
            == before + RecordSeam(p, seams, stitched, start, distM)
  {}

  method StitchCuts(p: Plane, plan: OptimalLapDto, cuts: seq<Cut>) returns (stitched: seq<TracePoint>, distM: real)
    modifies plan`seams
    ensures stitched == PointsTo(cuts, |cuts|) && distM == CoveredM(cuts, |cuts|)
    ensures plan.seams == old(plan.seams) + SeamsTo(p, cuts, |cuts|)
  {
    ghost var before := plan.seams;
    stitched, distM := [], 0.0;
    var elapsedMs := 0;
    for i := 0 to |cuts|
      invariant stitched == PointsTo(cuts, i) && distM == CoveredM(cuts, i) && elapsedMs == ElapsedTo(cuts, i)
      invariant plan.seams == before + SeamsTo(p, cuts, i)
    {
      SeamsAreAppended(p, before, SeamsTo(p, cuts, i), stitched, cuts[i].start, distM);
      stitched := StitchSector(p, plan, stitched, distM, elapsedMs, cuts[i]);
      distM := distM + (cuts[i].toM - cuts[i].fromM);
      elapsedMs := elapsedMs + cuts[i].sectorMs;
    }
  }

  method StitchOptimalTrace(p: Plane, plan: OptimalLapDto, laps: map<int, ContributingLap>, maxPoints: int)
    returns (r: seq<TracePoint>)
    modifies plan`seams
    ensures r == Stitched(plan.core, laps, maxPoints)
    ensures plan.seams == old(plan.seams) + Seams(p, plan.core, laps)
  {
    if !Usable(plan.core.sectors, laps) {
      return [];
    }
    var cuts := CutSectors(plan.core.sectors, laps);
    var stitched, distM := StitchCuts(p, plan, cuts);
    r := DecimateByDistance(Pinned(stitched, distM, plan.core.lapMs), maxPoints);
  }

  // ------------------------------------------------------------------------------------------
  // A slice is in order
  // ------------------------------------------------------------------------------------------

  /** A trace neither of whose axes goes back. */
  ghost predicate Monotone(trace: seq<TracePoint>) {
    forall i, j {:trigger NotAfter(trace[i], trace[j])} :: 0 <= i <= j < |trace| ==> NotAfter(trace[i], trace[j])
  }

  predicate NotAfter(p: TracePoint, q: TracePoint) {
    p.distM <= q.distM && p.elapsedMs <= q.elapsedMs
  }

  lemma MonotoneAscends(trace: seq<TracePoint>)
    ensures Monotone(trace) <==> TraceAscends(trace) && ElapsedAscends(trace)
  {
    if Monotone(trace) {
      forall i, j | 0 <= i <= j < |trace|
        ensures trace[i].distM <= trace[j].distM && trace[i].elapsedMs <= trace[j].elapsedMs
      {
        assert NotAfter(trace[i], trace[j]);
      }
    }
  }

  /** Every point lies between two distances and two times. */
  ghost predicate Within(ps: seq<TracePoint>, fromM: real, toM: real, fromMs: real, toMs: real) {
    forall q :: q in ps ==> Inside(q, fromM, toM, fromMs, toMs)
  }

  predicate Inside(q: TracePoint, fromM: real, toM: real, fromMs: real, toMs: real) {
    fromM <= q.distM <= toM && fromMs <= q.elapsedMs <= toMs
  }

  /** Two ordered runs, the second nowhere before the first. */
  lemma JoinedIsMonotone(a: seq<TracePoint>, b: seq<TracePoint>)
    requires Monotone(a) && Monotone(b) && forall p, q :: p in a && q in b ==> NotAfter(p, q)
    ensures Monotone(a + b)
  {
    var r := a + b;
    forall i, j | 0 <= i <= j < |r| ensures NotAfter(r[i], r[j]) {
      if j < |a| {
        assert NotAfter(a[i], a[j]);
      } else if |a| <= i {
        assert NotAfter(b[i - |a|], b[j - |a|]);
      } else {
        assert a[i] in a && b[j - |a|] in b;
      }
    }
  }

  lemma {:induction false} InteriorIsOrdered(trace: seq<TracePoint>, fromM: real, toM: real)
    requires Monotone(trace)
    ensures Monotone(Interior(trace, fromM, toM))
    ensures forall q :: q in Interior(trace, fromM, toM) ==> q in trace && fromM < q.distM < toM
  {
    if trace != [] {
      var n := |trace| - 1;
      PrefixIsMonotone(trace, n);
      InteriorIsOrdered(trace[..n], fromM, toM);
      forall q | q in trace[..n] ensures NotAfter(q, trace[n]) {
        var k :| 0 <= k < n && trace[k] == q;
        assert NotAfter(trace[k], trace[n]);
      }
      if fromM < trace[n].distM < toM {
        JoinedIsMonotone(Interior(trace[..n], fromM, toM), [trace[n]]);
      }
    }
  }

  lemma PrefixIsMonotone(trace: seq<TracePoint>, n: nat)
    requires Monotone(trace) && n <= |trace|
    ensures Monotone(trace[..n])
  {
    forall i, j | 0 <= i <= j < n ensures NotAfter(trace[..n][i], trace[..n][j]) {
      assert NotAfter(trace[i], trace[j]);
    }
  }

  /** A point read at a distance is no later than any stored point past it, and no earlier than any
      stored point short of it. */
  lemma PointAmongStored(trace: seq<TracePoint>, distM: real, j: nat)
    requires Monotone(trace) && j < |trace|
    ensures trace[j].distM > distM ==> PointAt(trace, distM).elapsedMs <= trace[j].elapsedMs
    ensures trace[j].distM < distM ==> PointAt(trace, distM).elapsedMs >= trace[j].elapsedMs
  {
    var keys, values := Dists(trace), Times(trace);
    MonotoneAscends(trace);
    AxesNeverFall(trace);
    LookupsReadAxes(trace, distM);
    if First(keys) < distM < Last(keys) {
      var i, t := OnHop(keys, values, distM);
      LerpBounds(values[i - 1], values[i], t);
      assert j < i ==> keys[j] < distM;
      assert j >= i ==> keys[i] <= keys[j];
    }
  }

  lemma SliceIsWithin(trace: seq<TracePoint>, fromM: real, toM: real) returns (a: TracePoint, b: TracePoint)
    requires trace != [] && Monotone(trace) && trace[0].distM <= fromM <= toM <= trace[|trace| - 1].distM
    ensures a == PointAt(trace, fromM) && b == PointAt(trace, toM)
    ensures a.distM == fromM && b.distM == toM && a.elapsedMs <= b.elapsedMs
    ensures Within(Interior(trace, fromM, toM), fromM, toM, a.elapsedMs, b.elapsedMs)
  {
    MonotoneAscends(trace);
    a, b := PointAt(trace, fromM), PointAt(trace, toM);
    PointIsWhereAsked(trace, fromM);
    PointIsWhereAsked(trace, toM);
    LookupsAscend(trace, fromM, toM);
    InteriorIsOrdered(trace, fromM, toM);
    forall q | q in Interior(trace, fromM, toM)
      ensures Inside(q, fromM, toM, a.elapsedMs, b.elapsedMs)
    {
      var j :| 0 <= j < |trace| && trace[j] == q;
      PointAmongStored(trace, fromM, j);
      PointAmongStored(trace, toM, j);
    }
  }

  lemma FramedIsOrdered(a: TracePoint, inner: seq<TracePoint>, b: TracePoint)
    requires Monotone(inner) && a.distM <= b.distM && a.elapsedMs <= b.elapsedMs
    requires Within(inner, a.distM, b.distM, a.elapsedMs, b.elapsedMs)
    ensures Monotone([a] + inner + [b]) && Within([a] + inner + [b], a.distM, b.distM, a.elapsedMs, b.elapsedMs)
  {
    JoinedIsMonotone([a], inner);
    JoinedIsMonotone([a] + inner, [b]);
  }

  /** A cut whose slice runs forward, from one boundary to the other. */
  ghost predicate Forward(cut: Cut) {
    && cut.fromM <= cut.toM && cut.start.elapsedMs <= cut.end.elapsedMs && cut.sectorMs >= 0
    && Monotone(Slice(cut)) && Within(Slice(cut), cut.fromM, cut.toM, cut.start.elapsedMs, cut.end.elapsedMs)
  }

  lemma CutIsForward(trace: seq<TracePoint>, fromM: real, toM: real, sectorMs: int) returns (cut: Cut)
    requires trace != [] && Monotone(trace) && trace[0].distM <= fromM <= toM <= trace[|trace| - 1].distM
             && sectorMs >= 0
    ensures cut == CutBetween(trace, fromM, toM, sectorMs) && Forward(cut)
  {
    var a, b := SliceIsWithin(trace, fromM, toM);
    InteriorIsOrdered(trace, fromM, toM);
    FramedIsOrdered(a, Interior(trace, fromM, toM), b);
    cut := Cut(a, Interior(trace, fromM, toM), b, fromM, toM, sectorMs);
  }

  // ------------------------------------------------------------------------------------------
  // Placing a slice keeps its order
  // ------------------------------------------------------------------------------------------

  lemma PlaceMonotone(p: TracePoint, q: TracePoint, at: Placement)
    requires NotAfter(p, q) && at.scale >= 0.0
    ensures NotAfter(Place(p, at), Place(q, at))
  {
    RoundToMonotone(at.cumulativeM + (p.distM - at.fromM), at.cumulativeM + (q.distM - at.fromM), 10.0);
    ScaleMonotone(p.elapsedMs - at.startMs, q.elapsedMs - at.startMs, at.scale);
    RoundMonotone(at.cumulativeMs as real + Stretched(p.elapsedMs, at),
                  at.cumulativeMs as real + Stretched(q.elapsedMs, at));
  }

  lemma ScaleMonotone(x: real, y: real, scale: real)
    requires x <= y && scale >= 0.0
    ensures x * scale <= y * scale
  {
    MulNonNegative(y - x, scale);
  }

  /** Stretched to the sector's own time, the whole span takes no more than that time. */
  lemma StretchBounds(x: real, spanMs: real, sectorMs: int)
    requires 0.0 <= x <= spanMs && sectorMs >= 0
    ensures var scale := sectorMs as real / OrOneMs(spanMs); scale >= 0.0 && 0.0 <= x * scale <= sectorMs as real
  {
    var span := OrOneMs(spanMs);
    var scale := sectorMs as real / span;
    DivMonotone(0.0, sectorMs as real, span);
    MulNonNegative(x, scale);
    ScaleMonotone(x, span, scale);
    assert span * scale == sectorMs as real by {
      assert scale * span == sectorMs as real;
    }
  }

  lemma PlaceBounds(q: TracePoint, at: Placement, toM: real, endMs: real, sectorMs: int)
    requires at.fromM <= q.distM <= toM && at.startMs <= q.elapsedMs <= endMs && sectorMs >= 0
    requires at.scale == sectorMs as real / OrOneMs(endMs - at.startMs)
    ensures Inside(Place(q, at), RoundTo(at.cumulativeM, 10.0), RoundTo(at.cumulativeM + (toM - at.fromM), 10.0),
                   at.cumulativeMs as real, (at.cumulativeMs + sectorMs) as real)
  {
    RoundToMonotone(at.cumulativeM, at.cumulativeM + (q.distM - at.fromM), 10.0);
    RoundToMonotone(at.cumulativeM + (q.distM - at.fromM), at.cumulativeM + (toM - at.fromM), 10.0);
    StretchBounds(q.elapsedMs - at.startMs, endMs - at.startMs, sectorMs);
    RoundBetween(at.cumulativeMs, Stretched(q.elapsedMs, at), sectorMs);
  }

  lemma RoundBetween(base: int, x: real, top: int)
    requires 0.0 <= x <= top as real
    ensures base <= Round(base as real + x) <= base + top
  {
    RoundMonotone(base as real, base as real + x);
    RoundMonotone(base as real + x, (base + top) as real);
    RoundOfInt(base);
    RoundOfInt(base + top);
  }

  lemma PlacedIsOrdered(slice: seq<TracePoint>, at: Placement, toM: real, endMs: real, sectorMs: int)
    requires Monotone(slice) && Within(slice, at.fromM, toM, at.startMs, endMs) && at.startMs <= endMs && sectorMs >= 0
    requires at.scale == sectorMs as real / OrOneMs(endMs - at.startMs)
    ensures Monotone(PlaceAll(slice, at))
    ensures Within(PlaceAll(slice, at), RoundTo(at.cumulativeM, 10.0), RoundTo(at.cumulativeM + (toM - at.fromM), 10.0),
                   at.cumulativeMs as real, (at.cumulativeMs + sectorMs) as real)
  {
    var r := PlaceAll(slice, at);
    StretchBounds(0.0, endMs - at.startMs, sectorMs);
    forall i, j | 0 <= i <= j < |r| ensures NotAfter(r[i], r[j]) {
      assert NotAfter(slice[i], slice[j]);
      PlaceMonotone(slice[i], slice[j], at);
    }
    forall q | q in r
      ensures Inside(q, RoundTo(at.cumulativeM, 10.0), RoundTo(at.cumulativeM + (toM - at.fromM), 10.0),
                     at.cumulativeMs as real, (at.cumulativeMs + sectorMs) as real)
    {
      var i :| 0 <= i < |r| && r[i] == q;
      assert slice[i] in slice;
      assert Inside(slice[i], at.fromM, toM, at.startMs, endMs);
      PlaceBounds(slice[i], at, toM, endMs, sectorMs);
    }
  }

  // ------------------------------------------------------------------------------------------
  // Sector boundaries
  // ------------------------------------------------------------------------------------------

  /** A lap a sector can be cut from: a trace that never goes back, and splits that are not negative.
      Without a split for every sector the cut is by fraction, and the trace must open at 0. */
  ghost predicate Sliceable(lap: ContributingLap, sectorCount: nat) {
    && |lap.points| >= 2 && Monotone(lap.points)
    && (forall i :: 0 <= i < |lap.sectorMs| ==> lap.sectorMs[i] >= 0)
    && (|lap.sectorMs| != sectorCount ==> lap.points[0].distM == 0.0)
  }

  lemma SumGrows(ms: seq<int>, k: nat)
    requires k < |ms| && ms[k] >= 0
    ensures Sum(ms[..k]) <= Sum(ms[..k + 1])
  {
    assert ms[..k + 1][..k] == ms[..k];
  }

  lemma EqualBoundaries(lap: ContributingLap, k: nat, sectorCount: nat)
    requires Sliceable(lap, sectorCount) && k < sectorCount && |lap.sectorMs| != sectorCount
    ensures lap.points[0].distM <= Boundary(lap, k, sectorCount) <= Boundary(lap, k + 1, sectorCount)
            <= lap.points[|lap.points| - 1].distM
  {
    assert NotAfter(lap.points[0], lap.points[|lap.points| - 1]);
    FractionsAscend(lap.points[|lap.points| - 1].distM, k, k + 1, sectorCount);
  }

  lemma SplitBoundaries(lap: ContributingLap, k: nat, sectorCount: nat)
    requires Sliceable(lap, sectorCount) && k < sectorCount && |lap.sectorMs| == sectorCount
    ensures lap.points[0].distM <= Boundary(lap, k, sectorCount) <= Boundary(lap, k + 1, sectorCount)
            <= lap.points[|lap.points| - 1].distM
  {
    MonotoneAscends(lap.points);
    SumGrows(lap.sectorMs, k);
    LookupsAscend(lap.points, Sum(lap.sectorMs[..k]) as real, Sum(lap.sectorMs[..k + 1]) as real);
  }

  lemma BoundariesAscend(lap: ContributingLap, k: nat, sectorCount: nat)
    requires Sliceable(lap, sectorCount) && k < sectorCount
    ensures lap.points[0].distM <= Boundary(lap, k, sectorCount) <= Boundary(lap, k + 1, sectorCount)
            <= lap.points[|lap.points| - 1].distM
  {
    if |lap.sectorMs| != sectorCount {
      EqualBoundaries(lap, k, sectorCount);
    } else {
      SplitBoundaries(lap, k, sectorCount);
    }
  }

  // ------------------------------------------------------------------------------------------
  // The stitched trace is in order
  // ------------------------------------------------------------------------------------------

  ghost predicate AllSliceable(sectors: seq<BestSector>, laps: map<int, ContributingLap>) {
    && Usable(sectors, laps)
    && forall k :: 0 <= k < |sectors| ==> sectors[k].sectorMs >= 0 && Sliceable(laps[sectors[k].lapNumber], |sectors|)
  }

  ghost predicate AllForward(cuts: seq<Cut>) {
    forall k :: 0 <= k < |cuts| ==> Forward(cuts[k])
  }

  lemma CutOfIsForward(lap: ContributingLap, k: nat, sectorCount: nat, sectorMs: int) returns (cut: Cut)
    requires Sliceable(lap, sectorCount) && k < sectorCount && sectorMs >= 0
    ensures cut == CutBetween(lap.points, Boundary(lap, k, sectorCount), Boundary(lap, k + 1, sectorCount), sectorMs)
    ensures Forward(cut)
  {
    BoundariesAscend(lap, k, sectorCount);
    cut := CutIsForward(lap.points, Boundary(lap, k, sectorCount), Boundary(lap, k + 1, sectorCount), sectorMs);
  }

  lemma CutsAreForward(sectors: seq<BestSector>, laps: map<int, ContributingLap>)
    requires AllSliceable(sectors, laps)
    ensures AllForward(Cuts(sectors, laps))
  {
    forall k | 0 <= k < |sectors| ensures Forward(CutOf(sectors, laps, k)) {
      var cut := CutOfIsForward(laps[sectors[k].lapNumber], k, |sectors|, sectors[k].sectorMs);
    }
  }

  lemma JoinedIsOrdered(a: seq<TracePoint>, b: seq<TracePoint>, lo: real, mid: real, hi: real, midMs: real, hiMs: real)
    requires Monotone(a) && Monotone(b) && lo <= mid <= hi && 0.0 <= midMs <= hiMs
    requires Within(a, lo, mid, 0.0, midMs) && Within(b, mid, hi, midMs, hiMs)
    ensures Monotone(a + b) && Within(a + b, lo, hi, 0.0, hiMs)
  {
    forall p, q | p in a && q in b ensures NotAfter(p, q) {
      assert Inside(p, lo, mid, 0.0, midMs) && Inside(q, mid, hi, midMs, hiMs);
    }
    JoinedIsMonotone(a, b);
    forall q | q in a + b ensures Inside(q, lo, hi, 0.0, hiMs) {
      if q in a {
        assert Inside(q, lo, mid, 0.0, midMs);
      } else {
        assert Inside(q, mid, hi, midMs, hiMs);
      }
    }
  }

  /** What holds after every sector. */
  ghost predicate InOrderTo(points: seq<TracePoint>, distM: real, elapsedMs: int) {
    && Monotone(points) && 0.0 <= distM && 0 <= elapsedMs
    && Within(points, 0.0, RoundTo(distM, 10.0), 0.0, elapsedMs as real)
  }

  lemma PlacedCut(cut: Cut, distM: real, elapsedMs: int) returns (placed: seq<TracePoint>)
    requires Forward(cut)
    ensures placed == PlaceCut(cut, distM, elapsedMs) && Monotone(placed)
    ensures Within(placed, RoundTo(distM, 10.0), RoundTo(distM + (cut.toM - cut.fromM), 10.0),
                   elapsedMs as real, (elapsedMs + cut.sectorMs) as real)
  {
    var at := PlacementOf(cut, distM, elapsedMs);
    placed := PlaceAll(Slice(cut), at);
    PlacedIsOrdered(Slice(cut), at, cut.toM, cut.end.elapsedMs, cut.sectorMs);
  }

  lemma AddedInOrder(points: seq<TracePoint>, distM: real, elapsedMs: int, cut: Cut)
    returns (next: seq<TracePoint>, nextM: real)
    requires InOrderTo(points, distM, elapsedMs) && Forward(cut)
    ensures next == points + PlaceCut(cut, distM, elapsedMs) && nextM == distM + (cut.toM - cut.fromM)
    ensures InOrderTo(next, nextM, elapsedMs + cut.sectorMs)
  {
    var placed := PlacedCut(cut, distM, elapsedMs);
    next, nextM := points + placed, distM + (cut.toM - cut.fromM);
    RoundToMonotone(0.0, distM, 10.0);
    RoundToMonotone(distM, nextM, 10.0);
    JoinedIsOrdered(points, placed, 0.0, RoundTo(distM, 10.0), RoundTo(nextM, 10.0),
                    elapsedMs as real, (elapsedMs + cut.sectorMs) as real);
  }

  lemma {:induction false} StitchInOrder(cuts: seq<Cut>, k: nat)
    returns (points: seq<TracePoint>, distM: real, elapsedMs: int)
    requires AllForward(cuts) && k <= |cuts|
    ensures points == PointsTo(cuts, k) && distM == CoveredM(cuts, k) && elapsedMs == ElapsedTo(cuts, k)
    ensures InOrderTo(points, distM, elapsedMs)
  {
    if k == 0 {
      RoundOfInt(0);
      points, distM, elapsedMs := [], 0.0, 0;
    } else {
      var before, beforeM, beforeMs := StitchInOrder(cuts, k - 1);
      points, distM := AddedInOrder(before, beforeM, beforeMs, cuts[k - 1]);
      elapsedMs := beforeMs + cuts[k - 1].sectorMs;
    }
  }

  function CutMs(cuts: seq<Cut>): (r: seq<int>)
    ensures |r| == |cuts| && forall k :: 0 <= k < |r| ==> r[k] == cuts[k].sectorMs
  {
    seq(|cuts|, k requires 0 <= k < |cuts| => cuts[k].sectorMs)
  }

  lemma {:induction false} ElapsedIsSum(cuts: seq<Cut>, k: nat)
    requires k <= |cuts|
    ensures ElapsedTo(cuts, k) == Sum(CutMs(cuts)[..k])
  {
    if k > 0 {
      ElapsedIsSum(cuts, k - 1);
      assert CutMs(cuts)[..k][..k - 1] == CutMs(cuts)[..k - 1];
    }
  }

  lemma {:induction false} AllElapsed(cuts: seq<Cut>)
    ensures ElapsedTo(cuts, |cuts|) == Sum(CutMs(cuts))
  {
    ElapsedIsSum(cuts, |cuts|);
    assert CutMs(cuts)[..|cuts|] == CutMs(cuts);
  }

  lemma PinnedInOrder(points: seq<TracePoint>, distM: real, lapMs: int)
    requires points != [] && Monotone(points) && Within(points, 0.0, RoundTo(distM, 10.0), 0.0, lapMs as real)
    ensures var r := Pinned(points, distM, lapMs);
            && Monotone(r) && |r| == |points|
            && r[|r| - 1].distM == RoundTo(distM, 10.0) && r[|r| - 1].elapsedMs == lapMs as real
  {
    var n := |points| - 1;
    var last := points[n].(distM := RoundTo(distM, 10.0), elapsedMs := lapMs as real);
    PrefixIsMonotone(points, n);
    forall q | q in points[..n] ensures NotAfter(q, last) {
      assert q in points;
      assert Inside(q, 0.0, RoundTo(distM, 10.0), 0.0, lapMs as real);
    }
    JoinedIsMonotone(points[..n], [last]);
  }

  lemma StitchedCuts(cuts: seq<Cut>, lapMs: int, maxPoints: int) returns (r: seq<TracePoint>)
    requires cuts != [] && AllForward(cuts) && lapMs == Sum(CutMs(cuts))
    ensures r == Decimate(Pinned(PointsTo(cuts, |cuts|), CoveredM(cuts, |cuts|), lapMs), maxPoints)
    ensures r != [] && TraceAscends(r) && ElapsedAscends(r)
    ensures r[|r| - 1].elapsedMs == lapMs as real && r[|r| - 1].distM == RoundTo(CoveredM(cuts, |cuts|), 10.0)
  {
    var points, distM, elapsedMs := StitchInOrder(cuts, |cuts|);
    AllElapsed(cuts);
    SomePoints(cuts, |cuts|);
    PinnedInOrder(points, distM, lapMs);
    var pinned := Pinned(points, distM, lapMs);
    MonotoneAscends(pinned);
    DecimateKeepsOrder(pinned, maxPoints);
    r := Decimate(pinned, maxPoints);
  }

  lemma {:induction false} SomePoints(cuts: seq<Cut>, k: nat)
    requires 0 < k <= |cuts|
    ensures PointsTo(cuts, k) != []
  {}

  /** **The stitched trace never goes back on either axis, ends exactly at the optimal lap's time, and
      covers the sum of its slices.** */
  lemma StitchedIsALap(core: OptimalLapCore, laps: map<int, ContributingLap>, maxPoints: int)
    requires core.sectors != [] && AllSliceable(core.sectors, laps) && core.lapMs == Sum(SectorMs(core.sectors))
    ensures var r := Stitched(core, laps, maxPoints);
            && r != [] && TraceAscends(r) && ElapsedAscends(r)
            && r[|r| - 1].elapsedMs == core.lapMs as real
            && r[|r| - 1].distM == RoundTo(CoveredM(Cuts(core.sectors, laps), |core.sectors|), 10.0)
  {
    var cuts := Cuts(core.sectors, laps);
    CutsAreForward(core.sectors, laps);
    assert CutMs(cuts) == SectorMs(core.sectors);
    var r := StitchedCuts(cuts, core.lapMs, maxPoints);
  }

  lemma WholeSpan(x: real, spanMs: real)
    ensures 0.0 * (x / OrOneMs(spanMs)) == 0.0
    ensures spanMs * (x / OrOneMs(spanMs)) == if spanMs == 0.0 then 0.0 else x
  {
    assert x / OrOneMs(spanMs) * OrOneMs(spanMs) == x;
  }

  /** A slice starts where the sectors before it end, and ends where its own does unless its trace takes no time
      over it. */
  lemma PlacedEnds(cut: Cut, distM: real, elapsedMs: int)
    ensures var r := PlaceCut(cut, distM, elapsedMs);
            && |r| >= 2 && r[0].elapsedMs == elapsedMs as real
            && r[|r| - 1].elapsedMs
               == (if cut.start.elapsedMs == cut.end.elapsedMs then elapsedMs else elapsedMs + cut.sectorMs) as real
  {
    var at, spanMs := PlacementOf(cut, distM, elapsedMs), cut.end.elapsedMs - cut.start.elapsedMs;
    WholeSpan(cut.sectorMs as real, spanMs);
    RoundOfInt(elapsedMs);
    RoundOfInt(elapsedMs + cut.sectorMs);
    assert elapsedMs as real + cut.sectorMs as real == (elapsedMs + cut.sectorMs) as real;
    assert Stretched(cut.start.elapsedMs, at) == 0.0;
    assert Stretched(cut.end.elapsedMs, at) == if spanMs == 0.0 then 0.0 else cut.sectorMs as real;
  }

  /** **Every sector lasts exactly its own time in the stitched points**: a slice runs from the sum of the sectors
      before it, and to the sum with its own exactly when its trace takes some time over it, or the sector none. */
  lemma SectorsLastTheirTime(cuts: seq<Cut>, k: nat)
    requires k < |cuts|
    ensures var before, points := PointsTo(cuts, k), PointsTo(cuts, k + 1);
            && |before| + 2 <= |points| && points[..|before|] == before
            && points[|before|].elapsedMs == Sum(CutMs(cuts)[..k]) as real
            && (points[|points| - 1].elapsedMs == Sum(CutMs(cuts)[..k + 1]) as real
                <==> cuts[k].start.elapsedMs != cuts[k].end.elapsedMs || cuts[k].sectorMs == 0)
  {
    PlacedEnds(cuts[k], CoveredM(cuts, k), ElapsedTo(cuts, k));
    ElapsedIsSum(cuts, k);
    ElapsedIsSum(cuts, k + 1);
  }

  /** A plan put together from best sectors is the sum of its sectors, each taking some time. */
  lemma PlansAddUp(inputs: seq<OptimalLapInput>, sectorCount: nat)
    requires sectorCount > 0 && Best(Laps(inputs), sectorCount).Some?
    ensures var core := Best(Laps(inputs), sectorCount).value;
            && |core.sectors| == sectorCount && core.lapMs == Sum(SectorMs(core.sectors))
            && forall k :: 0 <= k < |core.sectors| ==> core.sectors[k].sectorMs > 0
  {
    forall k | 0 <= k < sectorCount ensures Best(Laps(inputs), sectorCount).value.sectors[k].sectorMs > 0 {
      var w := SectorsAreTrueMinima(Laps(inputs), sectorCount, k);
    }
  }

  /** All or nothing: there is no trace exactly when a lap that set a sector has no readable one. */
  lemma NothingWhenUnreadable(core: OptimalLapCore, laps: map<int, ContributingLap>, maxPoints: int)
    requires core.sectors != []
    ensures Stitched(core, laps, maxPoints) == []
            <==> exists k :: 0 <= k < |core.sectors| && !Readable(laps, core.sectors[k].lapNumber)
  {
    if Usable(core.sectors, laps) {
      var cuts := Cuts(core.sectors, laps);
      SomePoints(cuts, |cuts|);
      DecimateKeepsOrder(Pinned(PointsTo(cuts, |cuts|), CoveredM(cuts, |cuts|), core.lapMs), maxPoints);
    }
  }

  ghost predicate Spans(cuts: seq<Cut>, edges: seq<real>, k: nat)
    requires k < |cuts| && |edges| == |cuts| + 1
  {
    cuts[k].toM - cuts[k].fromM == edges[k + 1] - edges[k]
  }

  /** Cuts that meet end to end cover the distance between the outer two edges. */
  lemma {:induction false} MeetingCutsCover(cuts: seq<Cut>, edges: seq<real>, k: nat)
    requires |edges| == |cuts| + 1 && k <= |cuts|
    requires forall i {:trigger Spans(cuts, edges, i)} :: 0 <= i < |cuts| ==> Spans(cuts, edges, i)
    ensures CoveredM(cuts, k) == edges[k] - edges[0]
  {
    if k > 0 {
      MeetingCutsCover(cuts, edges, k - 1);
      assert Spans(cuts, edges, k - 1);
    }
  }

  lemma LapEdges(lap: ContributingLap, n: nat) returns (edges: seq<real>)
    requires Sliceable(lap, n) && n > 0
    ensures |edges| == n + 1 && forall k :: 0 <= k <= n ==> edges[k] == Boundary(lap, k, n)
    ensures edges[0] == lap.points[0].distM && edges[n] == lap.points[|lap.points| - 1].distM
  {
    edges := seq(n + 1, k requires 0 <= k <= n => Boundary(lap, k, n));
    OuterBoundaries(lap, n);
  }

  /** **When one lap set every sector the slices cover that lap's own length.** */
  lemma {:induction false} OneLapIsCovered(sectors: seq<BestSector>, laps: map<int, ContributingLap>,
                                           lap: ContributingLap)
    requires AllSliceable(sectors, laps) && sectors != [] && lap.points != []
    requires forall i :: 0 <= i < |sectors| ==> laps[sectors[i].lapNumber] == lap
    ensures CoveredM(Cuts(sectors, laps), |sectors|) == lap.points[|lap.points| - 1].distM - lap.points[0].distM
  {
    assert Sliceable(laps[sectors[0].lapNumber], |sectors|);
    var cuts := Cuts(sectors, laps);
    var edges := LapEdges(lap, |sectors|);
    forall k | 0 <= k < |cuts| ensures Spans(cuts, edges, k) {
      assert cuts[k] == CutOf(sectors, laps, k);
    }
    MeetingCutsCover(cuts, edges, |cuts|);
  }

  lemma OuterBoundaries(lap: ContributingLap, n: nat)
    requires Sliceable(lap, n) && n > 0
    ensures Boundary(lap, 0, n) == lap.points[0].distM && Boundary(lap, n, n) == lap.points[|lap.points| - 1].distM
  {
    FractionEnds(lap.points[|lap.points| - 1].distM, n);
  }

  lemma FractionEnds(totalM: real, n: nat)
    requires n > 0
    ensures FractionM(totalM, 0, n) == 0.0 && FractionM(totalM, n, n) == totalM
  {
    MulDiv(totalM, n as real);
  }

  // ------------------------------------------------------------------------------------------
  // Seams
  // ------------------------------------------------------------------------------------------

  lemma EndsAtJoin(points: seq<TracePoint>, cut: Cut, distM: real, elapsedMs: int)
    ensures var r := points + PlaceCut(cut, distM, elapsedMs);
            r != [] && r[|r| - 1].lat == cut.end.lat && r[|r| - 1].lon == cut.end.lon
  {}

  /** The seam between cut `k` and the next: the positions of the two laps at that join. */
  function SeamAt(p: Plane, cuts: seq<Cut>, k: nat): Seam
    requires k + 1 < |cuts|
  {
    SeamOf(p, cuts[k].end, cuts[k + 1].start, CoveredM(cuts, k + 1))
  }

  lemma NextSeam(p: Plane, cuts: seq<Cut>, k: nat)
    requires 0 < k < |cuts|
    ensures SeamsTo(p, cuts, k + 1) == SeamsTo(p, cuts, k) + [SeamAt(p, cuts, k - 1)]
  {
    EndsAtJoin(PointsTo(cuts, k - 1), cuts[k - 1], CoveredM(cuts, k - 1), ElapsedTo(cuts, k - 1));
  }

  function SeamsAt(p: Plane, cuts: seq<Cut>): (r: seq<Seam>)
    requires cuts != []
    ensures |r| == |cuts| - 1 && forall k :: 0 <= k < |r| ==> r[k] == SeamAt(p, cuts, k)
  {
    seq(|cuts| - 1, k requires 0 <= k < |cuts| - 1 => SeamAt(p, cuts, k))
  }

  lemma {:induction false} FirstHasNoSeam(p: Plane, cuts: seq<Cut>)
    requires cuts != []
    ensures SeamsTo(p, cuts, 1) == []
  {
    assert PointsTo(cuts, 0) == [] && SeamsTo(p, cuts, 0) == [];
  }

  /** List `k + 1` is list `k` with seam `k - 1` added. */
  ghost predicate OneMore(lists: seq<seq<Seam>>, seams: seq<Seam>, k: nat)
    requires 0 < k < |lists| - 1 && |lists| == |seams| + 2
  {
    lists[k + 1] == lists[k] + [seams[k - 1]]
  }

  lemma {:induction false} SeamsListed(lists: seq<seq<Seam>>, seams: seq<Seam>, k: nat)
    requires 0 < k < |lists| == |seams| + 2 && lists[1] == []
    requires forall i {:trigger OneMore(lists, seams, i)} :: 0 < i < |lists| - 1 ==> OneMore(lists, seams, i)
    ensures lists[k] == seams[..k - 1]
  {
    if k > 1 {
      SeamsListed(lists, seams, k - 1);
      assert OneMore(lists, seams, k - 1);
    }
  }

  lemma {:induction false} SeamsAreAtJoins(p: Plane, cuts: seq<Cut>)
    requires cuts != []
    ensures SeamsTo(p, cuts, |cuts|) == SeamsAt(p, cuts)
  {
    var lists := seq(|cuts| + 1, k requires 0 <= k <= |cuts| => SeamsTo(p, cuts, k));
    var seams := SeamsAt(p, cuts);
    FirstHasNoSeam(p, cuts);
    forall i | 0 < i < |cuts| ensures OneMore(lists, seams, i) {
      NextSeam(p, cuts, i);
    }
    SeamsListed(lists, seams, |cuts|);
    assert seams[..|cuts| - 1] == seams;
  }

  lemma SamePlaceNoGap(p: Plane, lat: real, lon: real)
    requires Sound(p)
    ensures RoundTo(DistanceM(p, lat, lon, lat, lon), 100.0) == 0.0
  {
    var d := DistanceM(p, lat, lon, lat, lon);
    NoSpan(lon, p.mLon((lat + lat) / 2.0));
    assert d == p.hypot(0.0, 0.0);
    RootOfZero(d);
    RoundOfInt(0);
  }

  lemma NoSpan(x: real, m: real)
    ensures (x - x) * m == 0.0
  {}

  lemma ZeroProduct(x: real, y: real)
    requires x > 0.0 && x * y == 0.0
    ensures y == 0.0
  {
    assert y == (x * y) / x;
  }

  lemma RootOfZero(d: real)
    requires d >= 0.0 && d * d == 0.0
    ensures d == 0.0
  {
    if d > 0.0 {
      ZeroProduct(d, d);
    }
  }

  /** **There is one seam for each interior join, at the distance covered so far, its gap measured
      between the two laps' own positions there; neighbours from the same lap have none.** */
  lemma SeamsMeasureJoins(p: Plane, core: OptimalLapCore, laps: map<int, ContributingLap>)
    requires Sound(p) && core.sectors != [] && Usable(core.sectors, laps)
    ensures var seams, cuts := Seams(p, core, laps), Cuts(core.sectors, laps);
            && |seams| == |core.sectors| - 1
            && (forall k :: 0 <= k < |seams| ==> seams[k] == SeamAt(p, cuts, k))
            && (forall k :: 0 <= k < |seams| && core.sectors[k].lapNumber == core.sectors[k + 1].lapNumber ==>
                seams[k].gapM == 0.0)
  {
    var cuts := Cuts(core.sectors, laps);
    SeamsAreAtJoins(p, cuts);
    forall k | 0 <= k < |core.sectors| - 1 && core.sectors[k].lapNumber == core.sectors[k + 1].lapNumber
      ensures SeamAt(p, cuts, k).gapM == 0.0
    {
      SameLapMeets(core.sectors, laps, k);
      SamePlaceNoGap(p, cuts[k].end.lat, cuts[k].end.lon);
    }
  }

  lemma SameLapMeets(sectors: seq<BestSector>, laps: map<int, ContributingLap>, k: nat)
    requires Usable(sectors, laps) && k + 1 < |sectors| && sectors[k].lapNumber == sectors[k + 1].lapNumber
    ensures Cuts(sectors, laps)[k].end == Cuts(sectors, laps)[k + 1].start
  {}
}
