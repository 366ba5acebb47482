/** What `stitchOptimalTrace` of `optimal-lap.ts` puts together: which stored points, where, and at what times. */
module StitchedPoints {
  import opened SampleMath
  import opened Analysis
  import opened Geo
  import opened Sectors
  import opened Decimation
  import opened TraceLookup
  import opened OptimalLapCore
  import opened OptimalLap
  import opened StitchedTrace

  /** Sector `k` of `n` starts along its lap at the end of the sectors before it: at the trace's own ends, where the
      lap's splits say, or at an equal fraction of its distance when it has no complete split set. */
  ghost predicate StartsAt(lap: ContributingLap, k: nat, n: nat, atM: real)
    requires lap.points != [] && k <= n
  {
    var lapM := lap.points[|lap.points| - 1].distM;
    if |lap.sectorMs| != n then atM * (n as real) == lapM * (k as real)
    else if k == 0 then atM == lap.points[0].distM
    else if k == n then atM == lapM
    else ReachedAt(lap.points, Sum(lap.sectorMs[..k]) as real, atM)
  }

  /** A sector's slice: the part of its lap, where it goes, the stored points it keeps and the points it becomes. */
  datatype Sliced = Sliced(fromM: real, toM: real, startM: real, startMs: int, kept: seq<nat>,
                           points: seq<TracePoint>)

  /** The positions strictly between two distances, in order. */
  ghost predicate Keeps(points: seq<TracePoint>, fromM: real, toM: real, kept: seq<nat>) {
    && (forall i, j :: 0 <= i < j < |kept| ==> kept[i] < kept[j])
    && forall i: nat :: i in kept <==> i < |points| && fromM < points[i].distM < toM
  }

  /** A stretch of time drawn out so that its whole span takes the sector's time. */
  ghost function StretchedMs(ms: real, spanMs: real, sectorMs: int): real {
    if spanMs == 0.0 then ms * (sectorMs as real) else ms * (sectorMs as real) / spanMs
  }

  ghost predicate IsWhole(wholeMs: real, ms: real) {
    exists n :: IsNearest(n, ms) && wholeMs == n as real
  }

  /** A slice's point where it goes: as far into the slice, to the tenth of a metre, and at its stretched time, to the
      millisecond; otherwise as stored. */
  ghost predicate IsPlaced(q: TracePoint, p: TracePoint, s: Sliced, openMs: real, closeMs: real, sectorMs: int) {
    && q == p.(distM := q.distM, elapsedMs := q.elapsedMs)
    && IsRoundedTo(q.distM, s.startM + (p.distM - s.fromM), 10.0)
    && IsWhole(q.elapsedMs, s.startMs as real + StretchedMs(p.elapsedMs - openMs, closeMs - openMs, sectorMs))
  }

  /** The stored or interpolated point the `i`-th of a slice comes from. */
  ghost function Source(points: seq<TracePoint>, s: Sliced, i: nat): TracePoint
    requires points != [] && Keeps(points, s.fromM, s.toM, s.kept) && i < |s.kept| + 2
  {
    if i == 0 then PointAt(points, s.fromM)
    else if i == |s.kept| + 1 then PointAt(points, s.toM)
    else assert s.kept[i - 1] in s.kept; points[s.kept[i - 1]]
  }

  ghost predicate IsSliced(lap: ContributingLap, k: nat, n: nat, sectorMs: int, s: Sliced)
    requires lap.points != [] && k < n
  {
    && StartsAt(lap, k, n, s.fromM) && StartsAt(lap, k + 1, n, s.toM)
    && Keeps(lap.points, s.fromM, s.toM, s.kept) && |s.points| == |s.kept| + 2
    && forall i :: 0 <= i < |s.points| ==>
       IsPlaced(s.points[i], Source(lap.points, s, i), s, PointAt(lap.points, s.fromM).elapsedMs,
                PointAt(lap.points, s.toM).elapsedMs, sectorMs)
  }

  ghost predicate IsSectorSlice(sectors: seq<BestSector>, laps: map<int, ContributingLap>, k: nat, s: Sliced)
    requires Usable(sectors, laps) && k < |sectors|
  {
    IsSliced(laps[sectors[k].lapNumber], k, |sectors|, sectors[k].sectorMs, s)
  }

  /** It starts where and when the slice before it ends, the first at 0. */
  ghost predicate Follows(sectors: seq<BestSector>, slices: seq<Sliced>, k: nat)
    requires k < |sectors| == |slices|
  {
    if k == 0 then slices[0].startM == 0.0 && slices[0].startMs == 0
    else
      && slices[k].startM == slices[k - 1].startM + (slices[k - 1].toM - slices[k - 1].fromM)
      && slices[k].startMs == slices[k - 1].startMs + sectors[k - 1].sectorMs
  }

  /** Every sector's slice, one after another. */
  ghost predicate AreSlices(sectors: seq<BestSector>, laps: map<int, ContributingLap>, slices: seq<Sliced>)
    requires Usable(sectors, laps)
  {
    && |slices| == |sectors|
    && forall k {:trigger slices[k]} :: 0 <= k < |sectors| ==>
       IsSectorSlice(sectors, laps, k, slices[k]) && Follows(sectors, slices, k)
  }

  ghost function Joined(slices: seq<Sliced>): seq<TracePoint> {
    if slices == [] then [] else Joined(slices[..|slices| - 1]) + slices[|slices| - 1].points
  }

  // ------------------------------------------------------------------------------------------
  // One slice
  // ------------------------------------------------------------------------------------------

  lemma BoundaryIsStart(lap: ContributingLap, k: nat, n: nat)
    requires lap.points != [] && k <= n && n > 0
    ensures StartsAt(lap, k, n, Boundary(lap, k, n))
  {
    if |lap.sectorMs| != n {
      FractionTimes(lap.points[|lap.points| - 1].distM, k, n);
    } else if 0 < k < n {
      DistanceIsReached(lap.points, Sum(lap.sectorMs[..k]) as real);
    }
  }

  lemma FractionTimes(totalM: real, k: nat, n: nat)
    requires n > 0
    ensures FractionM(totalM, k, n) * (n as real) == totalM * (k as real)
  {}

  ghost predicate AreKept(points: seq<TracePoint>, kept: seq<nat>, inner: seq<TracePoint>) {
    |inner| == |kept| && forall i :: 0 <= i < |kept| ==> kept[i] < |points| && inner[i] == points[kept[i]]
  }

  ghost function Positions(points: seq<TracePoint>, fromM: real, toM: real): seq<nat> {
    if points == [] then [] else
      var n := |points| - 1;
      Positions(points[..n], fromM, toM) + (if fromM < points[n].distM < toM then [n] else [])
  }

  lemma {:induction false} InteriorIsKept(points: seq<TracePoint>, fromM: real, toM: real)
    ensures AreKept(points, Positions(points, fromM, toM), Interior(points, fromM, toM))
  {
    if points != [] {
      InteriorIsKept(points[..|points| - 1], fromM, toM);
    }
  }

  lemma {:induction false} PositionsKeep(points: seq<TracePoint>, fromM: real, toM: real)
    ensures Keeps(points, fromM, toM, Positions(points, fromM, toM))
  {
    if points != [] {
      var n := |points| - 1;
      PositionsKeep(points[..n], fromM, toM);
      KeepsNext(points, fromM, toM, Positions(points[..n], fromM, toM));
    }
  }

  lemma KeepsNext(points: seq<TracePoint>, fromM: real, toM: real, before: seq<nat>)
    requires points != [] && Keeps(points[..|points| - 1], fromM, toM, before)
    ensures var n := |points| - 1;
            Keeps(points, fromM, toM, before + (if fromM < points[n].distM < toM then [n] else []))
  {
    var n := |points| - 1;
    forall i: nat | i < n ensures i in before <==> fromM < points[i].distM < toM {
      assert points[i] == points[..n][i];
    }
    assert forall i :: 0 <= i < |before| ==> before[i] in before;
  }

  lemma RoundIsWhole(ms: real)
    ensures IsWhole(Round(ms) as real, ms)
  {
    RoundIsNearest(Round(ms), ms);
  }

  lemma StretchIs(startMs: int, ms: real, stretchedMs: real, spanMs: real, sectorMs: int)
    requires stretchedMs == ms * (sectorMs as real / OrOneMs(spanMs))
    ensures IsWhole(Round(startMs as real + stretchedMs) as real, startMs as real + StretchedMs(ms, spanMs, sectorMs))
  {
    RoundIsWhole(startMs as real + stretchedMs);
    assert stretchedMs == StretchedMs(ms, spanMs, sectorMs);
  }

  lemma PlaceIsPlaced(p: TracePoint, cut: Cut, s: Sliced, at: Placement)
    requires s.fromM == cut.fromM && at == PlacementOf(cut, s.startM, s.startMs)
    ensures IsPlaced(Place(p, at), p, s, cut.start.elapsedMs, cut.end.elapsedMs, cut.sectorMs)
  {
    RoundToIs(s.startM + (p.distM - s.fromM), 10.0);
    StretchIs(s.startMs, p.elapsedMs - cut.start.elapsedMs, Stretched(p.elapsedMs, at),
              cut.end.elapsedMs - cut.start.elapsedMs, cut.sectorMs);
  }

  ghost function SliceOfCut(points: seq<TracePoint>, cut: Cut, startM: real, startMs: int): Sliced {
    Sliced(cut.fromM, cut.toM, startM, startMs, Positions(points, cut.fromM, cut.toM), PlaceCut(cut, startM, startMs))
  }

  lemma CutIsPlaced(points: seq<TracePoint>, cut: Cut, s: Sliced, i: nat)
    requires points != [] && cut == CutBetween(points, cut.fromM, cut.toM, cut.sectorMs)
    requires s == SliceOfCut(points, cut, s.startM, s.startMs) && i < |s.points|
    ensures Keeps(points, s.fromM, s.toM, s.kept) && |s.points| == |s.kept| + 2
    ensures IsPlaced(s.points[i], Source(points, s, i), s, cut.start.elapsedMs, cut.end.elapsedMs, cut.sectorMs)
  {
    InteriorIsKept(points, cut.fromM, cut.toM);
    PositionsKeep(points, cut.fromM, cut.toM);
    assert Slice(cut)[i] == Source(points, s, i);
    PlaceIsPlaced(Slice(cut)[i], cut, s, PlacementOf(cut, s.startM, s.startMs));
  }

  lemma CutIsSliced(lap: ContributingLap, k: nat, n: nat, cut: Cut, startM: real, startMs: int)
    requires lap.points != [] && k < n
    requires cut == CutBetween(lap.points, Boundary(lap, k, n), Boundary(lap, k + 1, n), cut.sectorMs)
    ensures IsSliced(lap, k, n, cut.sectorMs, SliceOfCut(lap.points, cut, startM, startMs))
  {
    BoundaryIsStart(lap, k, n);
    BoundaryIsStart(lap, k + 1, n);
    var s := SliceOfCut(lap.points, cut, startM, startMs);
    CutIsPlaced(lap.points, cut, s, 0);
    forall i | 0 <= i < |s.points|
      ensures IsPlaced(s.points[i], Source(lap.points, s, i), s, cut.start.elapsedMs, cut.end.elapsedMs, cut.sectorMs)
    {
      CutIsPlaced(lap.points, cut, s, i);
    }
  }

  // ------------------------------------------------------------------------------------------
  // All of them
  // ------------------------------------------------------------------------------------------

  ghost function SliceOf(sectors: seq<BestSector>, laps: map<int, ContributingLap>, cuts: seq<Cut>, k: nat): Sliced
    requires Usable(sectors, laps) && k < |sectors| == |cuts|
  {
    SliceOfCut(laps[sectors[k].lapNumber].points, cuts[k], CoveredM(cuts, k), ElapsedTo(cuts, k))
  }

  ghost function Slices(sectors: seq<BestSector>, laps: map<int, ContributingLap>): (slices: seq<Sliced>)
    requires Usable(sectors, laps)
    ensures |slices| == |sectors|
    ensures forall k :: 0 <= k < |slices| ==> slices[k] == SliceOf(sectors, laps, Cuts(sectors, laps), k)
  {
    var cuts := Cuts(sectors, laps);
    seq(|sectors|, k requires 0 <= k < |sectors| => SliceOf(sectors, laps, cuts, k))
  }

  lemma SliceIsItsSectors(sectors: seq<BestSector>, laps: map<int, ContributingLap>, k: nat)
    requires Usable(sectors, laps) && k < |sectors|
    ensures IsSectorSlice(sectors, laps, k, SliceOf(sectors, laps, Cuts(sectors, laps), k))
  {
    var cuts := Cuts(sectors, laps);
    CutIsSliced(laps[sectors[k].lapNumber], k, |sectors|, cuts[k], CoveredM(cuts, k), ElapsedTo(cuts, k));
  }

  ghost predicate IsSliceOf(cuts: seq<Cut>, k: nat, s: Sliced)
    requires k < |cuts|
  {
    && s.fromM == cuts[k].fromM && s.toM == cuts[k].toM
    && s.startM == CoveredM(cuts, k) && s.startMs == ElapsedTo(cuts, k)
    && s.points == PlaceCut(cuts[k], CoveredM(cuts, k), ElapsedTo(cuts, k))
  }

  ghost predicate SlicesOf(cuts: seq<Cut>, slices: seq<Sliced>) {
    |slices| == |cuts| && forall k :: 0 <= k < |cuts| ==> IsSliceOf(cuts, k, slices[k])
  }

  lemma SliceFollows(sectors: seq<BestSector>, cuts: seq<Cut>, slices: seq<Sliced>, k: nat)
    requires k < |sectors| == |cuts| && SlicesOf(cuts, slices)
    requires k > 0 ==> cuts[k - 1].sectorMs == sectors[k - 1].sectorMs
    ensures Follows(sectors, slices, k)
  {
    assert IsSliceOf(cuts, k, slices[k]);
    if k > 0 {
      assert IsSliceOf(cuts, k - 1, slices[k - 1]);
    }
  }

  lemma SlicesAre(sectors: seq<BestSector>, laps: map<int, ContributingLap>) returns (slices: seq<Sliced>)
    requires Usable(sectors, laps)
    ensures AreSlices(sectors, laps, slices) && SlicesOf(Cuts(sectors, laps), slices)
  {
    slices := Slices(sectors, laps);
    assert SlicesOf(Cuts(sectors, laps), slices);
    forall k | 0 <= k < |sectors|
      ensures IsSectorSlice(sectors, laps, k, slices[k]) && Follows(sectors, slices, k)
    {
      SliceIsItsSectors(sectors, laps, k);
      SliceFollows(sectors, Cuts(sectors, laps), slices, k);
    }
  }

  lemma {:induction false} JoinedAre(cuts: seq<Cut>, slices: seq<Sliced>, k: nat)
    requires SlicesOf(cuts, slices) && k <= |cuts|
    ensures Joined(slices[..k]) == PointsTo(cuts, k)
  {
    if k > 0 {
      JoinedAre(cuts, slices, k - 1);
      assert slices[..k][..k - 1] == slices[..k - 1];
      assert IsSliceOf(cuts, k - 1, slices[k - 1]);
    }
  }

  lemma {:induction false} AllJoined(cuts: seq<Cut>, slices: seq<Sliced>)
    requires cuts != [] && SlicesOf(cuts, slices)
    ensures Joined(slices) == PointsTo(cuts, |cuts|)
    ensures var last := slices[|slices| - 1]; CoveredM(cuts, |cuts|) == last.startM + (last.toM - last.fromM)
  {
    var n := |cuts|;
    JoinedAre(cuts, slices, n);
    assert slices[..n] == slices && IsSliceOf(cuts, n - 1, slices[n - 1]);
  }

  /** The last point is at the whole distance and the lap's own time. */
  ghost predicate IsPinned(whole: seq<TracePoint>, joined: seq<TracePoint>, distM: real, lapMs: int) {
    && |whole| == |joined| > 0
    && var n := |whole| - 1;
       && (forall i :: 0 <= i < n ==> whole[i] == joined[i])
       && whole[n] == joined[n].(distM := whole[n].distM, elapsedMs := lapMs as real)
       && IsRoundedTo(whole[n].distM, distM, 10.0)
  }

  /** The seam where one slice ends and the next starts. */
  ghost predicate IsSeam(p: Plane, seam: Seam, end: TracePoint, start: TracePoint, atM: real) {
    && IsRoundedTo(seam.distM, atM, 10.0)
    && IsRoundedTo(seam.gapM, DistanceM(p, end.lat, end.lon, start.lat, start.lon), 100.0)
  }

  /** **The stitched trace is, sector after sector, the stored points of the lap that set it strictly inside the
      sector and an interpolated point at each of its boundaries**, each placed as far into its slice as on its own lap
      and at its time stretched to the sector's own, then the last point pinned and the whole thinned. */
  lemma StitchedIs(core: OptimalLapCore, laps: map<int, ContributingLap>, maxPoints: int)
    returns (slices: seq<Sliced>, whole: seq<TracePoint>)
    requires core.sectors != [] && Usable(core.sectors, laps)
    ensures AreSlices(core.sectors, laps, slices)
    ensures var last := slices[|slices| - 1];
            IsPinned(whole, Joined(slices), last.startM + (last.toM - last.fromM), core.lapMs)
    ensures Stitched(core, laps, maxPoints) == Decimate(whole, maxPoints)
  {
    slices := SlicesAre(core.sectors, laps);
    whole := WholeIs(Cuts(core.sectors, laps), slices, core.lapMs);
  }

  lemma WholeIs(cuts: seq<Cut>, slices: seq<Sliced>, lapMs: int) returns (whole: seq<TracePoint>)
    requires cuts != [] && SlicesOf(cuts, slices)
    ensures whole == Pinned(PointsTo(cuts, |cuts|), CoveredM(cuts, |cuts|), lapMs)
    ensures var last := slices[|slices| - 1];
            IsPinned(whole, Joined(slices), last.startM + (last.toM - last.fromM), lapMs)
  {
    AllJoined(cuts, slices);
    whole := PinnedIs(cuts, Joined(slices), CoveredM(cuts, |cuts|), lapMs);
  }

  lemma PinnedIs(cuts: seq<Cut>, joined: seq<TracePoint>, distM: real, lapMs: int) returns (whole: seq<TracePoint>)
    requires cuts != [] && joined == PointsTo(cuts, |cuts|)
    ensures whole == Pinned(joined, distM, lapMs) && IsPinned(whole, joined, distM, lapMs)
  {
    SomePoints(cuts, |cuts|);
    RoundToIs(distM, 10.0);
    whole := Pinned(joined, distM, lapMs);
  }

  /** **There is a seam for every join and no other**, where the slice before it ends on the stitched axis, as wide as
      the two laps' own places there are apart. */
  lemma SeamsAre(p: Plane, core: OptimalLapCore, laps: map<int, ContributingLap>) returns (slices: seq<Sliced>)
    requires core.sectors != [] && Usable(core.sectors, laps)
    ensures AreSlices(core.sectors, laps, slices) && |Seams(p, core, laps)| == |core.sectors| - 1
    ensures forall k :: 0 <= k < |core.sectors| - 1 ==>
              IsSeam(p, Seams(p, core, laps)[k], PointAt(laps[core.sectors[k].lapNumber].points, slices[k].toM),
                     PointAt(laps[core.sectors[k + 1].lapNumber].points, slices[k + 1].fromM), slices[k + 1].startM)
  {
    var cuts := Cuts(core.sectors, laps);
    slices := SlicesAre(core.sectors, laps);
    SeamsAreAtJoins(p, cuts);
    forall k | 0 <= k < |cuts| - 1
      ensures IsSeam(p, SeamAt(p, cuts, k), cuts[k].end, cuts[k + 1].start, CoveredM(cuts, k + 1))
    {
      RoundToIs(CoveredM(cuts, k + 1), 10.0);
      RoundToIs(DistanceM(p, cuts[k].end.lat, cuts[k].end.lon, cuts[k + 1].start.lat, cuts[k + 1].start.lon), 100.0);
    }
  }
}
