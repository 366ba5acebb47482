/** `decimateByDistance` of `lap-trace.ts`: thins a trace at even spacing along the track. */
module Decimation {
  import opened SampleMath
  import opened Analysis

  /** The positions kept so far, and the distance the next kept point must reach. With zero spacing the
      code divides by zero and the distance becomes `NaN`, which no point ever reaches: `None`. */
  datatype Thinning = Thinning(kept: seq<nat>, nextM: Option<real>)

  function BinOf(distM: real, spacing: real): int
    requires spacing != 0.0
  {
    (distM / spacing).Floor
  }

  function StartM(bin: int, spacing: real): real {
    bin as real * spacing
  }

  function NextM(distM: real, spacing: real): Option<real> {
    if spacing == 0.0 then None else Some(StartM(BinOf(distM, spacing) + 1, spacing))
  }

  predicate Reaches(distM: real, nextM: Option<real>) {
    nextM.Some? && distM >= nextM.value
  }

  /** After the interior points before position `i`; `next` gives the distance to reach after a kept point. */
  function ThinTo(points: seq<TracePoint>, first: real, next: real -> Option<real>, i: nat): Thinning
    requires 1 <= i <= |points|
  {
    if i == 1 then Thinning([0], Some(first)) else
      var s := ThinTo(points, first, next, i - 1);
      var distM := points[i - 1].distM;
      if Reaches(distM, s.nextM) then Thinning(s.kept + [i - 1], next(distM)) else s
  }

  function NextBy(spacing: real): real -> Option<real> {
    distM => NextM(distM, spacing)
  }

  function Spacing(points: seq<TracePoint>, maxPoints: int): real
    requires points != [] && maxPoints >= 2
  {
    points[|points| - 1].distM / ((maxPoints - 1) as real)
  }

  predicate Thins(points: seq<TracePoint>, maxPoints: int) {
    !(|points| <= maxPoints || maxPoints < 2)
  }

  /** The positions a thinned trace keeps. */
  function Kept(points: seq<TracePoint>, maxPoints: int): seq<nat>
    requires Thins(points, maxPoints)
  {
    ThinTo(points, Spacing(points, maxPoints), NextBy(Spacing(points, maxPoints)), |points| - 1).kept + [|points| - 1]
  }

  ghost predicate Positions(points: seq<TracePoint>, kept: seq<nat>) {
    && (forall k :: 0 <= k < |kept| ==> kept[k] < |points|)
    && (forall k, l :: 0 <= k < l < |kept| ==> kept[k] < kept[l])
  }

  lemma {:induction false} ThinPositions(points: seq<TracePoint>, first: real, next: real -> Option<real>, i: nat)
    requires 1 <= i <= |points|
    ensures var kept := ThinTo(points, first, next, i).kept;
            kept != [] && kept[0] == 0 && Positions(points, kept) && kept[|kept| - 1] < i
  {
    if i > 1 {
      ThinPositions(points, first, next, i - 1);
    }
  }

  /** A thinned trace is a subsequence that keeps both ends. */
  lemma KeptPositions(points: seq<TracePoint>, maxPoints: int)
    requires Thins(points, maxPoints)
    ensures var kept := Kept(points, maxPoints);
            Positions(points, kept) && |kept| >= 2 && kept[0] == 0 && kept[|kept| - 1] == |points| - 1
  {
    ThinPositions(points, Spacing(points, maxPoints), NextBy(Spacing(points, maxPoints)), |points| - 1);
  }

  function Decimate(points: seq<TracePoint>, maxPoints: int): seq<TracePoint> {
    if Thins(points, maxPoints) then
      KeptPositions(points, maxPoints);
      Pick(points, Kept(points, maxPoints))
    else points
  }

  method ThinInterior(points: seq<TracePoint>, first: real, next: real -> Option<real>) returns (r: seq<TracePoint>)
    requires |points| >= 1
    ensures Positions(points, ThinTo(points, first, next, if |points| == 1 then 1 else |points| - 1).kept)
    ensures r == Pick(points, ThinTo(points, first, next, if |points| == 1 then 1 else |points| - 1).kept)
  {
    r := [points[0]];
    var nextM := Some(first);
    var i := 1;
    while i < |points| - 1
      invariant 1 <= i && (i <= |points| - 1 || |points| == 1 == i)
      invariant nextM == ThinTo(points, first, next, i).nextM
      invariant Positions(points, ThinTo(points, first, next, i).kept)
                && r == Pick(points, ThinTo(points, first, next, i).kept)
    {
      ThinPositions(points, first, next, i + 1);
      if Reaches(points[i].distM, nextM) {
        r := r + [points[i]];
        nextM := next(points[i].distM);
      }
      i := i + 1;
    }
  }

  method DecimateByDistance(points: seq<TracePoint>, maxPoints: int) returns (r: seq<TracePoint>)
    ensures r == Decimate(points, maxPoints)
  {
    if |points| <= maxPoints || maxPoints < 2 {
      return points;
    }
    var spacing := Spacing(points, maxPoints);
    r := ThinInterior(points, spacing, NextBy(spacing));
    KeptPositions(points, maxPoints);
    r := r + [points[|points| - 1]];
  }

  // ------------------------------------------------------------------------------------------
  // Which points survive
  // ------------------------------------------------------------------------------------------

  function Bin(points: seq<TracePoint>, i: nat, spacing: real): int
    requires i < |points| && spacing > 0.0
  {
    BinOf(points[i].distM, spacing)
  }

  lemma FloorMonotone(x: real, y: real)
    requires x <= y
    ensures x.Floor <= y.Floor
  {}

  lemma BinsAscend(points: seq<TracePoint>, spacing: real, i: nat, j: nat)
    requires TraceAscends(points) && spacing > 0.0 && i <= j < |points|
    ensures Bin(points, i, spacing) <= Bin(points, j, spacing)
  {
    DivMonotone(points[i].distM, points[j].distM, spacing);
    FloorMonotone(points[i].distM / spacing, points[j].distM / spacing);
  }

  /** Reaching the start of a bin is being in it or a later one. */
  lemma ReachesBin(distM: real, spacing: real, b: int)
    requires spacing > 0.0
    ensures distM >= StartM(b, spacing) <==> BinOf(distM, spacing) >= b
  {
    var q, start := distM / spacing, b as real * spacing;
    assert start / spacing == b as real;
    if distM >= start {
      DivMonotone(start, distM, spacing);
    } else {
      DivStrict(distM, start, spacing);
    }
    FloorAtLeast(q, b);
  }

  lemma FloorAtLeast(q: real, b: int)
    ensures q.Floor >= b <==> q >= b as real
  {}

  /** A trace that can be thinned: it starts at 0, never goes back, and covers some distance. */
  ghost predicate Thinnable(points: seq<TracePoint>, maxPoints: int) {
    && Thins(points, maxPoints)
    && TraceAscends(points) && points[0].distM == 0.0 && points[|points| - 1].distM > 0.0
  }

  lemma SpacingIsPositive(points: seq<TracePoint>, maxPoints: int)
    requires Thinnable(points, maxPoints)
    ensures Spacing(points, maxPoints) > 0.0
    ensures (points[|points| - 1].distM / Spacing(points, maxPoints)) == (maxPoints - 1) as real
  {
    var total, n := points[|points| - 1].distM, (maxPoints - 1) as real;
    DivStrict(0.0, total, n);
    assert total / n * n == total;
    assert total / (total / n) == n by {
      assert n * (total / n) / (total / n) == n;
    }
  }

  /** An interior point is kept exactly when it is the first in its bin. */
  ghost predicate FirstInBin(points: seq<TracePoint>, j: nat, spacing: real)
    requires spacing > 0.0
  {
    0 < j < |points| && Bin(points, j - 1, spacing) < Bin(points, j, spacing)
  }

  /** The next distance wanted is always the start of the bin after the last point's. */
  lemma {:induction false} NextIsNextBin(points: seq<TracePoint>, spacing: real, i: nat)
    requires TraceAscends(points) && spacing > 0.0 && points != [] && points[0].distM == 0.0 && 1 <= i <= |points|
    ensures ThinTo(points, spacing, NextBy(spacing), i).nextM == Some(StartM(Bin(points, i - 1, spacing) + 1, spacing))
  {
    if i == 1 {
      assert BinOf(0.0, spacing) == 0;
      assert StartM(1, spacing) == spacing;
    } else {
      NextIsNextBin(points, spacing, i - 1);
      BinsAscend(points, spacing, i - 2, i - 1);
      ReachesBin(points[i - 1].distM, spacing, Bin(points, i - 2, spacing) + 1);
    }
  }

  lemma ThinOnce(points: seq<TracePoint>, spacing: real, i: nat)
    requires TraceAscends(points) && spacing > 0.0 && points != [] && points[0].distM == 0.0 && 1 < i <= |points|
    ensures ThinTo(points, spacing, NextBy(spacing), i).kept
            == ThinTo(points, spacing, NextBy(spacing), i - 1).kept
                + (if FirstInBin(points, i - 1, spacing) then [i - 1] else [])
  {
    NextIsNextBin(points, spacing, i - 1);
    ReachesBin(points[i - 1].distM, spacing, Bin(points, i - 2, spacing) + 1);
  }

  lemma {:induction false} ThinKeepsFirsts(points: seq<TracePoint>, spacing: real, i: nat)
    requires TraceAscends(points) && spacing > 0.0 && points != [] && points[0].distM == 0.0 && 1 <= i <= |points|
    ensures KeepsFirstsTo(points, spacing, ThinTo(points, spacing, NextBy(spacing), i).kept, i)
  {
    if i == 1 {
      assert BinOf(0.0, spacing) == 0;
    } else {
      ThinKeepsFirsts(points, spacing, i - 1);
      ThinPositions(points, spacing, NextBy(spacing), i - 1);
      ThinOnce(points, spacing, i);
      KeepsNext(points, spacing, ThinTo(points, spacing, NextBy(spacing), i - 1).kept, i - 1);
    }
  }

  /** Of the interior points before `i` exactly the first in each bin are among those kept, so not more of them
      than there are bins. */
  ghost predicate KeepsFirstsTo(points: seq<TracePoint>, spacing: real, kept: seq<nat>, i: nat)
    requires spacing > 0.0 && 0 < i <= |points|
  {
    && (forall j :: 0 < j < i ==> (j in kept <==> FirstInBin(points, j, spacing)))
    && |kept| - 1 <= Bin(points, i - 1, spacing)
  }

  lemma KeepsNext(points: seq<TracePoint>, spacing: real, kept: seq<nat>, i: nat)
    requires TraceAscends(points) && spacing > 0.0 && 0 < i < |points| && KeepsFirstsTo(points, spacing, kept, i)
    requires forall k :: 0 <= k < |kept| ==> kept[k] < i
    ensures KeepsFirstsTo(points, spacing, kept + (if FirstInBin(points, i, spacing) then [i] else []), i + 1)
  {
    BinsAscend(points, spacing, i - 1, i);
  }

  /** **A thinned trace keeps its ends and exactly the first interior point of each non-zero bin, and
      has at most one point over its budget** — none over if no interior point reaches the end. */
  lemma DecimateKeepsFirsts(points: seq<TracePoint>, maxPoints: int)
    requires Thinnable(points, maxPoints)
    ensures var kept, spacing := Kept(points, maxPoints), Spacing(points, maxPoints);
            && spacing > 0.0
            && (forall j :: 0 < j < |points| - 1 ==> (j in kept <==> FirstInBin(points, j, spacing)))
            && |Decimate(points, maxPoints)| == |kept| <= maxPoints + 1
            && (points[|points| - 2].distM < points[|points| - 1].distM ==> |kept| <= maxPoints)
  {
    LastBin(points, maxPoints);
    FirstsWithin(points, Spacing(points, maxPoints), maxPoints);
    KeptPositions(points, maxPoints);
  }

  lemma FirstsWithin(points: seq<TracePoint>, spacing: real, maxPoints: int)
    requires TraceAscends(points) && spacing > 0.0 && |points| >= 2 && points[0].distM == 0.0
    requires Bin(points, |points| - 2, spacing) <= maxPoints - 1
    ensures var n := |points|;
            var kept := ThinTo(points, spacing, NextBy(spacing), n - 1).kept + [n - 1];
            && (forall j :: 0 < j < n - 1 ==> (j in kept <==> FirstInBin(points, j, spacing)))
            && |kept| <= maxPoints + 1
            && (Bin(points, n - 2, spacing) <= maxPoints - 2 ==> |kept| <= maxPoints)
  {
    ThinKeepsFirsts(points, spacing, |points| - 1);
  }

  /** The last interior point is in the last bin only if it reaches the end of the trace. */
  lemma LastBin(points: seq<TracePoint>, maxPoints: int)
    requires Thinnable(points, maxPoints)
    ensures Spacing(points, maxPoints) > 0.0
    ensures var b := Bin(points, |points| - 2, Spacing(points, maxPoints));
            b <= maxPoints - 1 && (points[|points| - 2].distM < points[|points| - 1].distM ==> b <= maxPoints - 2)
  {
    var n, spacing := |points|, Spacing(points, maxPoints);
    SpacingIsPositive(points, maxPoints);
    BinsAscend(points, spacing, n - 2, n - 1);
    assert StartM(maxPoints - 1, spacing) == points[n - 1].distM;
    ReachesBin(points[n - 2].distM, spacing, maxPoints - 1);
  }

  /** Every point of one bin lies less than one spacing after the bin's first. */
  lemma SameBinIsClose(x: real, y: real, spacing: real)
    requires spacing > 0.0 && x <= y && BinOf(x, spacing) == BinOf(y, spacing)
    ensures y - x < spacing
  {
    var b := BinOf(x, spacing);
    ReachesBin(x, spacing, b);
    ReachesBin(y, spacing, b + 1);
    assert StartM(b + 1, spacing) == StartM(b, spacing) + spacing;
  }

  /** The kept point that stands for position `j`. */
  lemma {:induction false} NearestKept(points: seq<TracePoint>, spacing: real, i: nat, j: nat) returns (k: nat)
    requires TraceAscends(points) && spacing > 0.0 && points != [] && points[0].distM == 0.0 && j < i <= |points|
    ensures k <= j && k in ThinTo(points, spacing, NextBy(spacing), i).kept
    ensures 0.0 <= points[j].distM - points[k].distM < spacing
    decreases j
  {
    ThinPositions(points, spacing, NextBy(spacing), i);
    ThinKeepsFirsts(points, spacing, i);
    k := j;
    while k > 0 && Bin(points, k - 1, spacing) == Bin(points, k, spacing)
      invariant 0 <= k <= j && Bin(points, k, spacing) == Bin(points, j, spacing)
    {
      k := k - 1;
    }
    if k > 0 {
      BinsAscend(points, spacing, k - 1, k);
      assert FirstInBin(points, k, spacing);
    }
    SameBinIsClose(points[k].distM, points[j].distM, spacing);
  }

  /** Every dropped point is less than one spacing after a kept one. */
  lemma DroppedIsNearKept(points: seq<TracePoint>, maxPoints: int, j: nat) returns (k: nat)
    requires Thinnable(points, maxPoints) && j < |points| - 1
    ensures k <= j && k in Kept(points, maxPoints)
    ensures 0.0 <= points[j].distM - points[k].distM < points[|points| - 1].distM / ((maxPoints - 1) as real)
  {
    SpacingIsPositive(points, maxPoints);
    k := NearestKept(points, Spacing(points, maxPoints), |points| - 1, j);
  }

  /** The `k`-th of the marks that part the trace into `maxPoints - 1` equal lengths. */
  ghost function MarkM(points: seq<TracePoint>, k: int, maxPoints: int): real
    requires points != [] && maxPoints >= 2
  {
    points[|points| - 1].distM * (k as real) / ((maxPoints - 1) as real)
  }

  /** The hop to point `j` gets to a mark. */
  ghost predicate GetsToMark(points: seq<TracePoint>, j: nat, maxPoints: int)
    requires 0 < j < |points| && maxPoints >= 2
  {
    exists k: int :: points[j - 1].distM < MarkM(points, k, maxPoints) <= points[j].distM
  }

  lemma MarkIsStart(points: seq<TracePoint>, k: int, maxPoints: int)
    requires points != [] && maxPoints >= 2
    ensures MarkM(points, k, maxPoints) == StartM(k, Spacing(points, maxPoints))
  {}

  /** **A trace over its budget keeps its ends and every point whose hop gets to one of its marks, and no other**; one
      within it is left alone. */
  lemma ThinnedAtMarks(points: seq<TracePoint>, maxPoints: int, j: nat)
    requires maxPoints >= 2 && TraceAscends(points) && 0 < j < |points| - 1
    requires |points| > maxPoints && points[0].distM == 0.0 < points[|points| - 1].distM
    ensures Thins(points, maxPoints) && Positions(points, Kept(points, maxPoints))
            && Decimate(points, maxPoints) == Pick(points, Kept(points, maxPoints))
    ensures 0 in Kept(points, maxPoints) && |points| - 1 in Kept(points, maxPoints)
    ensures j in Kept(points, maxPoints) <==> GetsToMark(points, j, maxPoints)
  {
    KeptPositions(points, maxPoints);
    DecimateKeepsFirsts(points, maxPoints);
    FirstsGetToMarks(points, maxPoints, j);
  }

  lemma FirstsGetToMarks(points: seq<TracePoint>, maxPoints: int, j: nat)
    requires Thinnable(points, maxPoints) && 0 < j < |points|
    ensures Spacing(points, maxPoints) > 0.0
    ensures FirstInBin(points, j, Spacing(points, maxPoints)) <==> GetsToMark(points, j, maxPoints)
  {
    SpacingIsPositive(points, maxPoints);
    var spacing := Spacing(points, maxPoints);
    forall k: int
      ensures points[j - 1].distM < MarkM(points, k, maxPoints) <= points[j].distM
              <==> Bin(points, j - 1, spacing) < k <= Bin(points, j, spacing)
    {
      MarkIsStart(points, k, maxPoints);
      ReachesBin(points[j - 1].distM, spacing, k);
      ReachesBin(points[j].distM, spacing, k);
    }
    var b := Bin(points, j, spacing);
    assert FirstInBin(points, j, spacing) ==> points[j - 1].distM < MarkM(points, b, maxPoints) <= points[j].distM;
  }

  /** Thinning keeps both axes monotone and both ends in place, and leaves a trace within its budget as it is. */
  lemma DecimateKeepsOrder(points: seq<TracePoint>, maxPoints: int)
    requires points != []
    ensures var r := Decimate(points, maxPoints);
            && r != [] && r[0] == points[0] && r[|r| - 1] == points[|points| - 1]
            && (TraceAscends(points) ==> TraceAscends(r))
            && (ElapsedAscends(points) ==> ElapsedAscends(r))
            && (forall q :: q in r ==> q in points)
            && (|points| <= maxPoints || maxPoints < 2 ==> r == points)
  {
    if Thins(points, maxPoints) {
      KeptPositions(points, maxPoints);
      PickKeepsOrder(points, Kept(points, maxPoints));
    }
  }

  lemma PickKeepsOrder(points: seq<TracePoint>, kept: seq<nat>)
    requires Positions(points, kept)
    ensures TraceAscends(points) ==> TraceAscends(Pick(points, kept))
    ensures ElapsedAscends(points) ==> ElapsedAscends(Pick(points, kept))
    ensures forall q :: q in Pick(points, kept) ==> q in points
  {
    var r := Pick(points, kept);
    forall i, j | 0 <= i <= j < |r| ensures kept[i] <= kept[j] && r[i] == points[kept[i]] {}
  }
}
