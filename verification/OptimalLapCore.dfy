/** `pickBestSectors` of `optimal-lap-core.ts`: the best sector times of a session, put together. */
module OptimalLapCore {
  import opened SampleMath
  import opened Sectors

  /** A split that is not a finite number is `None`. */
  datatype SectoredLap = SectoredLap(lapNumber: int, lapMs: int, distanceM: real, sectorMs: seq<Option<int>>)

  datatype BestSector = BestSector(sector: nat, lapNumber: int, sectorMs: int)

  datatype OptimalLapCore = OptimalLapCore(lapMs: int, distanceM: real, sectors: seq<BestSector>,
                                           matchesLapNumber: Option<int>)

  /** A complete, valid set of splits. */
  predicate Eligible(lap: SectoredLap, sectorCount: nat) {
    && |lap.sectorMs| == sectorCount
    && forall i :: 0 <= i < sectorCount ==> lap.sectorMs[i].Some? && lap.sectorMs[i].value > 0
  }

  function EligibleLaps(laps: seq<SectoredLap>, sectorCount: nat): (r: seq<SectoredLap>)
    ensures forall lap :: lap in r <==> lap in laps && Eligible(lap, sectorCount)
    ensures forall k :: 0 <= k < |r| ==> r[k] in r
  {
    if laps == [] then [] else
      var n := |laps| - 1;
      assert laps == laps[..n] + [laps[n]];
      EligibleLaps(laps[..n], sectorCount) + (if Eligible(laps[n], sectorCount) then [laps[n]] else [])
  }

  ghost predicate AllEligible(laps: seq<SectoredLap>, sectorCount: nat) {
    forall lap :: lap in laps ==> Eligible(lap, sectorCount)
  }

  function Split(lap: SectoredLap, i: nat): int
    requires i < |lap.sectorMs| && lap.sectorMs[i].Some?
  {
    lap.sectorMs[i].value
  }

  /** Faster in the sector, or as fast and earlier in the session. */
  predicate Better(lap: SectoredLap, winner: SectoredLap, i: nat)
    requires i < |lap.sectorMs| && lap.sectorMs[i].Some? && i < |winner.sectorMs| && winner.sectorMs[i].Some?
  {
    Split(lap, i) < Split(winner, i) || (Split(lap, i) == Split(winner, i) && lap.lapNumber < winner.lapNumber)
  }

  /** No lap is better in the sector. */
  ghost predicate Wins(laps: seq<SectoredLap>, winner: SectoredLap, i: nat, sectorCount: nat)
    requires AllEligible(laps, sectorCount) && i < sectorCount
  {
    winner in laps && forall lap :: lap in laps ==> !Better(lap, winner, i)
  }

  /** The first of the laps no other is better than. */
  function Winner(laps: seq<SectoredLap>, i: nat, sectorCount: nat): (w: SectoredLap)
    requires laps != [] && AllEligible(laps, sectorCount) && i < sectorCount
    ensures Wins(laps, w, i, sectorCount)
  {
    var n := |laps| - 1;
    assert laps[n] in laps;
    if n == 0 then laps[0] else
      assert laps == laps[..n] + [laps[n]];
      var w := Winner(laps[..n], i, sectorCount);
      if Better(laps[n], w, i) then laps[n] else w
  }

  /** The winner of the first `k` laps; before any, the first. */
  ghost function WinnerTo(laps: seq<SectoredLap>, k: nat, i: nat, sectorCount: nat): (w: SectoredLap)
    requires laps != [] && k <= |laps| && AllEligible(laps, sectorCount) && i < sectorCount
    ensures w in laps && Eligible(w, sectorCount)
  {
    if k == 0 then laps[0] else Winner(laps[..k], i, sectorCount)
  }

  lemma WinnerNext(laps: seq<SectoredLap>, k: nat, i: nat, sectorCount: nat, w: SectoredLap)
    requires k < |laps| && AllEligible(laps, sectorCount) && i < sectorCount && w == WinnerTo(laps, k, i, sectorCount)
    ensures Eligible(laps[k], sectorCount)
    ensures WinnerTo(laps, k + 1, i, sectorCount) == if Better(laps[k], w, i) then laps[k] else w
  {
    assert laps[k] in laps;
    assert laps[..k + 1][..k] == laps[..k];
  }

  lemma {:induction false} WinnerOfAll(laps: seq<SectoredLap>, i: nat, sectorCount: nat)
    requires laps != [] && AllEligible(laps, sectorCount) && i < sectorCount
    ensures WinnerTo(laps, |laps|, i, sectorCount) == Winner(laps, i, sectorCount)
  {
    assert laps[..|laps|] == laps;
  }

  method PickWinner(eligible: seq<SectoredLap>, i: nat, sectorCount: nat) returns (winner: SectoredLap)
    requires eligible != [] && AllEligible(eligible, sectorCount) && i < sectorCount
    ensures winner == Winner(eligible, i, sectorCount)
  {
    winner := eligible[0];
    for k := 0 to |eligible|
      invariant winner == WinnerTo(eligible, k, i, sectorCount)
    {
      WinnerNext(eligible, k, i, sectorCount, winner);
      if Better(eligible[k], winner, i) {
        winner := eligible[k];
      }
    }
    WinnerOfAll(eligible, i, sectorCount);
  }

  function BestOf(eligible: seq<SectoredLap>, i: nat, sectorCount: nat): BestSector
    requires eligible != [] && AllEligible(eligible, sectorCount) && i < sectorCount
  {
    var w := Winner(eligible, i, sectorCount);
    BestSector(i, w.lapNumber, Split(w, i))
  }

  function BestSectors(eligible: seq<SectoredLap>, sectorCount: nat): (r: seq<BestSector>)
    requires eligible != [] && AllEligible(eligible, sectorCount)
    ensures |r| == sectorCount && forall i :: 0 <= i < sectorCount ==> r[i] == BestOf(eligible, i, sectorCount)
  {
    seq(sectorCount, i requires 0 <= i < sectorCount => BestOf(eligible, i, sectorCount))
  }

  function SectorMs(sectors: seq<BestSector>): (r: seq<int>)
    ensures |r| == |sectors| && forall i :: 0 <= i < |r| ==> r[i] == sectors[i].sectorMs
  {
    seq(|sectors|, i requires 0 <= i < |sectors| => sectors[i].sectorMs)
  }

  /** The first lap with a number. */
  function FindLap(laps: seq<SectoredLap>, lapNumber: int): (r: Option<SectoredLap>)
    ensures r.Some? ==> r.value in laps && r.value.lapNumber == lapNumber
    ensures r.None? ==> forall lap :: lap in laps ==> lap.lapNumber != lapNumber
  {
    if laps == [] then None else if laps[0].lapNumber == lapNumber then Some(laps[0]) else FindLap(laps[1..], lapNumber)
  }

  function Share(distanceM: real, sectorCount: nat): real
    requires sectorCount > 0
  {
    distanceM / (sectorCount as real)
  }

  /** Each sector's lap gives an equal share of its own distance. */
  function SharedM(eligible: seq<SectoredLap>, sectors: seq<BestSector>, sectorCount: nat): real
    requires sectorCount > 0
    requires forall i :: 0 <= i < |sectors| ==> FindLap(eligible, sectors[i].lapNumber).Some?
  {
    if sectors == [] then 0.0 else
      var n := |sectors| - 1;
      SharedM(eligible, sectors[..n], sectorCount)
      + Share(FindLap(eligible, sectors[n].lapNumber).value.distanceM, sectorCount)
  }

  function OnlyLap(sectors: seq<BestSector>): Option<int>
    requires sectors != []
  {
    if forall i :: 0 <= i < |sectors| ==> sectors[i].lapNumber == sectors[0].lapNumber
    then Some(sectors[0].lapNumber) else None
  }

  lemma {:induction false} WinnersAreFound(eligible: seq<SectoredLap>, sectorCount: nat)
    requires eligible != [] && AllEligible(eligible, sectorCount)
    ensures var sectors := BestSectors(eligible, sectorCount);
            forall i :: 0 <= i < |sectors| ==> FindLap(eligible, sectors[i].lapNumber).Some?
  {
    forall i | 0 <= i < sectorCount ensures FindLap(eligible, BestOf(eligible, i, sectorCount).lapNumber).Some? {
      assert Wins(eligible, Winner(eligible, i, sectorCount), i, sectorCount);
    }
  }

  function Best(laps: seq<SectoredLap>, sectorCount: nat): Option<OptimalLapCore>
    requires sectorCount > 0
  {
    var eligible := EligibleLaps(laps, sectorCount);
    if |eligible| < 2 then None else
      var sectors := BestSectors(eligible, sectorCount);
      WinnersAreFound(eligible, sectorCount);
      Some(OptimalLapCore(Sum(SectorMs(sectors)), SharedM(eligible, sectors, sectorCount), sectors, OnlyLap(sectors)))
  }

  method PickBestSectors(laps: seq<SectoredLap>, sectorCount: nat) returns (r: Option<OptimalLapCore>)
    requires sectorCount > 0
    ensures r == Best(laps, sectorCount)
  {
    var eligible := EligibleLaps(laps, sectorCount);
    if |eligible| < 2 {
      return None;
    }
    var sectors: seq<BestSector> := [];
    for i := 0 to sectorCount
      invariant |sectors| == i && forall k :: 0 <= k < i ==> sectors[k] == BestOf(eligible, k, sectorCount)
    {
      var winner := PickWinner(eligible, i, sectorCount);
      sectors := sectors + [BestSector(i, winner.lapNumber, Split(winner, i))];
    }
    assert sectors == BestSectors(eligible, sectorCount);
    WinnersAreFound(eligible, sectorCount);
    return Some(OptimalLapCore(Sum(SectorMs(sectors)), SharedM(eligible, sectors, sectorCount), sectors,
                               OnlyLap(sectors)));
  }

  // ------------------------------------------------------------------------------------------
  // What the combination is worth
  // ------------------------------------------------------------------------------------------

  lemma {:induction false} SumLe(a: seq<int>, b: seq<int>)
    requires |a| == |b| && forall i :: 0 <= i < |a| ==> a[i] <= b[i]
    ensures Sum(a) <= Sum(b)
  {
    if a != [] {
      SumLe(a[..|a| - 1], b[..|b| - 1]);
    }
  }

  /** The splits of one choice of an eligible lap for every sector. */
  ghost function ChosenMs(eligible: seq<SectoredLap>, choice: seq<nat>): (r: seq<int>)
    requires AllEligible(eligible, |choice|) && forall i :: 0 <= i < |choice| ==> choice[i] < |eligible|
    ensures |r| == |choice|
    ensures forall i :: 0 <= i < |r| ==> eligible[choice[i]] in eligible && r[i] == Split(eligible[choice[i]], i)
  {
    assert forall i :: 0 <= i < |choice| ==> eligible[choice[i]] in eligible;
    seq(|choice|, i requires 0 <= i < |choice| => Split(eligible[choice[i]], i))
  }

  /** **No way of putting one eligible lap's split after another is faster**: the optimal lap is the
      least total over every choice of a lap for each sector. There is one exactly when two laps are
      eligible. */
  lemma {:induction false} NoCombinationIsFaster(laps: seq<SectoredLap>, sectorCount: nat, choice: seq<nat>)
    requires sectorCount > 0 && |choice| == sectorCount
    requires var eligible := EligibleLaps(laps, sectorCount); forall i :: 0 <= i < |choice| ==> choice[i] < |eligible|
    ensures var eligible, r := EligibleLaps(laps, sectorCount), Best(laps, sectorCount);
            && (r.None? <==> |eligible| < 2)
            && (r.Some? ==> r.value.lapMs <= Sum(ChosenMs(eligible, choice)))
  {
    var eligible := EligibleLaps(laps, sectorCount);
    if |eligible| >= 2 {
      var best, chosen := SectorMs(BestSectors(eligible, sectorCount)), ChosenMs(eligible, choice);
      forall i | 0 <= i < sectorCount ensures best[i] <= chosen[i] {
        assert !Better(eligible[choice[i]], Winner(eligible, i, sectorCount), i);
      }
      SumLe(best, chosen);
    }
  }

  /** Every sector is set by an eligible lap no other is faster in, the lowest-numbered of those. */
  lemma SectorsAreTrueMinima(laps: seq<SectoredLap>, sectorCount: nat, i: nat) returns (w: SectoredLap)
    requires sectorCount > 0 && i < sectorCount && Best(laps, sectorCount).Some?
    ensures w in laps && Eligible(w, sectorCount)
    ensures Best(laps, sectorCount).value.sectors[i] == BestSector(i, w.lapNumber, Split(w, i))
    ensures forall lap :: lap in laps && Eligible(lap, sectorCount) ==>
              Split(w, i) < Split(lap, i) || (Split(w, i) == Split(lap, i) && w.lapNumber <= lap.lapNumber)
  {
    var eligible := EligibleLaps(laps, sectorCount);
    w := Winner(eligible, i, sectorCount);
    assert Wins(eligible, w, i, sectorCount);
  }

  function Splits(lap: SectoredLap, sectorCount: nat): (r: seq<int>)
    requires Eligible(lap, sectorCount)
    ensures |r| == sectorCount && forall i :: 0 <= i < sectorCount ==> r[i] == Split(lap, i)
  {
    seq(sectorCount, i requires 0 <= i < sectorCount => Split(lap, i))
  }

  lemma {:induction false} SumStrict(a: seq<int>, b: seq<int>, i: nat)
    requires |a| == |b| && (forall k :: 0 <= k < |a| ==> a[k] <= b[k]) && i < |a| && a[i] < b[i]
    ensures Sum(a) < Sum(b)
  {
    var n := |a| - 1;
    if i == n {
      SumLe(a[..n], b[..n]);
    } else {
      SumStrict(a[..n], b[..n], i);
    }
  }

  /** **The optimal lap is as long as an eligible lap exactly when that lap is fastest in every sector**,
      and shorter otherwise. */
  lemma OptimalAgainstALap(laps: seq<SectoredLap>, sectorCount: nat, lap: SectoredLap)
    requires sectorCount > 0 && Best(laps, sectorCount).Some? && lap in laps && Eligible(lap, sectorCount)
    ensures var best := Best(laps, sectorCount).value;
            && best.lapMs <= Sum(Splits(lap, sectorCount))
            && (best.lapMs == Sum(Splits(lap, sectorCount))
                <==> forall i :: 0 <= i < sectorCount ==> Split(lap, i) == best.sectors[i].sectorMs)
  {
    var eligible := EligibleLaps(laps, sectorCount);
    var best, own := SectorMs(BestSectors(eligible, sectorCount)), Splits(lap, sectorCount);
    forall i | 0 <= i < sectorCount ensures best[i] <= own[i] {
      assert !Better(lap, Winner(eligible, i, sectorCount), i);
    }
    SumLe(best, own);
    if i :| 0 <= i < sectorCount && own[i] != best[i] {
      SumStrict(best, own, i);
    } else {
      assert best == own;
    }
  }

  // ------------------------------------------------------------------------------------------
  // Laps with distinct numbers
  // ------------------------------------------------------------------------------------------

  ghost predicate OneLapPerNumber(laps: seq<SectoredLap>) {
    forall x, y :: x in laps && y in laps && x.lapNumber == y.lapNumber ==> x == y
  }

  lemma {:induction false} WinnerIsUnique(a: seq<SectoredLap>, b: seq<SectoredLap>, i: nat, sectorCount: nat)
    requires a != [] && b != [] && AllEligible(a, sectorCount) && AllEligible(b, sectorCount) && i < sectorCount
    requires OneLapPerNumber(a) && forall lap :: lap in a <==> lap in b
    ensures Winner(a, i, sectorCount) == Winner(b, i, sectorCount)
  {
    var v, w := Winner(a, i, sectorCount), Winner(b, i, sectorCount);
    assert !Better(v, w, i) && !Better(w, v, i);
  }

  lemma {:induction false} FoundIsUnique(a: seq<SectoredLap>, lap: SectoredLap)
    requires OneLapPerNumber(a) && lap in a
    ensures FindLap(a, lap.lapNumber) == Some(lap)
  {}

  lemma {:induction false} SharesAgree(a: seq<SectoredLap>, b: seq<SectoredLap>, sectors: seq<BestSector>,
                                       sectorCount: nat)
    requires sectorCount > 0 && OneLapPerNumber(a) && (forall lap :: lap in a <==> lap in b)
    requires forall i :: 0 <= i < |sectors| ==>
             FindLap(a, sectors[i].lapNumber).Some? && FindLap(b, sectors[i].lapNumber).Some?
    ensures SharedM(a, sectors, sectorCount) == SharedM(b, sectors, sectorCount)
  {
    if sectors != [] {
      var n := |sectors| - 1;
      SharesAgree(a, b, sectors[..n], sectorCount);
      FoundIsUnique(a, FindLap(b, sectors[n].lapNumber).value);
    }
  }

  lemma CountLast(laps: seq<SectoredLap>, rest: seq<SectoredLap>, last: SectoredLap, lap: SectoredLap)
    requires laps == rest + [last]
    ensures multiset(laps)[lap] == multiset(rest)[lap] + (if lap == last then 1 else 0)
  {}

  lemma {:induction false} EligibleCount(laps: seq<SectoredLap>, sectorCount: nat, lap: SectoredLap)
    ensures multiset(EligibleLaps(laps, sectorCount))[lap]
            == if Eligible(lap, sectorCount) then multiset(laps)[lap] else 0
  {
    if laps != [] {
      var n := |laps| - 1;
      EligibleCount(laps[..n], sectorCount, lap);
      CountLast(laps, laps[..n], laps[n], lap);
      if Eligible(laps[n], sectorCount) {
        CountLast(EligibleLaps(laps, sectorCount), EligibleLaps(laps[..n], sectorCount), laps[n], lap);
      }
    }
  }

  lemma {:induction false} EligiblePermuted(a: seq<SectoredLap>, b: seq<SectoredLap>, sectorCount: nat)
    requires multiset(a) == multiset(b)
    ensures multiset(EligibleLaps(a, sectorCount)) == multiset(EligibleLaps(b, sectorCount))
  {
    forall lap
      ensures multiset(EligibleLaps(a, sectorCount))[lap] == multiset(EligibleLaps(b, sectorCount))[lap]
    {
      EligibleCount(a, sectorCount, lap);
      EligibleCount(b, sectorCount, lap);
    }
  }

  lemma SameMembers<T>(a: seq<T>, b: seq<T>)
    requires multiset(a) == multiset(b)
    ensures |a| == |b| && forall x :: x in a <==> x in b
  {
    assert |multiset(a)| == |multiset(b)|;
    forall x ensures x in a <==> x in b {
      assert x in a <==> x in multiset(a);
      assert x in b <==> x in multiset(b);
    }
  }

  /** **The order the laps are given in does not matter.** */
  lemma OrderDoesNotMatter(a: seq<SectoredLap>, b: seq<SectoredLap>, sectorCount: nat)
    requires sectorCount > 0 && OneLapPerNumber(a) && multiset(a) == multiset(b)
    ensures Best(a, sectorCount) == Best(b, sectorCount)
  {
    var ea, eb := EligibleLaps(a, sectorCount), EligibleLaps(b, sectorCount);
    EligiblePermuted(a, b, sectorCount);
    SameMembers(ea, eb);
    if |ea| >= 2 {
      forall i | 0 <= i < sectorCount ensures BestOf(ea, i, sectorCount) == BestOf(eb, i, sectorCount) {
        WinnerIsUnique(ea, eb, i, sectorCount);
      }
      var sectors := BestSectors(ea, sectorCount);
      assert sectors == BestSectors(eb, sectorCount);
      WinnersAreFound(ea, sectorCount);
      WinnersAreFound(eb, sectorCount);
      SharesAgree(ea, eb, sectors, sectorCount);
    }
  }

  lemma {:induction false} SharesOfOne(eligible: seq<SectoredLap>, sectors: seq<BestSector>, sectorCount: nat,
                                       lap: SectoredLap)
    requires sectorCount > 0
    requires forall i :: 0 <= i < |sectors| ==> FindLap(eligible, sectors[i].lapNumber) == Some(lap)
    ensures SharedM(eligible, sectors, sectorCount) == (|sectors| as real) * Share(lap.distanceM, sectorCount)
  {
    if sectors != [] {
      SharesOfOne(eligible, sectors[..|sectors| - 1], sectorCount, lap);
    }
  }

  lemma AllShares(distanceM: real, sectorCount: nat)
    requires sectorCount > 0
    ensures (sectorCount as real) * Share(distanceM, sectorCount) == distanceM
    ensures Share(distanceM, sectorCount) * (sectorCount as real) == distanceM
  {}

  lemma {:induction false} OneLapsDistance(eligible: seq<SectoredLap>, sectors: seq<BestSector>, lap: SectoredLap)
    requires sectors != []
    requires forall i :: 0 <= i < |sectors| ==> FindLap(eligible, sectors[i].lapNumber) == Some(lap)
    ensures SharedM(eligible, sectors, |sectors|) == lap.distanceM
  {
    SharesOfOne(eligible, sectors, |sectors|, lap);
    AllShares(lap.distanceM, |sectors|);
  }

  lemma OneWinner(eligible: seq<SectoredLap>, sectorCount: nat) returns (lap: SectoredLap)
    requires sectorCount > 0 && OneLapPerNumber(eligible) && eligible != [] && AllEligible(eligible, sectorCount)
    requires OnlyLap(BestSectors(eligible, sectorCount)).Some?
    ensures lap in eligible && OnlyLap(BestSectors(eligible, sectorCount)) == Some(lap.lapNumber)
    ensures forall i :: 0 <= i < sectorCount ==>
            BestOf(eligible, i, sectorCount) == BestSector(i, lap.lapNumber, Split(lap, i))
  {
    var sectors := BestSectors(eligible, sectorCount);
    lap := Winner(eligible, 0, sectorCount);
    forall i | 0 <= i < sectorCount
      ensures BestOf(eligible, i, sectorCount) == BestSector(i, lap.lapNumber, Split(lap, i))
    {
      assert sectors[i].lapNumber == sectors[0].lapNumber;
    }
  }

  /** **When one lap set every sector the optimal lap is that lap**: its splits, its total, its distance. */
  lemma OneLapIsTheOptimal(laps: seq<SectoredLap>, sectorCount: nat) returns (lap: SectoredLap)
    requires sectorCount > 0 && OneLapPerNumber(laps)
    requires Best(laps, sectorCount).Some? && Best(laps, sectorCount).value.matchesLapNumber.Some?
    ensures lap in laps && Eligible(lap, sectorCount)
    ensures var best := Best(laps, sectorCount).value;
            && best.matchesLapNumber == Some(lap.lapNumber)
            && SectorMs(best.sectors) == Splits(lap, sectorCount)
            && best.lapMs == Sum(Splits(lap, sectorCount)) && best.distanceM == lap.distanceM
  {
    var eligible := EligibleLaps(laps, sectorCount);
    lap := OneWinner(eligible, sectorCount);
    var sectors := BestSectors(eligible, sectorCount);
    FoundIsUnique(eligible, lap);
    WinnersAreFound(eligible, sectorCount);
    OneLapsDistance(eligible, sectors, lap);
    assert SectorMs(sectors) == Splits(lap, sectorCount);
  }

  // ------------------------------------------------------------------------------------------
  // Which laps count, and what each gives
  // ------------------------------------------------------------------------------------------

  /** No split is missing, and none is zero or less. */
  ghost predicate Whole(lap: SectoredLap, sectorCount: nat) {
    |lap.sectorMs| == sectorCount && None !in lap.sectorMs && forall ms: int :: Some(ms) in lap.sectorMs ==> ms > 0
  }

  lemma WholeIsEligible(lap: SectoredLap, sectorCount: nat)
    ensures Eligible(lap, sectorCount) <==> Whole(lap, sectorCount)
  {
    if Eligible(lap, sectorCount) {
      forall ms: int | Some(ms) in lap.sectorMs ensures ms > 0 {
        var i :| 0 <= i < |lap.sectorMs| && lap.sectorMs[i] == Some(ms);
      }
    }
    if Whole(lap, sectorCount) {
      forall i | 0 <= i < sectorCount ensures lap.sectorMs[i].Some? && lap.sectorMs[i].value > 0 {
        assert lap.sectorMs[i] in lap.sectorMs;
      }
    }
  }

  ghost predicate WholeAt(laps: seq<SectoredLap>, i: nat, sectorCount: nat) {
    i < |laps| && Whole(laps[i], sectorCount)
  }

  lemma WholeBeforeLast(laps: seq<SectoredLap>, i: nat, sectorCount: nat)
    requires laps != []
    ensures var n := |laps| - 1;
            WholeAt(laps, i, sectorCount)
            <==> WholeAt(laps[..n], i, sectorCount) || (i == n && Eligible(laps[n], sectorCount))
  {
    WholeIsEligible(laps[|laps| - 1], sectorCount);
  }

  lemma {:induction false} SomeIsEligible(laps: seq<SectoredLap>, sectorCount: nat)
    ensures EligibleLaps(laps, sectorCount) != [] <==> exists i :: WholeAt(laps, i, sectorCount)
  {
    if laps != [] {
      var n := |laps| - 1;
      var before := laps[..n];
      SomeIsEligible(before, sectorCount);
      forall i: nat { WholeBeforeLast(laps, i, sectorCount); }
      if i: nat :| WholeAt(before, i, sectorCount) {
        assert WholeAt(laps, i, sectorCount);
      } else if Eligible(laps[n], sectorCount) {
        assert WholeAt(laps, n, sectorCount);
      }
    }
  }

  /** Two different laps that have every split. */
  ghost predicate WholeBoth(laps: seq<SectoredLap>, i: nat, j: nat, sectorCount: nat) {
    i < j && WholeAt(laps, i, sectorCount) && WholeAt(laps, j, sectorCount)
  }

  lemma {:induction false} TwoAreEligible(laps: seq<SectoredLap>, sectorCount: nat)
    ensures |EligibleLaps(laps, sectorCount)| >= 2 <==> exists i, j :: WholeBoth(laps, i, j, sectorCount)
  {
    if laps != [] {
      var n := |laps| - 1;
      TwoAreEligible(laps[..n], sectorCount);
      SomeIsEligible(laps[..n], sectorCount);
      forall i: nat { WholeBeforeLast(laps, i, sectorCount); }
      if i: nat, j: nat :| WholeBoth(laps[..n], i, j, sectorCount) {
        assert WholeBoth(laps, i, j, sectorCount);
      }
      if i: nat :| WholeAt(laps[..n], i, sectorCount) && Eligible(laps[n], sectorCount) {
        assert WholeBoth(laps, i, n, sectorCount);
      }
      if i: nat, j: nat :| WholeBoth(laps, i, j, sectorCount) && !WholeBoth(laps[..n], i, j, sectorCount) {
        assert WholeAt(laps[..n], i, sectorCount);
      }
    }
  }

  /** **There is an optimal lap exactly when two laps have every split**, each present and positive. */
  lemma CombinedExactly(laps: seq<SectoredLap>, sectorCount: nat)
    requires sectorCount > 0
    ensures Best(laps, sectorCount).Some? <==> exists i, j :: WholeBoth(laps, i, j, sectorCount)
  {
    TwoAreEligible(laps, sectorCount);
  }

  ghost function TotalM(laps: seq<SectoredLap>): real {
    if laps == [] then 0.0 else TotalM(laps[..|laps| - 1]) + laps[|laps| - 1].distanceM
  }

  /** These laps set the sectors. */
  ghost predicate SetThem(laps: seq<SectoredLap>, setters: seq<SectoredLap>, sectors: seq<BestSector>,
                          sectorCount: nat) {
    |setters| == |sectors|
    && forall i :: 0 <= i < |setters| ==>
       setters[i] in laps && Whole(setters[i], sectorCount) && setters[i].lapNumber == sectors[i].lapNumber
  }

  /** The mean of that many distances. */
  ghost predicate IsMean(meanM: real, totalM: real, count: nat) {
    meanM * (count as real) == totalM
  }

  lemma OneMoreShare(shared: real, totalM: real, distanceM: real, sectorCount: nat)
    requires sectorCount > 0 && IsMean(shared, totalM, sectorCount)
    ensures IsMean(shared + Share(distanceM, sectorCount), totalM + distanceM, sectorCount)
  {
    AllShares(distanceM, sectorCount);
  }

  lemma {:induction false} SharesOfSetters(laps: seq<SectoredLap>, eligible: seq<SectoredLap>, sectors: seq<BestSector>,
                                           sectorCount: nat) returns (setters: seq<SectoredLap>)
    requires sectorCount > 0
    requires forall lap :: lap in eligible ==> lap in laps && Eligible(lap, sectorCount)
    requires forall i :: 0 <= i < |sectors| ==> FindLap(eligible, sectors[i].lapNumber).Some?
    ensures SetThem(laps, setters, sectors, sectorCount)
    ensures IsMean(SharedM(eligible, sectors, sectorCount), TotalM(setters), sectorCount)
  {
    if sectors == [] {
      setters := [];
    } else {
      var n := |sectors| - 1;
      var before := SharesOfSetters(laps, eligible, sectors[..n], sectorCount);
      var last := FindLap(eligible, sectors[n].lapNumber).value;
      WholeIsEligible(last, sectorCount);
      setters := before + [last];
      assert setters[..n] == before;
      OneMoreShare(SharedM(eligible, sectors[..n], sectorCount), TotalM(before), last.distanceM, sectorCount);
    }
  }

  ghost predicate AllSetBy(sectors: seq<BestSector>, lapNumber: int) {
    forall best :: best in sectors ==> best.lapNumber == lapNumber
  }

  lemma OnlyLapSetsAll(sectors: seq<BestSector>, lapNumber: int)
    requires sectors != []
    ensures OnlyLap(sectors) == Some(lapNumber) <==> AllSetBy(sectors, lapNumber)
  {
    assert forall i :: 0 <= i < |sectors| ==> sectors[i] in sectors;
  }

  /** **The optimal lap is put together from the laps that set its sectors**: its distance is the mean of
      theirs, and it matches a lap exactly when all the sectors are that lap's. */
  lemma OptimalIsOfItsSetters(laps: seq<SectoredLap>, sectorCount: nat) returns (setters: seq<SectoredLap>)
    requires sectorCount > 0 && Best(laps, sectorCount).Some?
    ensures var best := Best(laps, sectorCount).value;
            && |best.sectors| == sectorCount && SetThem(laps, setters, best.sectors, sectorCount)
            && IsMean(best.distanceM, TotalM(setters), sectorCount)
            && forall number :: best.matchesLapNumber == Some(number) <==> AllSetBy(best.sectors, number)
  {
    var eligible := EligibleLaps(laps, sectorCount);
    var sectors := BestSectors(eligible, sectorCount);
    WinnersAreFound(eligible, sectorCount);
    setters := SharesOfSetters(laps, eligible, sectors, sectorCount);
    forall number ensures OnlyLap(sectors) == Some(number) <==> AllSetBy(sectors, number) {
      OnlyLapSetsAll(sectors, number);
    }
  }
}
