/** What the segmenter does over a whole session: every lap it derives, and every fix it saw. */
module LapRun {
  import opened SampleMath
  import opened Analysis
  import opened Geo
  import opened GateCrossing
  import opened LapDistance
  import opened LapSegmenter
  import BrakingPoints
  import Sectors

  ghost predicate AllPositioned(fixes: seq<Sample>) {
    forall i :: 0 <= i < |fixes| ==> IsPositioned(fixes[i])
  }

  /** The state after the first `n` fixes. */
  ghost function RunTo(c: Setup, fixes: seq<Sample>, n: nat): State
    requires n <= |fixes|
  {
    if n == 0 then Initial else Push(c, RunTo(c, fixes, n - 1), fixes[n - 1])
  }

  lemma {:induction false} RunToIsRun(c: Setup, fixes: seq<Sample>, n: nat)
    requires n <= |fixes|
    ensures RunTo(c, fixes, n) == Run(c, fixes[..n])
  {
    if n > 0 {
      RunToIsRun(c, fixes, n - 1);
      assert fixes[..n][..n - 1] == fixes[..n - 1];
    }
  }

  /** A sample with no position leaves no trace. */
  lemma {:induction false} OnlyLocatedCount(c: Setup, samples: seq<Sample>)
    ensures Run(c, samples) == Run(c, Located(samples))
  {
    if samples != [] {
      var n := |samples| - 1;
      OnlyLocatedCount(c, samples[..n]);
      var front := Located(samples[..n]);
      if IsPositioned(samples[n]) {
        assert (front + [samples[n]])[..|front|] == front;
      } else {
        assert front + [] == front;
      }
    }
  }

  // ------------------------------------------------------------------------------------------
  // Hops
  // ------------------------------------------------------------------------------------------

  /** Hop `h`, from fix `h - 1` to fix `h`, and where it crosses the line, in either direction. */
  function CrossingAt(c: Setup, fixes: seq<Sample>, h: nat): Option<Crossing> {
    if 0 < h < |fixes| then FindGateCrossing(FixOfSample(fixes[h - 1]), FixOfSample(fixes[h]), c.gate, 0) else None
  }

  /** Every hop's crossing, by hop. */
  function Crossings(c: Setup, fixes: seq<Sample>): (cs: seq<Option<Crossing>>)
    ensures |cs| == |fixes|
    ensures forall h :: 0 <= h < |cs| ==> cs[h] == CrossingAt(c, fixes, h)
  {
    seq(|fixes|, h requires 0 <= h < |fixes| => CrossingAt(c, fixes, h))
  }

  ghost predicate Towards(cs: seq<Option<Crossing>>, h: nat, dirSign: int) {
    h < |cs| && cs[h].Some? && cs[h].value.dirSign == dirSign
  }

  function CrossMs(cs: seq<Option<Crossing>>, h: nat): real {
    if h < |cs| && cs[h].Some? then cs[h].value.crossMs else 0.0
  }

  /** The hops at which the segmenter, fed the first `n` fixes, changed laps. */
  ghost function Hops(c: Setup, fixes: seq<Sample>, n: nat): seq<nat>
    requires n <= |fixes|
  {
    if n == 0 then [] else
      Hops(c, fixes, n - 1) + (if Accepted(c, RunTo(c, fixes, n - 1), fixes[n - 1]).Some? then [n - 1] else [])
  }

  /** Where the stretch of hop `k` ends: at the next counted hop, or where the run has got to. */
  function Until(hops: seq<nat>, k: nat, n: nat): nat {
    if k + 1 < |hops| then hops[k + 1] else n
  }

  /** Every counted hop crosses in the racing direction. */
  ghost predicate OneDirection(cs: seq<Option<Crossing>>, n: nat, dirSign: int, hops: seq<nat>) {
    && (forall k :: 0 <= k < |hops| ==> 0 < hops[k] < n && Towards(cs, hops[k], dirSign))
    && (dirSign == 0 <==> hops == [])
  }

  /** Each counted crossing comes no sooner than the minimum lap after the one before. */
  ghost predicate Spaced(cs: seq<Option<Crossing>>, hops: seq<nat>) {
    forall k {:trigger SpacedAt(cs, hops, k)} :: 0 < k < |hops| ==> SpacedAt(cs, hops, k)
  }

  ghost predicate SpacedAt(cs: seq<Option<Crossing>>, hops: seq<nat>, k: nat)
    requires 0 < k < |hops|
  {
    hops[k - 1] < hops[k] && CrossMs(cs, hops[k]) - CrossMs(cs, hops[k - 1]) >= 3000.0
  }

  /** Between two hops no crossing in the racing direction comes a minimum lap after the first. */
  ghost predicate QuietAfter(cs: seq<Option<Crossing>>, from: nat, until: nat, dirSign: int) {
    forall j | from < j < until && Towards(cs, j, dirSign) :: CrossMs(cs, j) - CrossMs(cs, from) < 3000.0
  }

  ghost predicate NoCrossingBefore(cs: seq<Option<Crossing>>, until: nat) {
    forall j | 0 < j < until && j < |cs| :: cs[j].None?
  }

  /** No crossing that could have been counted is passed over. */
  ghost predicate NoneMissed(cs: seq<Option<Crossing>>, n: nat, dirSign: int, hops: seq<nat>) {
    && (forall k {:trigger Until(hops, k, n)} :: 0 <= k < |hops| ==>
        QuietAfter(cs, hops[k], Until(hops, k, n), dirSign))
    && NoCrossingBefore(cs, if hops == [] then n else hops[0])
  }

  ghost predicate HopsOk(cs: seq<Option<Crossing>>, n: nat, dirSign: int, hops: seq<nat>) {
    && n <= |cs|
    && OneDirection(cs, n, dirSign, hops) && Spaced(cs, hops) && NoneMissed(cs, n, dirSign, hops)
  }

  /** Hop `n` is counted. */
  lemma CountHop(cs: seq<Option<Crossing>>, n: nat, dirSign: int, hops: seq<nat>, dirSign': int)
    requires 0 < n < |cs| && HopsOk(cs, n, dirSign, hops) && Towards(cs, n, dirSign') && dirSign' != 0
    requires hops != [] ==> dirSign' == dirSign && CrossMs(cs, n) - CrossMs(cs, hops[|hops| - 1]) >= MIN_LAP_MS
    ensures HopsOk(cs, n + 1, dirSign', hops + [n])
  {
    var hops' := hops + [n];
    forall k | 0 < k < |hops'| ensures SpacedAt(cs, hops', k) {
      assert k < |hops| ==> SpacedAt(cs, hops, k);
    }
    forall k | 0 <= k < |hops'| ensures QuietAfter(cs, hops'[k], Until(hops', k, n + 1), dirSign') {
      if k < |hops| {
        assert Until(hops', k, n + 1) == Until(hops, k, n) && hops'[k] == hops[k];
      }
    }
    assert hops == [] ==> NoCrossingBefore(cs, hops'[0]);
    assert hops != [] ==> hops'[0] == hops[0];
  }

  /** Hop `n` is not counted, for a reason. */
  lemma PassHop(cs: seq<Option<Crossing>>, n: nat, dirSign: int, hops: seq<nat>)
    requires n < |cs| && HopsOk(cs, n, dirSign, hops)
    requires n > 0 && cs[n].Some? ==>
               hops != [] && (cs[n].value.dirSign == dirSign ==>
                              CrossMs(cs, n) - CrossMs(cs, hops[|hops| - 1]) < MIN_LAP_MS)
    ensures HopsOk(cs, n + 1, dirSign, hops)
  {
    forall k | 0 <= k < |hops| ensures QuietAfter(cs, hops[k], Until(hops, k, n + 1), dirSign) {
      assert QuietAfter(cs, hops[k], Until(hops, k, n), dirSign);
    }
  }

  // ------------------------------------------------------------------------------------------
  // Laps
  // ------------------------------------------------------------------------------------------

  function AnchorAt(fixes: seq<Sample>, cs: seq<Option<Crossing>>, h: nat): LapPoint
    requires 0 < h < |fixes| == |cs| && cs[h].Some?
  {
    Anchor(fixes[h - 1], fixes[h], cs[h].value)
  }

  /** From the anchor of hop `h` through the fixes before fix `n`. */
  function Stretch(fixes: seq<Sample>, cs: seq<Option<Crossing>>, h: nat, n: nat): seq<LapPoint>
    requires 0 < h < |fixes| == |cs| && cs[h].Some? && h <= n <= |fixes| && AllPositioned(fixes)
  {
    [AnchorAt(fixes, cs, h)] + PointsOf(fixes[h..n])
  }

  /** The points of the lap between two hops: both anchors, and every fix in between. */
  function LapPoints(p: Plane, fixes: seq<Sample>, cs: seq<Option<Crossing>>, h: nat, k: nat): seq<LapPoint>
    requires 0 < h < k < |fixes| == |cs| && cs[h].Some? && cs[k].Some? && AllPositioned(fixes)
  {
    Axis(p, Stretch(fixes, cs, h, k) + [AnchorAt(fixes, cs, k)])
  }

  ghost predicate LapsOk(c: Setup, fixes: seq<Sample>, cs: seq<Option<Crossing>>, n: nat, s: State, hops: seq<nat>)
    requires n <= |fixes| == |cs| && AllPositioned(fixes) && HopsOk(cs, n, s.dirSign, hops)
  {
    && |s.laps| == (if hops == [] then 0 else |hops| - 1)
    && (forall k {:trigger LapAt(c, fixes, cs, s, hops, k)} :: 0 < k < |hops| ==> LapAt(c, fixes, cs, s, hops, k))
  }

  /** Lap `k` runs from counted hop `k - 1` to counted hop `k`. */
  ghost predicate LapAt(c: Setup, fixes: seq<Sample>, cs: seq<Option<Crossing>>, s: State, hops: seq<nat>, k: nat)
    requires 0 < k < |hops| && AllPositioned(fixes) && |fixes| == |cs|
  {
    && k <= |s.laps|
    && 0 < hops[k - 1] < hops[k] < |fixes| && cs[hops[k - 1]].Some? && cs[hops[k]].Some?
    && s.laps[k - 1] == LapOf(c, k, LapPoints(c.plane, fixes, cs, hops[k - 1], hops[k]))
  }

  ghost predicate OpenLapOk(c: Setup, fixes: seq<Sample>, cs: seq<Option<Crossing>>, n: nat, s: State, hops: seq<nat>)
    requires n <= |fixes| == |cs| && AllPositioned(fixes) && HopsOk(cs, n, s.dirSign, hops)
  {
    && s.prev == (if n == 0 then None else Some(fixes[n - 1]))
    && s.lapNumber == |hops|
    && s.points == (if hops == [] then None else Some(Axis(c.plane, Stretch(fixes, cs, hops[|hops| - 1], n))))
  }

  // ------------------------------------------------------------------------------------------
  // Every run
  // ------------------------------------------------------------------------------------------

  lemma RequiredOnlyFilters(prev: Fix, cur: Fix, g: ProjectedGate, required: int)
    ensures FindGateCrossing(prev, cur, g, required)
            == var any := FindGateCrossing(prev, cur, g, 0);
               if any.Some? && (required == 0 || any.value.dirSign == required) then any else None
    ensures FindGateCrossing(prev, cur, g, 0).Some? ==> FindGateCrossing(prev, cur, g, 0).value.dirSign in {1, -1}
  {
    if Bridgeable(prev, cur) {
      var f := FrameOf(prev, cur, g);
      if !(-PARALLEL < f.Denom() < PARALLEL) {
        var t, u := f.T(), f.U();
        assert 0.0 <= t <= 1.0 && 0.0 <= u <= 1.0 <==> FindGateCrossing(prev, cur, g, 0).Some?;
      }
    }
  }

  lemma {:induction false} AxisKeepsFirst(p: Plane, points: seq<LapPoint>)
    requires points != []
    ensures Axis(p, points) != [] && Axis(p, points)[0] == points[0].(distM := 0.0)
  {
    if |points| > 1 {
      AxisKeepsFirst(p, points[..|points| - 1]);
    }
  }

  /** Which crossing a state accepts, given when its lap began. */
  lemma AcceptedIs(c: Setup, s: State, fixes: seq<Sample>, n: nat)
    requires n < |fixes| && s.prev == (if n == 0 then None else Some(fixes[n - 1]))
    requires s.points.Some? ==> s.points.value != []
    ensures var any := CrossingAt(c, fixes, n);
            Accepted(c, s, fixes[n])
            == if any.Some? && (s.dirSign == 0 || any.value.dirSign == s.dirSign)
                 && (s.points.None? || any.value.crossMs - s.points.value[0].timeMs >= MIN_LAP_MS) then any else None
    ensures CrossingAt(c, fixes, n).Some? ==> CrossingAt(c, fixes, n).value.dirSign in {1, -1}
  {
    if n > 0 {
      RequiredOnlyFilters(FixOfSample(fixes[n - 1]), FixOfSample(fixes[n]), c.gate, s.dirSign);
    }
  }

  lemma {:induction false} StretchStart(p: Plane, fixes: seq<Sample>, cs: seq<Option<Crossing>>, h: nat, n: nat)
    requires 0 < h < |fixes| == |cs| && cs[h].Some? && h <= n <= |fixes| && AllPositioned(fixes)
    ensures var points := Axis(p, Stretch(fixes, cs, h, n)); points != [] && points[0].timeMs == CrossMs(cs, h)
  {
    AxisKeepsFirst(p, Stretch(fixes, cs, h, n));
  }

  lemma {:induction false} StretchMore(p: Plane, fixes: seq<Sample>, cs: seq<Option<Crossing>>, h: nat, n: nat)
    requires 0 < h < |fixes| == |cs| && cs[h].Some? && h <= n < |fixes| && AllPositioned(fixes)
    ensures Axis(p, Stretch(fixes, cs, h, n + 1))
            == Append(p, Axis(p, Stretch(fixes, cs, h, n)), PointOfSample(fixes[n]))
  {
    assert fixes[h..n + 1] == fixes[h..n] + [fixes[n]];
    assert Stretch(fixes, cs, h, n + 1) == Stretch(fixes, cs, h, n) + [PointOfSample(fixes[n])];
    AxisMore(p, Stretch(fixes, cs, h, n), PointOfSample(fixes[n]));
  }

  lemma {:induction false} StretchNew(p: Plane, fixes: seq<Sample>, cs: seq<Option<Crossing>>, n: nat)
    requires 0 < n < |fixes| == |cs| && cs[n].Some? && AllPositioned(fixes)
    ensures Axis(p, Stretch(fixes, cs, n, n)) == [AnchorAt(fixes, cs, n)]
  {
    assert Stretch(fixes, cs, n, n) == [AnchorAt(fixes, cs, n)];
    assert Stretch(fixes, cs, n, n)[..0] == [];
  }

  ghost predicate ShapeOk(c: Setup, fixes: seq<Sample>, cs: seq<Option<Crossing>>, n: nat, s: State, hops: seq<nat>)
    requires n <= |fixes| == |cs| && AllPositioned(fixes)
  {
    HopsOk(cs, n, s.dirSign, hops) && LapsOk(c, fixes, cs, n, s, hops) && OpenLapOk(c, fixes, cs, n, s, hops)
  }

  ghost predicate Countable(cs: seq<Option<Crossing>>, n: nat, dirSign: int, hops: seq<nat>) {
    && n < |cs| && cs[n].Some?
    && (hops != [] ==> cs[n].value.dirSign == dirSign && CrossMs(cs, n) - CrossMs(cs, hops[|hops| - 1]) >= MIN_LAP_MS)
  }

  /** The hop to fix `n` is counted exactly when it crosses towards the racing direction, if one is
      latched, a minimum lap after the last counted crossing, if there is one. */
  lemma CountedIff(c: Setup, fixes: seq<Sample>, cs: seq<Option<Crossing>>, n: nat, s: State, hops: seq<nat>)
    requires n < |fixes| && AllPositioned(fixes) && cs == Crossings(c, fixes) && ShapeOk(c, fixes, cs, n, s, hops)
    ensures var accepted := Accepted(c, s, fixes[n]);
            && (accepted.Some? ==> n > 0 && accepted == cs[n] && cs[n].value.dirSign in {1, -1})
            && (accepted.Some? <==> Countable(cs, n, s.dirSign, hops))
  {
    if hops != [] {
      StretchStart(c.plane, fixes, cs, hops[|hops| - 1], n);
    }
    AcceptedIs(c, s, fixes, n);
    assert cs[n] == CrossingAt(c, fixes, n);
  }

  /** The lap a counted crossing closes. */
  lemma PushCloses(c: Setup, fixes: seq<Sample>, cs: seq<Option<Crossing>>, n: nat, s: State, hops: seq<nat>)
    requires n < |fixes| && AllPositioned(fixes) && cs == Crossings(c, fixes) && ShapeOk(c, fixes, cs, n, s, hops)
    requires Accepted(c, s, fixes[n]).Some? && hops != []
    ensures LapAt(c, fixes, cs, Push(c, s, fixes[n]), hops + [n], |hops|)
  {
    CountedIff(c, fixes, cs, n, s, hops);
    AxisMore(c.plane, Stretch(fixes, cs, hops[|hops| - 1], n), AnchorAt(fixes, cs, n));
  }

  /** Closing a lap leaves the laps before it as they are. */
  lemma PushKeepsLaps(c: Setup, fixes: seq<Sample>, cs: seq<Option<Crossing>>, n: nat, s: State, hops: seq<nat>, k: nat)
    requires n < |fixes| && AllPositioned(fixes) && |fixes| == |cs| && 0 < k < |hops| && LapAt(c, fixes, cs, s, hops, k)
    ensures LapAt(c, fixes, cs, Push(c, s, fixes[n]), hops + [n], k)
  {}

  lemma PushCloseEach(c: Setup, fixes: seq<Sample>, cs: seq<Option<Crossing>>, n: nat, s: State, hops: seq<nat>)
    returns (s': State, hops': seq<nat>)
    requires n < |fixes| && AllPositioned(fixes) && cs == Crossings(c, fixes) && ShapeOk(c, fixes, cs, n, s, hops)
    requires Accepted(c, s, fixes[n]).Some?
    ensures s' == Push(c, s, fixes[n]) && hops' == hops + [n] && |s'.laps| == |hops|
    ensures forall k {:trigger LapAt(c, fixes, cs, s', hops', k)} :: 0 < k < |hops'| ==>
            LapAt(c, fixes, cs, s', hops', k)
  {
    CountedIff(c, fixes, cs, n, s, hops);
    s', hops' := Push(c, s, fixes[n]), hops + [n];
    forall k | 0 < k < |hops'| ensures LapAt(c, fixes, cs, s', hops', k) {
      if k == |hops| {
        PushCloses(c, fixes, cs, n, s, hops);
      } else {
        assert LapAt(c, fixes, cs, s, hops, k);
        PushKeepsLaps(c, fixes, cs, n, s, hops, k);
      }
    }
  }

  lemma PushCounted(c: Setup, fixes: seq<Sample>, cs: seq<Option<Crossing>>, n: nat, s: State, hops: seq<nat>)
    requires n < |fixes| && AllPositioned(fixes) && cs == Crossings(c, fixes) && ShapeOk(c, fixes, cs, n, s, hops)
    requires Accepted(c, s, fixes[n]).Some?
    ensures ShapeOk(c, fixes, cs, n + 1, Push(c, s, fixes[n]), hops + [n])
  {
    CountedIff(c, fixes, cs, n, s, hops);
    var s' := Push(c, s, fixes[n]);
    CountHop(cs, n, s.dirSign, hops, s'.dirSign);
    StretchNew(c.plane, fixes, cs, n);
    StretchMore(c.plane, fixes, cs, n, n);
    var s'', hops' := PushCloseEach(c, fixes, cs, n, s, hops);
  }

  lemma PushPassed(c: Setup, fixes: seq<Sample>, cs: seq<Option<Crossing>>, n: nat, s: State, hops: seq<nat>)
    requires n < |fixes| && AllPositioned(fixes) && cs == Crossings(c, fixes) && ShapeOk(c, fixes, cs, n, s, hops)
    requires Accepted(c, s, fixes[n]).None?
    ensures ShapeOk(c, fixes, cs, n + 1, Push(c, s, fixes[n]), hops)
  {
    CountedIff(c, fixes, cs, n, s, hops);
    PassHop(cs, n, s.dirSign, hops);
    if hops != [] {
      StretchMore(c.plane, fixes, cs, hops[|hops| - 1], n);
    }
    forall k | 0 < k < |hops| ensures LapAt(c, fixes, cs, Push(c, s, fixes[n]), hops, k) {
      assert LapAt(c, fixes, cs, s, hops, k);
    }
  }

  lemma PushShape(c: Setup, fixes: seq<Sample>, n: nat, s: State, hops: seq<nat>) returns (s': State, hops': seq<nat>)
    requires n < |fixes| && AllPositioned(fixes) && ShapeOk(c, fixes, Crossings(c, fixes), n, s, hops)
    ensures s' == Push(c, s, fixes[n]) && hops' == hops + (if Accepted(c, s, fixes[n]).Some? then [n] else [])
    ensures ShapeOk(c, fixes, Crossings(c, fixes), n + 1, s', hops')
  {
    s' := Push(c, s, fixes[n]);
    if Accepted(c, s, fixes[n]).Some? {
      PushCounted(c, fixes, Crossings(c, fixes), n, s, hops);
      hops' := hops + [n];
    } else {
      PushPassed(c, fixes, Crossings(c, fixes), n, s, hops);
      hops' := hops;
      assert hops + [] == hops;
    }
  }

  lemma InitialShape(c: Setup, fixes: seq<Sample>)
    requires AllPositioned(fixes)
    ensures ShapeOk(c, fixes, Crossings(c, fixes), 0, Initial, [])
  {}

  lemma {:induction false} RunToShape(c: Setup, fixes: seq<Sample>, n: nat) returns (s: State, hops: seq<nat>)
    requires n <= |fixes| && AllPositioned(fixes)
    ensures s == RunTo(c, fixes, n) && hops == Hops(c, fixes, n)
    ensures ShapeOk(c, fixes, Crossings(c, fixes), n, s, hops)
  {
    if n == 0 {
      InitialShape(c, fixes);
      s, hops := Initial, [];
    } else {
      s, hops := RunToShape(c, fixes, n - 1);
      s, hops := PushShape(c, fixes, n - 1, s, hops);
    }
  }

  /** **The laps of any session**: its located fixes are cut at the counted crossings; lap k is both
      anchors of its two crossings with exactly the fixes between them, in order, and the open lap has
      the fixes since the last one. */
  lemma {:induction false} SessionLaps(c: Setup, samples: seq<Sample>)
    ensures var fixes := Located(samples);
            AllPositioned(fixes)
                && ShapeOk(c, fixes, Crossings(c, fixes), |fixes|, Run(c, samples), Hops(c, fixes, |fixes|))
  {
    var fixes := Located(samples);
    OnlyLocatedCount(c, samples);
    RunToIsRun(c, fixes, |fixes|);
    assert fixes[..|fixes|] == fixes;
    var s, hops := RunToShape(c, fixes, |fixes|);
  }

  // ------------------------------------------------------------------------------------------
  // Laps of a time-ordered session
  // ------------------------------------------------------------------------------------------

  ghost predicate TimeOrdered(fixes: seq<Sample>) {
    forall i, j :: 0 <= i <= j < |fixes| ==> fixes[i].time <= fixes[j].time
  }

  ghost predicate SpeedsNonNegative(fixes: seq<Sample>) {
    forall i :: 0 <= i < |fixes| ==> NonNegativeSpeed(fixes[i].speedKmh)
  }

  lemma {:induction false} AxisChangesOnlyDistances(p: Plane, points: seq<LapPoint>)
    ensures OnAxis(p, Axis(p, points))
    ensures forall i :: 0 <= i < |points| ==> Axis(p, points)[i] == points[i].(distM := Axis(p, points)[i].distM)
  {
    if points != [] {
      AxisChangesOnlyDistances(p, points[..|points| - 1]);
      AppendOnAxis(p, Axis(p, points[..|points| - 1]), points[|points| - 1]);
    }
  }

  /** The anchor of a hop lies between its fixes, in time and in speed. */
  lemma AnchorBetween(c: Setup, fixes: seq<Sample>, h: nat)
    requires 0 < h < |fixes| && CrossingAt(c, fixes, h).Some?
    ensures var a := AnchorAt(fixes, Crossings(c, fixes), h);
            && fixes[h - 1].time as real <= a.timeMs <= fixes[h].time as real
            && (NonNegativeSpeed(fixes[h - 1].speedKmh) && NonNegativeSpeed(fixes[h].speedKmh) ==>
                NonNegativeSpeed(a.speedKmh))
  {
    CrossingIsMeeting(FixOfSample(fixes[h - 1]), FixOfSample(fixes[h]), c.gate, 0);
    var t := CrossingAt(c, fixes, h).value.t;
    if fixes[h - 1].speedKmh.Some? && fixes[h].speedKmh.Some? {
      var x, y := fixes[h - 1].speedKmh.value, fixes[h].speedKmh.value;
      if x <= y { LerpBounds(x, y, t); } else { LerpBounds(y, x, 1.0 - t); LerpFlip(x, y, t); }
    }
  }

  lemma LerpFlip(x: real, y: real, t: real)
    ensures Lerp(x, y, t) == Lerp(y, x, 1.0 - t)
  {}

  lemma RawLap(c: Setup, fixes: seq<Sample>, h: nat, k: nat)
    requires 0 < h < k < |fixes| && AllPositioned(fixes)
    requires CrossingAt(c, fixes, h).Some? && CrossingAt(c, fixes, k).Some?
    ensures var raw := Stretch(fixes, Crossings(c, fixes), h, k) + [AnchorAt(fixes, Crossings(c, fixes), k)];
            && |raw| == k - h + 2
            && raw[0] == AnchorAt(fixes, Crossings(c, fixes), h)
            && raw[|raw| - 1] == AnchorAt(fixes, Crossings(c, fixes), k)
            && forall i :: 0 < i < |raw| - 1 ==> raw[i] == PointOfSample(fixes[h + i - 1])
  {
    var cs := Crossings(c, fixes);
    assert |PointsOf(fixes[h..k])| == k - h;
    forall i | 0 < i < k - h + 1
      ensures (Stretch(fixes, cs, h, k) + [AnchorAt(fixes, cs, k)])[i] == PointOfSample(fixes[h + i - 1])
    {
      assert fixes[h..k][i - 1] == fixes[h + i - 1];
    }
  }

  /** A lap's times and distances never go back, and its axis starts at 0. */
  lemma LapPointsMonotone(c: Setup, fixes: seq<Sample>, h: nat, k: nat)
    requires 0 < h < k < |fixes| && AllPositioned(fixes)
    requires CrossingAt(c, fixes, h).Some? && CrossingAt(c, fixes, k).Some?
    requires TimeOrdered(fixes) && SpeedsNonNegative(fixes) && Sound(c.plane)
    ensures var points := LapPoints(c.plane, fixes, Crossings(c, fixes), h, k);
            |points| >= 3 && points[0].distM == 0.0 && Sectors.MonotoneLap(points)
  {
    var cs := Crossings(c, fixes);
    var raw := Stretch(fixes, cs, h, k) + [AnchorAt(fixes, cs, k)];
    RawLap(c, fixes, h, k);
    AxisChangesOnlyDistances(c.plane, raw);
    AnchorBetween(c, fixes, h);
    AnchorBetween(c, fixes, k);
    var points := Axis(c.plane, raw);
    forall i | 0 <= i < |points| ensures NonNegativeSpeed(points[i].speedKmh) {}
    AxisAscends(c.plane, points);
    forall i, j | 0 <= i <= j < |points| ensures points[i].timeMs <= points[j].timeMs {
      RawTimes(c, fixes, h, k, raw, i, j);
    }
  }

  lemma RawTimes(c: Setup, fixes: seq<Sample>, h: nat, k: nat, raw: seq<LapPoint>, i: nat, j: nat)
    requires 0 < h < k < |fixes| && AllPositioned(fixes) && TimeOrdered(fixes)
    requires CrossingAt(c, fixes, h).Some? && CrossingAt(c, fixes, k).Some?
    requires raw == Stretch(fixes, Crossings(c, fixes), h, k) + [AnchorAt(fixes, Crossings(c, fixes), k)]
    requires i <= j < |raw|
    ensures raw[i].timeMs <= raw[j].timeMs
  {
    RawLap(c, fixes, h, k);
    AnchorBetween(c, fixes, h);
    AnchorBetween(c, fixes, k);
    var from, to := if i == 0 then h else h + i - 1, if j == |raw| - 1 then k - 1 else h + j - 1;
    if i < j {
      assert from <= to ==> fixes[from].time <= fixes[to].time;
    }
  }

  /** A derived lap with its place in the session: the hops at which it starts and ends. */
  ghost predicate LapBetween(c: Setup, fixes: seq<Sample>, s: State, k: nat, from: nat, to: nat)
    requires AllPositioned(fixes)
  {
    && 0 < k <= |s.laps|
    && 0 < from < to < |fixes| && CrossingAt(c, fixes, from).Some? && CrossingAt(c, fixes, to).Some?
    && s.laps[k - 1] == LapOf(c, k, LapPoints(c.plane, fixes, Crossings(c, fixes), from, to))
    && CrossingAt(c, fixes, to).value.crossMs - CrossingAt(c, fixes, from).value.crossMs >= 3000.0
    && CrossingAt(c, fixes, from).value.dirSign == CrossingAt(c, fixes, to).value.dirSign == s.dirSign
  }

  lemma LapInState(c: Setup, fixes: seq<Sample>, s: State, hops: seq<nat>, k: nat)
    requires AllPositioned(fixes) && ShapeOk(c, fixes, Crossings(c, fixes), |fixes|, s, hops) && 0 < k <= |s.laps|
    ensures k < |hops| && LapBetween(c, fixes, s, k, hops[k - 1], hops[k])
  {
    var cs := Crossings(c, fixes);
    assert LapAt(c, fixes, cs, s, hops, k);
    assert SpacedAt(cs, hops, k);
    assert cs[hops[k - 1]] == CrossingAt(c, fixes, hops[k - 1]) && cs[hops[k]] == CrossingAt(c, fixes, hops[k]);
  }

  lemma LapInSession(c: Setup, samples: seq<Sample>, k: nat) returns (from: nat, to: nat)
    requires 0 < k <= |Run(c, samples).laps|
    ensures AllPositioned(Located(samples)) && LapBetween(c, Located(samples), Run(c, samples), k, from, to)
    ensures var hops := Hops(c, Located(samples), |Located(samples)|);
            k < |hops| && from == hops[k - 1] && to == hops[k]
  {
    var fixes := Located(samples);
    var hops := Hops(c, fixes, |fixes|);
    SessionLaps(c, samples);
    LapInState(c, fixes, Run(c, samples), hops, k);
    from, to := hops[k - 1], hops[k];
  }

  lemma LapEnds(c: Setup, fixes: seq<Sample>, h: nat, k: nat)
    requires 0 < h < k < |fixes| && AllPositioned(fixes)
    requires CrossingAt(c, fixes, h).Some? && CrossingAt(c, fixes, k).Some?
    ensures var points, cs := LapPoints(c.plane, fixes, Crossings(c, fixes), h, k), Crossings(c, fixes);
            && |points| == k - h + 2
            && points[0].(distM := 0.0) == AnchorAt(fixes, cs, h)
            && points[|points| - 1].(distM := 0.0) == AnchorAt(fixes, cs, k)
  {
    var cs := Crossings(c, fixes);
    var raw := Stretch(fixes, cs, h, k) + [AnchorAt(fixes, cs, k)];
    RawLap(c, fixes, h, k);
    AxisChangesOnlyDistances(c.plane, raw);
  }

  /** **Every derived lap**: numbered from 1 in order, at least the minimum lap long, monotone on both
      axes from distance 0, with splits that add up to it; and the next lap opens on the very anchor it
      ends on. */
  lemma {:induction false} LapsAreSound(c: Setup, samples: seq<Sample>, k: nat)
    requires 0 < k <= |Run(c, samples).laps| && Sound(c.plane)
    requires TimeOrdered(Located(samples)) && SpeedsNonNegative(Located(samples))
    ensures var laps := Run(c, samples).laps;
            var lap := laps[k - 1];
            && lap.lapNumber == k
            && |lap.points| >= 3 && lap.points[0].distM == 0.0 && Sectors.MonotoneLap(lap.points)
            && lap.points[|lap.points| - 1].timeMs - lap.points[0].timeMs >= 3000.0
            && lap.lapMs >= 3000
            && (k < |laps| ==> laps[k].points != [])
            && (k < |laps| ==> laps[k].points[0] == lap.points[|lap.points| - 1].(distM := 0.0))
  {
    var fixes, s := Located(samples), Run(c, samples);
    var from, to := LapInSession(c, samples, k);
    LapPointsMonotone(c, fixes, from, to);
    LapEnds(c, fixes, from, to);
    RoundMonotone(MIN_LAP_MS, s.laps[k - 1].points[to - from + 1].timeMs - s.laps[k - 1].points[0].timeMs);
    if k < |s.laps| {
      var from', to' := LapInSession(c, samples, k + 1);
      LapPointsMonotone(c, fixes, from', to');
      LapEnds(c, fixes, from', to');
    }
  }

  /** The splits of a derived lap are not negative and add up to its time within half a millisecond each. */
  lemma {:induction false} LapSplitsAddUp(c: Setup, samples: seq<Sample>, k: nat)
    requires 0 < k <= |Run(c, samples).laps| && Sound(c.plane)
    requires TimeOrdered(Located(samples)) && SpeedsNonNegative(Located(samples))
    ensures var lap := Run(c, samples).laps[k - 1];
            lap.sectorMs != [] ==>
              && (forall i :: 0 <= i < |lap.sectorMs| ==> lap.sectorMs[i] >= 0)
              && - ((|lap.sectorMs| + 1) / 2) <= Sectors.Sum(lap.sectorMs) - lap.lapMs <= (|lap.sectorMs| + 1) / 2
  {
    LapsAreSound(c, samples, k);
    var from, to := LapInSession(c, samples, k);
    var lap := Run(c, samples).laps[k - 1];
    Sectors.SectorTimesAddUp(lap.points, c.sectorCount);
    if c.sectorGates.Some? {
      Sectors.GateTimesAddUp(c.plane, lap.points, c.sectorGates.value);
    }
  }

  // ------------------------------------------------------------------------------------------
  // The figures of a lap
  // ------------------------------------------------------------------------------------------

  /** The least and the greatest speed of the points, each a point's own; none when no point has one. */
  ghost predicate SpeedsAre(points: seq<LapPoint>, least: Option<real>, greatest: Option<real>) {
    if forall i :: 0 <= i < |points| ==> points[i].speedKmh.None? then least.None? && greatest.None?
    else
      && least.Some? && (exists i :: 0 <= i < |points| && points[i].speedKmh == least)
      && greatest.Some? && (exists i :: 0 <= i < |points| && points[i].speedKmh == greatest)
      && forall i :: 0 <= i < |points| && points[i].speedKmh.Some? ==>
         least.value <= points[i].speedKmh.value <= greatest.value
  }

  /** Every figure of a lap, read off its points. */
  ghost predicate FiguresAre(c: Setup, lap: DerivedLap)
    requires lap.points != []
  {
    var first, last := lap.points[0], lap.points[|lap.points| - 1];
    && IsNearest(lap.startedAt, first.timeMs) && IsNearest(lap.endedAt, last.timeMs)
    && IsNearest(lap.lapMs, last.timeMs - first.timeMs) && IsNearest(lap.distanceM, last.distM)
    && SpeedsAre(lap.points, lap.minSpeedKmh, lap.maxSpeedKmh)
    && lap.brakingPoints == BrakingPoints.Detect(lap.points)
    && match c.sectorGates
       case None => lap.sectorMs == Sectors.SectorTimes(lap.points, c.sectorCount)
       case Some(gates) => lap.sectorMs == Sectors.SectorTimesFromGates(c.plane, lap.points, gates)
  }

  lemma LapHasFigures(c: Setup, lapNumber: nat, points: seq<LapPoint>)
    requires points != []
    ensures FiguresAre(c, LapOf(c, lapNumber, points))
  {
    var first, last := points[0], points[|points| - 1];
    RoundIsNearest(Round(first.timeMs), first.timeMs);
    RoundIsNearest(Round(last.timeMs), last.timeMs);
    RoundIsNearest(Round(last.timeMs - first.timeMs), last.timeMs - first.timeMs);
    RoundIsNearest(Round(last.distM), last.distM);
    SpeedsAreExtremes(points);
  }

  /** **Every lap of a session has its points' own figures**: its instants, time and distance to the nearest whole,
      the extremes of its speeds, its braking zones, and its splits at the gates given or, without any, at equal
      distances. */
  lemma LapFigures(c: Setup, samples: seq<Sample>, k: nat)
    requires 0 < k <= |Run(c, samples).laps|
    ensures var lap := Run(c, samples).laps[k - 1]; lap.points != [] && FiguresAre(c, lap)
  {
    var from, to := LapInSession(c, samples, k);
    var fixes := Located(samples);
    LapEnds(c, fixes, from, to);
    LapHasFigures(c, k, LapPoints(c.plane, fixes, Crossings(c, fixes), from, to));
  }
}
