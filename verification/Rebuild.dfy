/** A lap's trace rebuilt from its stored samples and stored bounds, against the lap the segmenter held
    when it closed it. Stored bounds are rounded to the millisecond; everything here is what that costs. */
module Rebuild {
  import opened SampleMath
  import opened Analysis
  import opened Geo
  import opened GateCrossing
  import opened LapDistance
  import opened LapSegmenter
  import opened LapRun
  import opened LapTrace
  import Decimation

  /** `traceFor` of `analysis.service.ts`: the trace of a derived lap. */
  function TraceFor(p: Plane, samples: seq<Sample>, lap: DerivedLap, maxPoints: int): seq<TracePoint> {
    LapTraceOf(p, LapWindow(samples, lap.startedAt, lap.endedAt), maxPoints, lap.startedAt, lap.endedAt)
  }

  ghost predicate Whole(ms: real) {
    ms == ms.Floor as real
  }

  /** What rounding to the millisecond takes off an instant. */
  function Error(ms: real): real {
    ms - Round(ms) as real
  }

  /** Two crossed hops of a strictly ordered session. */
  ghost predicate LapHops(c: Setup, fixes: seq<Sample>, from: nat, to: nat) {
    && AllPositioned(fixes) && StrictlyOrdered(fixes)
    && 0 < from < to < |fixes| && CrossingAt(c, fixes, from).Some? && CrossingAt(c, fixes, to).Some?
  }

  /** A millisecond on a hop, either end included. */
  ghost predicate OnHop(fixes: seq<Sample>, h: nat, ms: int) {
    0 < h < |fixes| && fixes[h - 1].time <= ms <= fixes[h].time && fixes[h - 1].time < fixes[h].time
  }

  /** A lap's bounds, each on its own hop. */
  ghost predicate Bounds(fixes: seq<Sample>, from: nat, to: nat, startMs: int, endMs: int) {
    && AllPositioned(fixes) && StrictlyOrdered(fixes) && from < to
    && OnHop(fixes, from, startMs) && OnHop(fixes, to, endMs)
  }

  // ------------------------------------------------------------------------------------------
  // The fixes of the rebuilt trace
  // ------------------------------------------------------------------------------------------

  /** How far along hop `h` a millisecond is. */
  function Share(fixes: seq<Sample>, h: nat, atMs: int): real
    requires 0 < h < |fixes| && fixes[h - 1].time != fixes[h].time
  {
    (atMs - fixes[h - 1].time) as real / (fixes[h].time - fixes[h - 1].time) as real
  }

  /** The fix synthesized for `atMs` on hop `h`. */
  function Synthesized(fixes: seq<Sample>, h: nat, atMs: int): Sample
    requires AllPositioned(fixes) && 0 < h < |fixes| && fixes[h - 1].time != fixes[h].time
  {
    Between(fixes[h - 1], fixes[h], atMs, Share(fixes, h, atMs))
  }

  /** What comes before the fixes of the lap: nothing when the bound is rounded onto the first of them. */
  function Opening(fixes: seq<Sample>, h: nat, startMs: int): (r: seq<Sample>)
    requires AllPositioned(fixes) && 0 < h < |fixes| && fixes[h - 1].time != fixes[h].time
    ensures AllPositioned(r)
  {
    if startMs == fixes[h].time then []
    else if startMs == fixes[h - 1].time then [fixes[h - 1]]
    else [Synthesized(fixes, h, startMs)]
  }

  /** What comes after them: nothing when the bound is rounded onto the last of them. */
  function Closing(fixes: seq<Sample>, h: nat, endMs: int): (r: seq<Sample>)
    requires AllPositioned(fixes) && 0 < h < |fixes| && fixes[h - 1].time != fixes[h].time
    ensures AllPositioned(r)
  {
    if endMs == fixes[h - 1].time then []
    else if endMs == fixes[h].time then [fixes[h]]
    else [Synthesized(fixes, h, endMs)]
  }

  function Rebuilt(fixes: seq<Sample>, from: nat, to: nat, startMs: int, endMs: int): (r: seq<Sample>)
    requires AllPositioned(fixes) && 0 < from <= to < |fixes|
    requires fixes[from - 1].time != fixes[from].time && fixes[to - 1].time != fixes[to].time
    ensures AllPositioned(r)
  {
    Opening(fixes, from, startMs) + fixes[from..to] + Closing(fixes, to, endMs)
  }

  /** The first fix not before the lap, and the first one past it. */
  function FirstIn(fixes: seq<Sample>, from: nat, startMs: int): nat
    requires 0 < from < |fixes|
  {
    if startMs == fixes[from - 1].time then from - 1 else from
  }

  function PastLast(fixes: seq<Sample>, to: nat, endMs: int): nat
    requires 0 < to < |fixes|
  {
    if endMs == fixes[to].time then to + 1 else to
  }

  lemma InBounds(fixes: seq<Sample>, from: nat, to: nat, startMs: int, endMs: int, i: nat)
    requires Bounds(fixes, from, to, startMs, endMs) && i < |fixes|
    ensures i < FirstIn(fixes, from, startMs) <==> fixes[i].time < startMs
    ensures i < PastLast(fixes, to, endMs) <==> fixes[i].time <= endMs
  {
    assert i < from - 1 ==> Earlier(fixes, i, from - 1);
    assert from < i ==> Earlier(fixes, from, i);
    assert i < to - 1 ==> Earlier(fixes, i, to - 1);
    assert to < i ==> Earlier(fixes, to, i);
  }

  /** The slice of the session the window query returns. */
  ghost predicate Around(w: seq<Sample>, fixes: seq<Sample>, start: nat, end: nat) {
    start <= end <= |fixes| && w == fixes[start..end]
  }

  function Before(i: nat): nat {
    if i == 0 then 0 else i - 1
  }

  function After(i: nat, n: nat): nat {
    if i < n then i + 1 else i
  }

  /** The fixes in the bounds are those from `lo` on and before `hi`. */
  ghost predicate Splits(fixes: seq<Sample>, lo: nat, hi: nat, startMs: int, endMs: int) {
    && lo <= hi <= |fixes|
    && (forall i :: 0 <= i < |fixes| ==> (i < lo <==> fixes[i].time < startMs))
    && (forall i :: 0 <= i < |fixes| ==> (i < hi <==> fixes[i].time <= endMs))
  }

  lemma BoundsSplit(fixes: seq<Sample>, from: nat, to: nat, startMs: int, endMs: int)
    requires Bounds(fixes, from, to, startMs, endMs)
    ensures Splits(fixes, FirstIn(fixes, from, startMs), PastLast(fixes, to, endMs), startMs, endMs)
  {
    var lo, hi := FirstIn(fixes, from, startMs), PastLast(fixes, to, endMs);
    forall i | 0 <= i < |fixes|
      ensures (i < lo <==> fixes[i].time < startMs) && (i < hi <==> fixes[i].time <= endMs)
    {
      InBounds(fixes, from, to, startMs, endMs, i);
    }
  }

  lemma {:induction false} BeforeIs(fixes: seq<Sample>, lo: nat, hi: nat, startMs: int, endMs: int)
    requires StrictlyOrdered(fixes) && Splits(fixes, lo, hi, startMs, endMs)
    ensures LastBefore(fixes, startMs) == fixes[Before(lo)..lo]
  {
    if lo == 0 {
      NothingBefore(fixes, startMs);
    } else {
      LastBeforeIs(fixes, startMs, lo - 1);
    }
  }

  lemma {:induction false} AfterIs(fixes: seq<Sample>, lo: nat, hi: nat, startMs: int, endMs: int)
    requires StrictlyOrdered(fixes) && Splits(fixes, lo, hi, startMs, endMs)
    ensures FirstAfter(fixes, endMs) == fixes[hi..After(hi, |fixes|)]
  {
    if hi == |fixes| {
      NothingAfter(fixes, endMs);
    } else {
      FirstAfterIs(fixes, endMs, hi);
    }
  }

  lemma WindowIs(fixes: seq<Sample>, lo: nat, hi: nat, startMs: int, endMs: int) returns (w: seq<Sample>)
    requires StrictlyOrdered(fixes) && Splits(fixes, lo, hi, startMs, endMs)
    ensures w == LapWindow(fixes, startMs, endMs) && w == fixes[Before(lo)..After(hi, |fixes|)]
  {
    BeforeIs(fixes, lo, hi, startMs, endMs);
    AfterIs(fixes, lo, hi, startMs, endMs);
    InsideIs(fixes, startMs, endMs, lo, hi);
    w := LapWindow(fixes, startMs, endMs);
    SlicesJoin(fixes, Before(lo), lo, hi, After(hi, |fixes|));
  }

  lemma SlicesJoin<T>(s: seq<T>, a: nat, b: nat, c: nat, d: nat)
    requires a <= b <= c <= d <= |s|
    ensures s[a..b] + s[b..c] + s[c..d] == s[a..d]
  {}

  lemma SliceOfSlice<T>(s: seq<T>, a: nat, b: nat, c: nat, d: nat)
    requires a <= b <= c <= d <= |s|
    ensures s[a..d][b - a..c - a] == s[b..c]
  {
    var t := s[a..d];
    forall i | 0 <= i < c - b ensures t[b - a..c - a][i] == s[b..c][i] {
      assert t[b - a + i] == s[b + i];
    }
  }

  lemma {:induction false} InsideWindow(w: seq<Sample>, fixes: seq<Sample>, start: nat, end: nat, lo: nat, hi: nat,
                                        startMs: int, endMs: int)
    requires Splits(fixes, lo, hi, startMs, endMs) && start <= lo && hi <= end && Around(w, fixes, start, end)
    ensures Inside(w, startMs, endMs) == fixes[lo..hi]
  {
    forall i | 0 <= i < |w| ensures lo - start <= i < hi - start <==> startMs <= w[i].time <= endMs {
      SplitsAt(w, fixes, start, end, lo, hi, startMs, endMs, i);
    }
    InsideIs(w, startMs, endMs, lo - start, hi - start);
    SliceOfSlice(fixes, start, lo, hi, end);
  }

  lemma SplitsAt(w: seq<Sample>, fixes: seq<Sample>, start: nat, end: nat, lo: nat, hi: nat, startMs: int, endMs: int,
                 i: nat)
    requires Splits(fixes, lo, hi, startMs, endMs) && start <= lo && hi <= end && Around(w, fixes, start, end)
             && i < |w|
    ensures lo - start <= i < hi - start <==> startMs <= w[i].time <= endMs
  {
    assert w[i] == fixes[start + i];
  }

  /** The synthesized fix of a hop whose instant lies strictly inside it, when every earlier pair ends
      before that instant. */
  lemma {:induction false} InterpolateIs(w: seq<Sample>, atMs: int, i: nat, k: nat)
    requires AllPositioned(w) && StrictlyOrdered(w) && i <= k && k + 1 < |w|
    requires w[k].time < atMs < w[k + 1].time
    ensures InterpolateFrom(w, atMs, i)
            == Some(Between(w[k], w[k + 1], atMs,
                            (atMs - w[k].time) as real / (w[k + 1].time - w[k].time) as real))
    decreases k - i
  {
    if i < k {
      assert Earlier(w, i, k);
      assert i + 1 < k ==> Earlier(w, i + 1, k);
      InterpolateIs(w, atMs, i + 1, k);
    }
  }

  /** Nothing is synthesized where a fix is stored. */
  lemma {:induction false} StoredIsEnough(w: seq<Sample>, atMs: int, i: nat, k: nat)
    requires AllPositioned(w) && StrictlyOrdered(w) && i <= k < |w| && w[k].time == atMs
    ensures InterpolateFrom(w, atMs, i) == None
    decreases k - i
  {
    if i + 1 < k {
      assert Earlier(w, i, k) && Earlier(w, i + 1, k);
      StoredIsEnough(w, atMs, i + 1, k);
    }
  }

  /** What is synthesized for a bound, in the window as on its hop. */
  lemma SynthesizedInWindow(w: seq<Sample>, fixes: seq<Sample>, start: nat, end: nat, h: nat, atMs: int)
    returns (r: Option<Sample>)
    requires AllPositioned(fixes) && StrictlyOrdered(fixes) && OnHop(fixes, h, atMs)
    requires Around(w, fixes, start, end) && start < h < end
    ensures r == (if atMs == fixes[h - 1].time || atMs == fixes[h].time then None
                  else Some(Synthesized(fixes, h, atMs)))
    ensures AllPositioned(w) && InterpolateFrom(w, atMs, 0) == r
  {
    OrderedSlice(fixes, start, end);
    var k := h - 1 - start;
    assert w[k] == fixes[h - 1] && w[k + 1] == fixes[h];
    if atMs == fixes[h - 1].time {
      StoredIsEnough(w, atMs, 0, k);
      r := None;
    } else if atMs == fixes[h].time {
      StoredIsEnough(w, atMs, 0, k + 1);
      r := None;
    } else {
      InterpolateIs(w, atMs, 0, k);
      r := Some(Synthesized(fixes, h, atMs));
    }
  }

  /** The fixes of the rebuilt trace, before their distances. */
  lemma RebuiltList(fixes: seq<Sample>, from: nat, to: nat, startMs: int, endMs: int) returns (located: seq<Sample>)
    requires Bounds(fixes, from, to, startMs, endMs)
    ensures located == Rebuilt(fixes, from, to, startMs, endMs)
    ensures AllPositioned(LapWindow(fixes, startMs, endMs))
    ensures AnchorToLap(LapWindow(fixes, startMs, endMs), startMs, endMs) == located
  {
    var lo, hi := FirstIn(fixes, from, startMs), PastLast(fixes, to, endMs);
    var start, end := Before(lo), After(hi, |fixes|);
    BoundsSplit(fixes, from, to, startMs, endMs);
    var w := WindowIs(fixes, lo, hi, startMs, endMs);
    InsideWindow(w, fixes, start, end, lo, hi, startMs, endMs);
    var head := SynthesizedInWindow(w, fixes, start, end, from, startMs);
    var tail := SynthesizedInWindow(w, fixes, start, end, to, endMs);
    located := OrNothing(head) + fixes[lo..hi] + OrNothing(tail);
    Regrouped(fixes, from, to, startMs, endMs);
  }

  lemma Regrouped(fixes: seq<Sample>, from: nat, to: nat, startMs: int, endMs: int)
    requires Bounds(fixes, from, to, startMs, endMs)
    ensures (if startMs == fixes[from - 1].time || startMs == fixes[from].time then []
             else [Synthesized(fixes, from, startMs)])
            + fixes[FirstIn(fixes, from, startMs)..PastLast(fixes, to, endMs)]
            + (if endMs == fixes[to - 1].time || endMs == fixes[to].time then [] else [Synthesized(fixes, to, endMs)])
            == Rebuilt(fixes, from, to, startMs, endMs)
  {
    var lo, hi := FirstIn(fixes, from, startMs), PastLast(fixes, to, endMs);
    SlicesJoin(fixes, lo, from, to, hi);
    SliceUpTo(fixes, lo, from);
    SliceUpTo(fixes, to, hi);
    var head := if startMs == fixes[from - 1].time || startMs == fixes[from].time then []
                else [Synthesized(fixes, from, startMs)];
    var tail := if endMs == fixes[to - 1].time || endMs == fixes[to].time then [] else [Synthesized(fixes, to, endMs)];
    assert head + fixes[lo..from] == Opening(fixes, from, startMs);
    assert fixes[to..hi] + tail == Closing(fixes, to, endMs);
    Regroup(head, fixes[lo..from], fixes[from..to], fixes[to..hi], tail);
  }

  lemma Regroup<T>(a: seq<T>, b: seq<T>, c: seq<T>, d: seq<T>, e: seq<T>)
    ensures a + (b + c + d) + e == (a + b) + c + (d + e)
  {}

  /** Slices of no element and of one. */
  lemma SliceUpTo<T>(s: seq<T>, i: nat, j: nat)
    requires i <= j <= i + 1 && j <= |s|
    ensures s[i..j] == if i == j then [] else [s[i]]
  {}

  // ------------------------------------------------------------------------------------------
  // Point by point
  // ------------------------------------------------------------------------------------------

  /** A crossing's rounded instant is still on its hop. */
  lemma RoundedOnHop(c: Setup, fixes: seq<Sample>, h: nat)
    requires 0 < h < |fixes| && CrossingAt(c, fixes, h).Some?
    ensures var x := CrossingAt(c, fixes, h).value;
            && OnHop(fixes, h, Round(x.crossMs))
            && x.crossMs == Lerp(fixes[h - 1].time as real, fixes[h].time as real, x.t)
  {
    CrossingIsMeeting(FixOfSample(fixes[h - 1]), FixOfSample(fixes[h]), c.gate, 0);
    RoundedBetween(fixes[h - 1].time, fixes[h].time, CrossingAt(c, fixes, h).value.crossMs);
  }

  lemma RoundedBetween(a: int, b: int, ms: real)
    requires a as real <= ms <= b as real
    ensures a <= Round(ms) <= b
  {
    RoundMonotone(a as real, ms);
    RoundMonotone(ms, b as real);
    RoundOfInt(a);
    RoundOfInt(b);
  }

  /** From position `a` on a list of points holds the session's fixes from `from` on. */
  ghost predicate HasFixes(points: seq<LapPoint>, a: nat, fixes: seq<Sample>, from: nat, n: nat) {
    && a + n <= |points| && from + n <= |fixes| && AllPositioned(fixes)
    && forall j {:trigger FixAt(points, a, fixes, from, j)} :: 0 <= j < n ==> FixAt(points, a, fixes, from, j)
  }

  ghost predicate FixAt(points: seq<LapPoint>, a: nat, fixes: seq<Sample>, from: nat, j: nat)
    requires a + j < |points| && from + j < |fixes| && AllPositioned(fixes)
  {
    points[a + j].(distM := 0.0) == PointOfSample(fixes[from + j])
  }

  lemma StepIgnoresDistances(p: Plane, a: LapPoint, b: LapPoint)
    ensures StepM(p, a, b) == StepM(p, a.(distM := 0.0), b.(distM := 0.0))
  {}

  lemma StepBetweenFixes(p: Plane, points: seq<LapPoint>, a: nat, fixes: seq<Sample>, from: nat, n: nat, j: nat)
    requires OnAxis(p, points) && HasFixes(points, a, fixes, from, n) && 0 < j < n
    ensures points[a + j].distM - points[a + j - 1].distM
            == StepM(p, PointOfSample(fixes[from + j - 1]), PointOfSample(fixes[from + j]))
  {
    assert FixAt(points, a, fixes, from, j - 1) && FixAt(points, a, fixes, from, j);
    StepIgnoresDistances(p, points[a + j - 1], points[a + j]);
  }

  /** The same fixes have the same distances between them, wherever their axes start. */
  lemma {:induction false} SameSteps(p: Plane, one: seq<LapPoint>, a: nat, other: seq<LapPoint>, b: nat,
                                     fixes: seq<Sample>, from: nat, n: nat, j: nat)
    requires OnAxis(p, one) && HasFixes(one, a, fixes, from, n)
    requires OnAxis(p, other) && HasFixes(other, b, fixes, from, n) && j < n
    ensures one[a + j].distM - other[b + j].distM == one[a].distM - other[b].distM
  {
    if j > 0 {
      SameSteps(p, one, a, other, b, fixes, from, n, j - 1);
      StepBetweenFixes(p, one, a, fixes, from, n, j);
      StepBetweenFixes(p, other, b, fixes, from, n, j);
    }
  }

  /** The step from what opens the trace, if anything, to the lap's first fix. */
  function FirstStepM(p: Plane, opening: seq<Sample>, s: Sample): real
    requires AllPositioned(opening) && IsPositioned(s)
  {
    if opening == [] then 0.0 else StepM(p, PointOfSample(opening[0]), PointOfSample(s))
  }

  lemma FirstFixOnAxis(p: Plane, axis: seq<LapPoint>, opening: seq<Sample>, fixes: seq<Sample>, from: nat, n: nat)
    requires OnAxis(p, axis) && |opening| <= 1 && AllPositioned(opening)
    requires HasFixes(axis, |opening|, fixes, from, n) && n > 0
    requires opening != [] ==> axis[0].(distM := 0.0) == PointOfSample(opening[0])
    ensures axis[|opening|].distM == FirstStepM(p, opening, fixes[from])
  {
    assert FixAt(axis, |opening|, fixes, from, 0);
    if opening != [] {
      StepIgnoresDistances(p, axis[0], axis[1]);
    }
  }

  /** The lap's own points: both anchors, and its fixes in between, on their axis. */
  lemma LapIs(c: Setup, fixes: seq<Sample>, from: nat, to: nat) returns (points: seq<LapPoint>)
    requires LapHops(c, fixes, from, to)
    ensures points == LapPoints(c.plane, fixes, Crossings(c, fixes), from, to)
    ensures OnAxis(c.plane, points) && |points| == to - from + 2
    ensures points[0].timeMs == CrossingAt(c, fixes, from).value.crossMs
    ensures points[|points| - 1].timeMs == CrossingAt(c, fixes, to).value.crossMs
    ensures HasFixes(points, 1, fixes, from, to - from)
  {
    points := LapPoints(c.plane, fixes, Crossings(c, fixes), from, to);
    RawLap(c, fixes, from, to);
    var raw := Stretch(fixes, Crossings(c, fixes), from, to) + [AnchorAt(fixes, Crossings(c, fixes), to)];
    AxisChangesOnlyDistances(c.plane, raw);
    forall j | 0 <= j < to - from ensures FixAt(points, 1, fixes, from, j) {
      assert raw[1 + j] == PointOfSample(fixes[from + (1 + j) - 1]);
    }
  }

  /** The points of a list of fixes that has the lap's fixes in it, on their axis. */
  lemma RebuiltIs(p: Plane, fixes: seq<Sample>, from: nat, to: nat, opening: seq<Sample>, closing: seq<Sample>)
    returns (located: seq<Sample>, axis: seq<LapPoint>)
    requires AllPositioned(fixes) && from <= to <= |fixes| && AllPositioned(opening) && AllPositioned(closing)
    ensures located == opening + fixes[from..to] + closing && AllPositioned(located)
    ensures axis == Axis(p, PointsOf(located)) && OnAxis(p, axis) && |axis| == |located|
    ensures HasFixes(axis, |opening|, fixes, from, to - from)
    ensures opening != [] ==> axis[0].(distM := 0.0) == PointOfSample(opening[0])
  {
    located := opening + fixes[from..to] + closing;
    axis := Axis(p, PointsOf(located));
    AxisChangesOnlyDistances(p, PointsOf(located));
    var d := |opening|;
    forall j | 0 <= j < to - from ensures FixAt(axis, d, fixes, from, j) {
      assert located[d + j] == fixes[from + j];
      assert axis[d + j] == PointsOf(located)[d + j].(distM := axis[d + j].distM);
    }
  }

  /** A stored fix of the lap in the rebuilt trace: its own position and channels, its time into the lap
      moved by the rounding of the first crossing, and its distance by `shiftM`. */
  ghost predicate StoredFix(q: TracePoint, s: Sample, p: LapPoint, first: LapPoint, shiftM: real) {
    && IsPositioned(s) && q == PointOf(s, p.distM + shiftM, Round(first.timeMs))
    && q.lat == p.lat && q.lon == p.lon && q.speedKmh == p.speedKmh && q.gLon == p.gLon
    && q.elapsedMs == p.timeMs - first.timeMs + Error(first.timeMs)
  }

  ghost predicate StoredFixes(trace: seq<TracePoint>, a: nat, fixes: seq<Sample>, from: nat, points: seq<LapPoint>,
                              shiftM: real) {
    && |points| >= 2 && |points| - 2 <= |trace| - a && |points| - 2 <= |fixes| - from
    && forall j {:trigger StoredAt(trace, a, fixes, from, points, shiftM, j)} :: 0 <= j < |points| - 2 ==>
         StoredAt(trace, a, fixes, from, points, shiftM, j)
  }

  ghost predicate StoredAt(trace: seq<TracePoint>, a: nat, fixes: seq<Sample>, from: nat, points: seq<LapPoint>,
                           shiftM: real, j: nat)
    requires a + j < |trace| && from + j < |fixes| && 1 + j < |points|
  {
    StoredFix(trace[a + j], fixes[from + j], points[1 + j], points[0], shiftM)
  }

  lemma {:induction false} ShiftedAt(p: Plane, located: seq<Sample>, axis: seq<LapPoint>, a: nat,
                                     fixes: seq<Sample>, from: nat, n: nat, points: seq<LapPoint>, shiftM: real, j: nat)
    requires AllPositioned(located) && axis == Axis(p, PointsOf(located)) && located != []
    requires OnAxis(p, axis) && HasFixes(axis, a, fixes, from, n)
    requires OnAxis(p, points) && HasFixes(points, 1, fixes, from, n) && j < n
    requires located[0].time == Round(points[0].timeMs) && located[a + j] == fixes[from + j]
    requires axis[a].distM - points[1].distM == shiftM
    ensures StoredAt(TraceOf(p, located), a, fixes, from, points, shiftM, j)
  {
    SameSteps(p, axis, a, points, 1, fixes, from, n, j);
    assert FixAt(axis, a, fixes, from, j) && FixAt(points, 1, fixes, from, j);
  }

  /** Every stored fix of the lap is in the rebuilt trace, moved by one time and one distance. */
  lemma FixesShifted(p: Plane, fixes: seq<Sample>, from: nat, to: nat, opening: seq<Sample>, closing: seq<Sample>,
                     points: seq<LapPoint>) returns (trace: seq<TracePoint>)
    requires AllPositioned(fixes) && from < to <= |fixes|
    requires AllPositioned(opening) && |opening| <= 1 && AllPositioned(closing)
    requires OnAxis(p, points) && |points| == to - from + 2 && HasFixes(points, 1, fixes, from, to - from)
    requires (opening + fixes[from..to])[0].time == Round(points[0].timeMs)
    ensures AllPositioned(opening + fixes[from..to] + closing)
            && trace == TraceOf(p, opening + fixes[from..to] + closing)
    ensures StoredFixes(trace, |opening|, fixes, from, points,
                        FirstStepM(p, opening, fixes[from]) - StepM(p, points[0], points[1]))
  {
    var d := |opening|;
    var located, axis := RebuiltIs(p, fixes, from, to, opening, closing);
    trace := TraceOf(p, located);
    FirstFixOnAxis(p, axis, opening, fixes, from, to - from);
    var shiftM := FirstStepM(p, opening, fixes[from]) - StepM(p, points[0], points[1]);
    forall j | 0 <= j < to - from ensures StoredAt(trace, d, fixes, from, points, shiftM, j) {
      LocatedAt(opening, fixes, from, to, closing, j);
      ShiftedAt(p, located, axis, d, fixes, from, to - from, points, shiftM, j);
    }
  }

  lemma LocatedAt(opening: seq<Sample>, fixes: seq<Sample>, from: nat, to: nat, closing: seq<Sample>, j: nat)
    requires from + j < to <= |fixes|
    ensures var located := opening + fixes[from..to] + closing;
            located[|opening| + j] == fixes[from + j] && located[0] == (opening + fixes[from..to])[0]
  {}

  /** The step from the lap's last fix to what closes the trace, if anything. */
  function LastStepM(p: Plane, s: Sample, closing: seq<Sample>): real
    requires AllPositioned(closing) && IsPositioned(s)
  {
    if closing == [] then 0.0 else StepM(p, PointOfSample(s), PointOfSample(closing[0]))
  }

  /** The trace is longer than the lap by what its first step is longer, and its last. */
  lemma LastIsShifted(p: Plane, fixes: seq<Sample>, from: nat, to: nat, opening: seq<Sample>, closing: seq<Sample>,
                      points: seq<LapPoint>, shiftM: real)
    requires AllPositioned(fixes) && from < to <= |fixes|
    requires AllPositioned(opening) && AllPositioned(closing) && |closing| <= 1
    requires OnAxis(p, points) && |points| == to - from + 2
    requires var trace := TraceOf(p, opening + fixes[from..to] + closing);
             && |opening| + to - from <= |trace|
             && trace[|opening| + to - from - 1].distM == points[to - from].distM + shiftM
    ensures var trace, n := TraceOf(p, opening + fixes[from..to] + closing), |points| - 1;
            trace[|trace| - 1].distM
            == points[n].distM + shiftM + (LastStepM(p, fixes[to - 1], closing) - StepM(p, points[n - 1], points[n]))
  {
    var located := opening + fixes[from..to] + closing;
    var n := |opening| + to - from;
    if closing != [] {
      assert located[n] == closing[0] && located[n - 1] == fixes[to - 1];
      StepOfTrace(p, located, n);
    }
  }

  lemma StepOfSamples(p: Plane, axis: seq<LapPoint>, located: seq<Sample>, n: nat)
    requires AllPositioned(located) && |axis| == |located| && OnAxis(p, axis) && 0 < n < |located|
    requires axis[n - 1].(distM := 0.0) == PointOfSample(located[n - 1])
    requires axis[n].(distM := 0.0) == PointOfSample(located[n])
    ensures axis[n].distM == axis[n - 1].distM + StepM(p, PointOfSample(located[n - 1]), PointOfSample(located[n]))
  {
    StepIgnoresDistances(p, axis[n - 1], axis[n]);
  }

  lemma StepOfTrace(p: Plane, located: seq<Sample>, n: nat)
    requires AllPositioned(located) && 0 < n < |located|
    ensures TraceOf(p, located)[n].distM
            == TraceOf(p, located)[n - 1].distM + StepM(p, PointOfSample(located[n - 1]), PointOfSample(located[n]))
  {
    AxisChangesOnlyDistances(p, PointsOf(located));
    StepOfSamples(p, Axis(p, PointsOf(located)), located, n);
  }

  // ------------------------------------------------------------------------------------------
  // The ends
  // ------------------------------------------------------------------------------------------

  /** A fix stamped `atMs`, at that share of the way along hop `h`. */
  ghost predicate PlacedOn(s: Sample, fixes: seq<Sample>, h: nat, atMs: int)
    requires AllPositioned(fixes) && 0 < h < |fixes| && fixes[h - 1].time != fixes[h].time
  {
    && s.time == atMs
    && s.lat == Some(Lerp(fixes[h - 1].lat.value, fixes[h].lat.value, Share(fixes, h, atMs)))
    && s.lon == Some(Lerp(fixes[h - 1].lon.value, fixes[h].lon.value, Share(fixes, h, atMs)))
  }

  lemma EndsArePlaced(fixes: seq<Sample>, h: nat)
    requires AllPositioned(fixes) && 0 < h < |fixes| && fixes[h - 1].time < fixes[h].time
    ensures PlacedOn(fixes[h - 1], fixes, h, fixes[h - 1].time) && PlacedOn(fixes[h], fixes, h, fixes[h].time)
  {
    DivEnds((fixes[h].time - fixes[h - 1].time) as real);
    LerpEnds(fixes[h - 1].lat.value, fixes[h].lat.value);
    LerpEnds(fixes[h - 1].lon.value, fixes[h].lon.value);
  }

  /** However the bounds are rounded, the trace runs from one of them to the other. */
  lemma RebuiltEnds(fixes: seq<Sample>, from: nat, to: nat, startMs: int, endMs: int)
    requires Bounds(fixes, from, to, startMs, endMs)
    ensures var located := Rebuilt(fixes, from, to, startMs, endMs);
            && located != []
            && PlacedOn(located[0], fixes, from, startMs) && PlacedOn(located[|located| - 1], fixes, to, endMs)
  {
    EndsArePlaced(fixes, from);
    EndsArePlaced(fixes, to);
  }

  lemma FractionIs(a: real, b: real, t: real, at: real)
    requires a < b
    ensures at == Lerp(a, b, t) <==> (at - a) / (b - a) == t
  {
    MulDiv(t, b - a);
    assert (at - a) / (b - a) * (b - a) == at - a;
  }

  lemma RoundIsSame(x: real)
    ensures Round(x) as real == x <==> Whole(x)
  {
    if Whole(x) {
      RoundOfInt(x.Floor);
    }
  }

  lemma ShareOfReals(fixes: seq<Sample>, h: nat, atMs: int)
    requires OnHop(fixes, h, atMs)
    ensures Share(fixes, h, atMs)
            == (atMs as real - fixes[h - 1].time as real) / (fixes[h].time as real - fixes[h - 1].time as real)
    ensures 0.0 <= Share(fixes, h, atMs) <= 1.0
  {
    var a, b := fixes[h - 1].time, fixes[h].time;
    assert (atMs - a) as real == atMs as real - a as real && (b - a) as real == b as real - a as real;
    DivBounds((atMs - a) as real, (b - a) as real);
  }

  /** A rounded crossing is at the crossing's own share of its hop exactly when it was whole. */
  lemma ShareIs(c: Setup, fixes: seq<Sample>, h: nat)
    requires AllPositioned(fixes) && 0 < h < |fixes| && CrossingAt(c, fixes, h).Some?
    ensures fixes[h - 1].time < fixes[h].time
    ensures var x := CrossingAt(c, fixes, h).value;
            && 0.0 <= Share(fixes, h, Round(x.crossMs)) <= 1.0
            && (Share(fixes, h, Round(x.crossMs)) == x.t <==> Whole(x.crossMs))
  {
    var x := CrossingAt(c, fixes, h).value;
    RoundedOnHop(c, fixes, h);
    ShareAtRounded(fixes, h, x.crossMs, x.t);
  }

  lemma ShareAtRounded(fixes: seq<Sample>, h: nat, crossMs: real, t: real)
    requires OnHop(fixes, h, Round(crossMs)) && crossMs == Lerp(fixes[h - 1].time as real, fixes[h].time as real, t)
    ensures 0.0 <= Share(fixes, h, Round(crossMs)) <= 1.0
    ensures Share(fixes, h, Round(crossMs)) == t <==> Whole(crossMs)
  {
    ShareOfReals(fixes, h, Round(crossMs));
    FractionIs(fixes[h - 1].time as real, fixes[h].time as real, t, Round(crossMs) as real);
    RoundIsSame(crossMs);
  }

  /** **A trace's end is on the line, at the very place the car crossed it, exactly when the car crossed
      on a whole millisecond.** */
  lemma EndOnLine(c: Setup, fixes: seq<Sample>, h: nat, s: Sample)
    requires AllPositioned(fixes) && 0 < h < |fixes| && CrossingAt(c, fixes, h).Some?
    requires fixes[h - 1].time < fixes[h].time && PlacedOn(s, fixes, h, Round(CrossingAt(c, fixes, h).value.crossMs))
    ensures var x := CrossingAt(c, fixes, h).value;
            && (OnGate(c.gate, s.lat.value, s.lon.value) <==> Whole(x.crossMs))
            && (s.lat.value == x.lat && s.lon.value == x.lon <==> Whole(x.crossMs))
  {
    var x := CrossingAt(c, fixes, h).value;
    ShareIs(c, fixes, h);
    OnGateOnce(FixOfSample(fixes[h - 1]), FixOfSample(fixes[h]), c.gate, Share(fixes, h, Round(x.crossMs)));
    OnGateOnce(FixOfSample(fixes[h - 1]), FixOfSample(fixes[h]), c.gate, x.t);
  }

  /** Between two rounded instants there is the rounded difference, give or take a millisecond. */
  lemma RoundedSpan(first: real, last: real)
    ensures -1 <= Round(last) - Round(first) - Round(last - first) <= 1
    ensures Round(last) - Round(first) == Round(last - first) <==> -0.5 <= Error(last) - Error(first) < 0.5
  {
    RoundNear(first);
    RoundNear(last);
    RoundNear(last - first);
    assert last - first == (Round(last) - Round(first)) as real + (Error(last) - Error(first));
  }

  // ------------------------------------------------------------------------------------------
  // Every lap of every session
  // ------------------------------------------------------------------------------------------

  /** A lap opens and closes at its crossings; its stored bounds and time are those, rounded. */
  ghost predicate LapTimes(lap: DerivedLap, first: real, last: real) {
    && |lap.points| >= 2
    && lap.points[0].timeMs == first && lap.points[|lap.points| - 1].timeMs == last
    && lap.startedAt == Round(first) && lap.endedAt == Round(last) && lap.lapMs == Round(last - first)
  }

  /** The lap derived between two crossed hops. */
  ghost predicate Derived(c: Setup, fixes: seq<Sample>, lap: DerivedLap, from: nat, to: nat) {
    && LapHops(c, fixes, from, to)
    && lap.points == LapPoints(c.plane, fixes, Crossings(c, fixes), from, to)
    && LapTimes(lap, CrossingAt(c, fixes, from).value.crossMs, CrossingAt(c, fixes, to).value.crossMs)
    && AtCrossing(lap.points[0], CrossingAt(c, fixes, from).value)
    && AtCrossing(lap.points[|lap.points| - 1], CrossingAt(c, fixes, to).value)
  }

  /** A lap's end, at its crossing. */
  ghost predicate AtCrossing(p: LapPoint, x: Crossing) {
    p.timeMs == x.crossMs && p.lat == x.lat && p.lon == x.lon
  }

  lemma DerivedBetween(c: Setup, fixes: seq<Sample>, lap: DerivedLap, number: nat, from: nat, to: nat)
    requires LapHops(c, fixes, from, to)
    requires lap == LapOf(c, number, LapPoints(c.plane, fixes, Crossings(c, fixes), from, to))
    ensures Derived(c, fixes, lap, from, to)
  {
    var points := LapIs(c, fixes, from, to);
    LapEnds(c, fixes, from, to);
    assert AtCrossing(points[0].(distM := 0.0), CrossingAt(c, fixes, from).value);
    assert AtCrossing(points[|points| - 1].(distM := 0.0), CrossingAt(c, fixes, to).value);
  }

  /** Every lap of a session of located fixes in strict order. */
  lemma LapOfSession(c: Setup, samples: seq<Sample>, k: nat) returns (lap: DerivedLap, from: nat, to: nat)
    requires AllPositioned(samples) && StrictlyOrdered(samples) && 0 < k <= |Run(c, samples).laps|
    ensures lap == Run(c, samples).laps[k - 1] && Derived(c, samples, lap, from, to)
  {
    LocatedTwice(samples);
    from, to := LapInSession(c, samples, k);
    lap := Run(c, samples).laps[k - 1];
    DerivedBetween(c, samples, lap, k, from, to);
  }

  /** The fixes its trace is made of. */
  lemma DerivedTrace(c: Setup, fixes: seq<Sample>, lap: DerivedLap, from: nat, to: nat) returns (located: seq<Sample>)
    requires Derived(c, fixes, lap, from, to)
    ensures Bounds(fixes, from, to, lap.startedAt, lap.endedAt)
    ensures located == Rebuilt(fixes, from, to, lap.startedAt, lap.endedAt)
    ensures AllPositioned(located) && located != []
    ensures forall maxPoints :: TraceFor(c.plane, fixes, lap, maxPoints)
                                == Decimation.Decimate(TraceOf(c.plane, located), maxPoints)
  {
    RoundedOnHop(c, fixes, from);
    RoundedOnHop(c, fixes, to);
    located := RebuiltList(fixes, from, to, lap.startedAt, lap.endedAt);
    LocatedTwice(LapWindow(fixes, lap.startedAt, lap.endedAt));
  }

  /** What the trace of a derived lap holds, before thinning. A crossing within half a millisecond of a fix of
      the lap is rounded onto it. */
  ghost predicate HoldsLap(p: Plane, samples: seq<Sample>, lap: DerivedLap, from: nat, to: nat, full: seq<TracePoint>) {
    && AllPositioned(samples) && OnHop(samples, from, lap.startedAt) && OnHop(samples, to, lap.endedAt)
    && |lap.points| == to - from + 2 >= 3
    && RoundedBy(samples, from, lap.startedAt, lap.points[0])
    && RoundedBy(samples, to, lap.endedAt, lap.points[|lap.points| - 1])
    && |full| == |lap.points| - (if RoundsUpTo(samples[from], lap.points[0]) then 1 else 0)
                              - (if RoundsDownTo(samples[to - 1], lap.points[|lap.points| - 1]) then 1 else 0)
    && StoredFixes(full, |Opening(samples, from, lap.startedAt)|, samples, from, lap.points,
                   ShiftM(p, samples, lap, from))
  }

  ghost predicate RoundsUpTo(s: Sample, crossed: LapPoint) {
    s.time as real - 0.5 <= crossed.timeMs
  }

  ghost predicate RoundsDownTo(s: Sample, crossed: LapPoint) {
    crossed.timeMs < s.time as real + 0.5
  }

  /** Which end of its hop a crossing is rounded onto, if any. */
  ghost predicate RoundedBy(samples: seq<Sample>, h: nat, ms: int, crossed: LapPoint)
    requires 0 < h < |samples|
  {
    && (ms == samples[h].time <==> RoundsUpTo(samples[h], crossed))
    && (ms == samples[h - 1].time <==> RoundsDownTo(samples[h - 1], crossed))
  }

  /** How far the trace's distances are from the lap's: the difference of their first steps. */
  ghost function ShiftM(p: Plane, samples: seq<Sample>, lap: DerivedLap, from: nat): real
    requires AllPositioned(samples) && OnHop(samples, from, lap.startedAt) && |lap.points| >= 2
  {
    FirstStepM(p, Opening(samples, from, lap.startedAt), samples[from]) - StepM(p, lap.points[0], lap.points[1])
  }

  /** How far its length is from the lap's: the difference of their last steps comes to it. */
  ghost predicate AsLongAs(p: Plane, samples: seq<Sample>, lap: DerivedLap, from: nat, to: nat, full: seq<TracePoint>)
    requires AllPositioned(samples) && OnHop(samples, from, lap.startedAt) && OnHop(samples, to, lap.endedAt)
    requires |lap.points| >= 2 && full != []
  {
    var n := |lap.points| - 1;
    full[|full| - 1].distM == lap.points[n].distM + ShiftM(p, samples, lap, from)
                              + (LastStepM(p, samples[to - 1], Closing(samples, to, lap.endedAt))
                                 - StepM(p, lap.points[n - 1], lap.points[n]))
  }

  lemma RoundsTo(x: real, n: int)
    ensures Round(x) == n <==> n as real - 0.5 <= x < n as real + 0.5
  {}

  lemma CrossingRounded(c: Setup, fixes: seq<Sample>, h: nat, ms: int, crossed: LapPoint)
    requires 0 < h < |fixes| && CrossingAt(c, fixes, h).Some?
    requires crossed.timeMs == CrossingAt(c, fixes, h).value.crossMs && ms == Round(crossed.timeMs)
    ensures RoundedBy(fixes, h, ms, crossed)
  {
    CrossingIsMeeting(FixOfSample(fixes[h - 1]), FixOfSample(fixes[h]), c.gate, 0);
    RoundsTo(crossed.timeMs, fixes[h].time);
    RoundsTo(crossed.timeMs, fixes[h - 1].time);
  }

  lemma OpensAt(fixes: seq<Sample>, from: nat, to: nat, startMs: int)
    requires AllPositioned(fixes) && OnHop(fixes, from, startMs) && from < to <= |fixes|
    ensures (Opening(fixes, from, startMs) + fixes[from..to])[0].time == startMs
  {}

  lemma DerivedIsRebuilt(c: Setup, fixes: seq<Sample>, lap: DerivedLap, from: nat, to: nat, located: seq<Sample>)
    requires Derived(c, fixes, lap, from, to) && Bounds(fixes, from, to, lap.startedAt, lap.endedAt)
    requires located == Rebuilt(fixes, from, to, lap.startedAt, lap.endedAt) && located != []
    ensures HoldsLap(c.plane, fixes, lap, from, to, TraceOf(c.plane, located))
  {
    var points := LapIs(c, fixes, from, to);
    CrossingRounded(c, fixes, from, lap.startedAt, lap.points[0]);
    CrossingRounded(c, fixes, to, lap.endedAt, lap.points[|lap.points| - 1]);
    CutIsHeld(c.plane, fixes, lap, from, to, located);
  }

  /** A crossing rounded onto a fix costs the cut that fix's own point. */
  lemma CutCount(fixes: seq<Sample>, lap: DerivedLap, from: nat, to: nat)
    requires AllPositioned(fixes) && from < to && |lap.points| == to - from + 2
    requires OnHop(fixes, from, lap.startedAt) && OnHop(fixes, to, lap.endedAt)
    requires RoundedBy(fixes, from, lap.startedAt, lap.points[0])
    requires RoundedBy(fixes, to, lap.endedAt, lap.points[|lap.points| - 1])
    ensures |Opening(fixes, from, lap.startedAt)| <= 1
    ensures |Rebuilt(fixes, from, to, lap.startedAt, lap.endedAt)|
            == |lap.points| - (if RoundsUpTo(fixes[from], lap.points[0]) then 1 else 0)
                            - (if RoundsDownTo(fixes[to - 1], lap.points[|lap.points| - 1]) then 1 else 0)
  {}

  lemma CutIsHeld(p: Plane, fixes: seq<Sample>, lap: DerivedLap, from: nat, to: nat, located: seq<Sample>)
    requires AllPositioned(fixes) && from < to && |lap.points| == to - from + 2
    requires OnHop(fixes, from, lap.startedAt) && OnHop(fixes, to, lap.endedAt)
    requires located == Rebuilt(fixes, from, to, lap.startedAt, lap.endedAt) && located != []
    requires OnAxis(p, lap.points) && HasFixes(lap.points, 1, fixes, from, to - from)
    requires lap.startedAt == Round(lap.points[0].timeMs)
    requires RoundedBy(fixes, from, lap.startedAt, lap.points[0])
    requires RoundedBy(fixes, to, lap.endedAt, lap.points[|lap.points| - 1])
    ensures HoldsLap(p, fixes, lap, from, to, TraceOf(p, located))
  {
    OpensAt(fixes, from, to, lap.startedAt);
    CutCount(fixes, lap, from, to);
    var full := FixesShifted(p, fixes, from, to, Opening(fixes, from, lap.startedAt),
                             Closing(fixes, to, lap.endedAt), lap.points);
  }

  lemma HeldIsAsLong(p: Plane, fixes: seq<Sample>, lap: DerivedLap, from: nat, to: nat, located: seq<Sample>)
    requires AllPositioned(fixes) && OnHop(fixes, from, lap.startedAt) && OnHop(fixes, to, lap.endedAt) && from <= to
    requires located == Rebuilt(fixes, from, to, lap.startedAt, lap.endedAt) && located != []
    requires OnAxis(p, lap.points) && HoldsLap(p, fixes, lap, from, to, TraceOf(p, located))
    ensures AsLongAs(p, fixes, lap, from, to, TraceOf(p, located))
  {
    var shiftM := ShiftM(p, fixes, lap, from);
    LastStored(p, fixes, lap, from, to, TraceOf(p, located), shiftM);
    LastIsShifted(p, fixes, from, to, Opening(fixes, from, lap.startedAt), Closing(fixes, to, lap.endedAt),
                  lap.points, shiftM);
  }

  lemma LastStored(p: Plane, fixes: seq<Sample>, lap: DerivedLap, from: nat, to: nat, full: seq<TracePoint>,
                   shiftM: real)
    requires HoldsLap(p, fixes, lap, from, to, full) && shiftM == ShiftM(p, fixes, lap, from)
    ensures var a := |Opening(fixes, from, lap.startedAt)|;
            a + to - from <= |full| && full[a + to - from - 1].distM == lap.points[to - from].distM + shiftM
  {
    assert StoredAt(full, |Opening(fixes, from, lap.startedAt)|, fixes, from, lap.points, shiftM, to - from - 1);
  }

  /** **What the trace of a derived lap holds, before thinning.** Its two ends and every fix of the lap,
      less one point for each crossing so close to a fix of the lap that its bound is rounded onto it, which
      then has no anchor of its own. Each fix has its own position and channels; its time into the lap is off
      by what rounding took from the first crossing, and its distance by one constant, the difference between
      the two first steps. The length is the lap's but for that and the difference between the last steps. */
  lemma LapIsRebuilt(c: Setup, samples: seq<Sample>, k: nat)
    returns (lap: DerivedLap, from: nat, to: nat, full: seq<TracePoint>)
    requires AllPositioned(samples) && StrictlyOrdered(samples) && 0 < k <= |Run(c, samples).laps|
    ensures lap == Run(c, samples).laps[k - 1] && Derived(c, samples, lap, from, to)
    ensures forall maxPoints :: TraceFor(c.plane, samples, lap, maxPoints) == Decimation.Decimate(full, maxPoints)
    ensures HoldsLap(c.plane, samples, lap, from, to, full)
    ensures full != [] && AsLongAs(c.plane, samples, lap, from, to, full)
  {
    lap, from, to := LapOfSession(c, samples, k);
    var located := DerivedTrace(c, samples, lap, from, to);
    DerivedIsRebuilt(c, samples, lap, from, to, located);
    var points := LapIs(c, samples, from, to);
    HeldIsAsLong(c.plane, samples, lap, from, to, located);
    full := TraceOf(c.plane, located);
  }

  /** A trace from one fix to another: it has their places, and lasts from one to the other. */
  ghost predicate RunsBetween(trace: seq<TracePoint>, a: Sample, b: Sample) {
    && trace != [] && IsPositioned(a) && IsPositioned(b)
    && trace[0].lat == a.lat.value && trace[0].lon == a.lon.value
    && trace[0].elapsedMs == 0.0 && trace[0].distM == 0.0
    && trace[|trace| - 1].lat == b.lat.value && trace[|trace| - 1].lon == b.lon.value
    && trace[|trace| - 1].elapsedMs == (b.time - a.time) as real
  }

  lemma ThinnedEnds(p: Plane, located: seq<Sample>, maxPoints: int) returns (trace: seq<TracePoint>)
    requires located != [] && AllPositioned(located)
    ensures trace == Decimation.Decimate(TraceOf(p, located), maxPoints)
    ensures RunsBetween(trace, located[0], located[|located| - 1])
  {
    FullEnds(p, located);
    trace := EndsAreThinned(TraceOf(p, located), maxPoints);
  }

  lemma FullEnds(p: Plane, located: seq<Sample>)
    requires located != [] && AllPositioned(located)
    ensures RunsBetween(TraceOf(p, located), located[0], located[|located| - 1])
  {
    AxisKeepsFirst(p, PointsOf(located));
  }

  lemma EndsAreThinned(full: seq<TracePoint>, maxPoints: int) returns (trace: seq<TracePoint>)
    requires full != []
    ensures trace == Decimation.Decimate(full, maxPoints)
    ensures trace != [] && trace[0] == full[0] && trace[|trace| - 1] == full[|full| - 1]
  {
    trace := Decimation.Decimate(full, maxPoints);
    Decimation.DecimateKeepsOrder(full, maxPoints);
  }

  /** The trace of a derived lap runs between fixes on its two hops, however far it is thinned. */
  lemma DerivedEnds(c: Setup, fixes: seq<Sample>, lap: DerivedLap, from: nat, to: nat, maxPoints: int)
    returns (trace: seq<TracePoint>, a: Sample, b: Sample)
    requires Derived(c, fixes, lap, from, to)
    ensures trace == TraceFor(c.plane, fixes, lap, maxPoints) && RunsBetween(trace, a, b)
    ensures OnHop(fixes, from, lap.startedAt) && PlacedOn(a, fixes, from, lap.startedAt)
    ensures OnHop(fixes, to, lap.endedAt) && PlacedOn(b, fixes, to, lap.endedAt)
  {
    var located := DerivedTrace(c, fixes, lap, from, to);
    trace := ThinnedEnds(c.plane, located, maxPoints);
    RebuiltEnds(fixes, from, to, lap.startedAt, lap.endedAt);
    a, b := located[0], located[|located| - 1];
  }

  /** One end of a trace and the end of the lap there: on the line, and at the same place, exactly when the
      crossing was whole. */
  ghost predicate OnLineWhenWhole(g: ProjectedGate, q: TracePoint, p: LapPoint) {
    && (OnGate(g, q.lat, q.lon) <==> Whole(p.timeMs))
    && (q.lat == p.lat && q.lon == p.lon <==> Whole(p.timeMs))
  }

  lemma EndAlike(c: Setup, fixes: seq<Sample>, h: nat, s: Sample, q: TracePoint, p: LapPoint)
    requires AllPositioned(fixes) && 0 < h < |fixes| && CrossingAt(c, fixes, h).Some?
    requires fixes[h - 1].time < fixes[h].time && PlacedOn(s, fixes, h, Round(CrossingAt(c, fixes, h).value.crossMs))
    requires q.lat == s.lat.value && q.lon == s.lon.value && AtCrossing(p, CrossingAt(c, fixes, h).value)
    ensures OnLineWhenWhole(c.gate, q, p)
  {
    EndOnLine(c, fixes, h, s);
  }

  lemma DerivedEndsOnLine(c: Setup, fixes: seq<Sample>, lap: DerivedLap, from: nat, to: nat, maxPoints: int)
    returns (trace: seq<TracePoint>)
    requires Derived(c, fixes, lap, from, to)
    ensures trace == TraceFor(c.plane, fixes, lap, maxPoints) && trace != []
    ensures OnLineWhenWhole(c.gate, trace[0], lap.points[0])
    ensures OnLineWhenWhole(c.gate, trace[|trace| - 1], lap.points[|lap.points| - 1])
  {
    var a, b;
    trace, a, b := DerivedEnds(c, fixes, lap, from, to, maxPoints);
    EndAlike(c, fixes, from, a, trace[0], lap.points[0]);
    EndAlike(c, fixes, to, b, trace[|trace| - 1], lap.points[|lap.points| - 1]);
  }

  /** **A trace opens on the line exactly when the lap opened on a whole millisecond, and closes on it
      exactly when the lap closed on one**; then, and only then, at the very place of the crossing. However
      far it is thinned. */
  lemma TraceEndsOnLine(c: Setup, samples: seq<Sample>, k: nat, maxPoints: int)
    returns (lap: DerivedLap, trace: seq<TracePoint>)
    requires AllPositioned(samples) && StrictlyOrdered(samples) && 0 < k <= |Run(c, samples).laps|
    ensures lap == Run(c, samples).laps[k - 1] && trace == TraceFor(c.plane, samples, lap, maxPoints)
    ensures lap.points != [] && trace != []
    ensures OnLineWhenWhole(c.gate, trace[0], lap.points[0])
    ensures OnLineWhenWhole(c.gate, trace[|trace| - 1], lap.points[|lap.points| - 1])
  {
    var from, to;
    lap, from, to := LapOfSession(c, samples, k);
    trace := DerivedEndsOnLine(c, samples, lap, from, to, maxPoints);
  }

  /** A trace that opens at 0 and ends with the difference of the lap's stored bounds: within a millisecond
      of the lap's own time, and equal to it exactly when the two roundings differ by less than half of one. */
  ghost predicate LastsTheLap(trace: seq<TracePoint>, lap: DerivedLap)
    requires trace != [] && lap.points != []
  {
    var lastMs := trace[|trace| - 1].elapsedMs;
    && trace[0].elapsedMs == 0.0 && trace[0].distM == 0.0
    && lastMs == (lap.endedAt - lap.startedAt) as real
    && -1.0 <= lastMs - lap.lapMs as real <= 1.0
    && (lastMs == lap.lapMs as real
        <==> -0.5 <= Error(lap.points[|lap.points| - 1].timeMs) - Error(lap.points[0].timeMs) < 0.5)
  }

  lemma SpanLasts(trace: seq<TracePoint>, lap: DerivedLap, first: real, last: real)
    requires LapTimes(lap, first, last) && trace != []
    requires trace[0].elapsedMs == 0.0 && trace[0].distM == 0.0
    requires trace[|trace| - 1].elapsedMs == (lap.endedAt - lap.startedAt) as real
    ensures LastsTheLap(trace, lap)
  {
    RoundedSpan(first, last);
  }

  lemma DerivedLasts(c: Setup, fixes: seq<Sample>, lap: DerivedLap, from: nat, to: nat, maxPoints: int)
    returns (trace: seq<TracePoint>)
    requires Derived(c, fixes, lap, from, to)
    ensures trace == TraceFor(c.plane, fixes, lap, maxPoints) && trace != []
    ensures LastsTheLap(trace, lap)
  {
    var a, b;
    trace, a, b := DerivedEnds(c, fixes, lap, from, to, maxPoints);
    SpanLasts(trace, lap, CrossingAt(c, fixes, from).value.crossMs, CrossingAt(c, fixes, to).value.crossMs);
  }

  /** **A trace runs from 0 to the difference of the lap's stored bounds**, however far it is thinned, which
      is the lap's own time only so far as the rounding allows. */
  lemma TraceLastsTheLap(c: Setup, samples: seq<Sample>, k: nat, maxPoints: int)
    returns (lap: DerivedLap, trace: seq<TracePoint>)
    requires AllPositioned(samples) && StrictlyOrdered(samples) && 0 < k <= |Run(c, samples).laps|
    ensures lap == Run(c, samples).laps[k - 1] && trace == TraceFor(c.plane, samples, lap, maxPoints)
    ensures lap.points != [] && trace != [] && LastsTheLap(trace, lap)
  {
    var from, to;
    lap, from, to := LapOfSession(c, samples, k);
    trace := DerivedLasts(c, samples, lap, from, to, maxPoints);
  }

  // ------------------------------------------------------------------------------------------
  // Point for point
  // ------------------------------------------------------------------------------------------

  /** Position, speed, time into the lap and distance along it. */
  ghost predicate Agrees(trace: seq<TracePoint>, points: seq<LapPoint>) {
    && |trace| == |points|
    && forall i :: 0 <= i < |points| ==> SamePoint(trace[i], points[i], points[0])
  }

  ghost predicate SamePoint(q: TracePoint, p: LapPoint, first: LapPoint) {
    && q.lat == p.lat && q.lon == p.lon && q.distM == p.distM
    && q.elapsedMs == p.timeMs - first.timeMs
    && q.speedKmh == p.speedKmh && q.gLon == p.gLon
  }

  /** The other end of the hop has every channel of a lap point that this end has. */
  ghost predicate Keeps(at: Sample, other: Sample) {
    && (at.speedKmh.Some? ==> other.speedKmh.Some?)
    && (at.gLon.Some? ==> other.gLon.Some?)
  }

  /** A crossing that is rebuilt as the anchor it was: at a whole millisecond, with an anchor of its own in
      the trace, and, when that is the stored fix on the far side of the line, with no channel lost. */
  ghost predicate OpensAlike(fixes: seq<Sample>, h: nat, ms: real)
    requires 0 < h < |fixes|
  {
    && Whole(ms) && ms != fixes[h].time as real
    && (ms == fixes[h - 1].time as real ==> Keeps(fixes[h - 1], fixes[h]))
  }

  ghost predicate ClosesAlike(fixes: seq<Sample>, h: nat, ms: real)
    requires 0 < h < |fixes|
  {
    && Whole(ms) && ms != fixes[h - 1].time as real
    && (ms == fixes[h].time as real ==> Keeps(fixes[h], fixes[h - 1]))
  }

  /** Rebuilt, a whole crossing strictly inside its hop is the anchor. */
  lemma HopRebuilt(c: Setup, fixes: seq<Sample>, h: nat)
    requires AllPositioned(fixes) && 0 < h < |fixes| && CrossingAt(c, fixes, h).Some?
    requires Whole(CrossingAt(c, fixes, h).value.crossMs)
    ensures fixes[h - 1].time < fixes[h].time
    ensures PointOfSample(Synthesized(fixes, h, Round(CrossingAt(c, fixes, h).value.crossMs)))
            == AnchorAt(fixes, Crossings(c, fixes), h)
  {
    ShareIs(c, fixes, h);
    RoundIsSame(CrossingAt(c, fixes, h).value.crossMs);
  }

  /** At a stored fix the anchor is that fix, with the channels both ends have. */
  lemma HopStored(c: Setup, fixes: seq<Sample>, h: nat, atCur: bool)
    requires AllPositioned(fixes) && 0 < h < |fixes| && CrossingAt(c, fixes, h).Some?
    requires CrossingAt(c, fixes, h).value.crossMs == fixes[if atCur then h else h - 1].time as real
    ensures var at, other := fixes[if atCur then h else h - 1], fixes[if atCur then h - 1 else h];
            var anchor := AnchorAt(fixes, Crossings(c, fixes), h);
            && PointOfSample(at).(speedKmh := anchor.speedKmh, gLon := anchor.gLon) == anchor
            && (PointOfSample(at) == anchor <==> Keeps(at, other))
  {
    var a, b, x := fixes[h - 1], fixes[h], CrossingAt(c, fixes, h).value;
    ShareIs(c, fixes, h);
    WholeInt(fixes[if atCur then h else h - 1].time);
    RoundIsSame(x.crossMs);
    assert Share(fixes, h, a.time) == 0.0 && Share(fixes, h, b.time) == 1.0;
    assert x.t == Share(fixes, h, Round(x.crossMs));
    LerpEnds(a.lat.value, b.lat.value);
    LerpEnds(a.lon.value, b.lon.value);
    LerpChannelEnds(a.speedKmh, b.speedKmh);
    LerpChannelEnds(a.gLon, b.gLon);
  }

  /** The opening of the trace is the lap's anchor exactly when the crossing opens alike. */
  lemma OpeningIs(c: Setup, fixes: seq<Sample>, h: nat)
    requires AllPositioned(fixes) && 0 < h < |fixes| && CrossingAt(c, fixes, h).Some?
    ensures fixes[h - 1].time < fixes[h].time
    ensures var ms := CrossingAt(c, fixes, h).value.crossMs;
            var opening := Opening(fixes, h, Round(ms));
            Whole(ms) ==> (|opening| == 1 && PointOfSample(opening[0]) == AnchorAt(fixes, Crossings(c, fixes), h)
                           <==> OpensAlike(fixes, h, ms))
  {
    var ms := CrossingAt(c, fixes, h).value.crossMs;
    RoundedOnHop(c, fixes, h);
    RoundIsSame(ms);
    if Whole(ms) {
      HopRebuilt(c, fixes, h);
      if ms == fixes[h - 1].time as real {
        HopStored(c, fixes, h, false);
      }
    }
  }

  lemma ClosingIs(c: Setup, fixes: seq<Sample>, h: nat)
    requires AllPositioned(fixes) && 0 < h < |fixes| && CrossingAt(c, fixes, h).Some?
    ensures fixes[h - 1].time < fixes[h].time
    ensures var ms := CrossingAt(c, fixes, h).value.crossMs;
            var closing := Closing(fixes, h, Round(ms));
            Whole(ms) ==> (|closing| == 1 && PointOfSample(closing[0]) == AnchorAt(fixes, Crossings(c, fixes), h)
                           <==> ClosesAlike(fixes, h, ms))
  {
    var ms := CrossingAt(c, fixes, h).value.crossMs;
    RoundedOnHop(c, fixes, h);
    RoundIsSame(ms);
    if Whole(ms) {
      HopRebuilt(c, fixes, h);
      if ms == fixes[h].time as real {
        HopStored(c, fixes, h, true);
      }
    }
  }

  lemma PointsOfThree(a: seq<Sample>, mid: seq<Sample>, b: seq<Sample>)
    requires AllPositioned(a) && AllPositioned(mid) && AllPositioned(b)
    ensures PointsOf(a + mid + b) == PointsOf(a) + PointsOf(mid) + PointsOf(b)
  {}

  lemma {:induction false} TraceOfLap(p: Plane, located: seq<Sample>, raw: seq<LapPoint>)
    requires AllPositioned(located) && located != [] && PointsOf(located) == raw
    ensures Agrees(TraceOf(p, located), Axis(p, raw))
  {
    AxisChangesOnlyDistances(p, raw);
    var trace, points := TraceOf(p, located), Axis(p, raw);
    forall i | 0 <= i < |points| ensures SamePoint(trace[i], points[i], points[0]) {
      assert points[i] == PointOfSample(located[i]).(distM := points[i].distM);
      assert points[0].timeMs == located[0].time as real;
    }
  }

  /** Agreement leaves no rounding, and an anchor of its own at either end. */
  lemma AgreementIsWhole(p: Plane, samples: seq<Sample>, lap: DerivedLap, from: nat, to: nat, full: seq<TracePoint>)
    requires HoldsLap(p, samples, lap, from, to, full) && Agrees(full, lap.points)
    requires LapTimes(lap, lap.points[0].timeMs, lap.points[|lap.points| - 1].timeMs)
    requires full[|full| - 1].elapsedMs == (lap.endedAt - lap.startedAt) as real
    ensures Whole(lap.points[0].timeMs) && Whole(lap.points[|lap.points| - 1].timeMs)
    ensures |Opening(samples, from, lap.startedAt)| == 1 == |Closing(samples, to, lap.endedAt)|
  {
    var n := |lap.points| - 1;
    var opening, shiftM := Opening(samples, from, lap.startedAt), ShiftM(p, samples, lap, from);
    assert |opening| == 1;
    assert StoredAt(full, 1, samples, from, lap.points, shiftM, 0);
    assert SamePoint(full[1], lap.points[1], lap.points[0]) && SamePoint(full[n], lap.points[n], lap.points[0]);
    RoundIsSame(lap.points[0].timeMs);
    RoundIsSame(lap.points[n].timeMs);
  }

  /** An end of the trace that agrees with the whole crossing there is its anchor. */
  lemma AnchorAgrees(q: TracePoint, s: Sample, distM: real, originMs: int, p: LapPoint, first: LapPoint)
    requires IsPositioned(s) && q == PointOf(s, distM, originMs) && SamePoint(q, p, first)
    requires originMs as real == first.timeMs
    ensures PointOfSample(s) == p.(distM := 0.0)
  {
    assert (s.time - originMs) as real == s.time as real - originMs as real;
  }

  lemma AgreesAtEnds(c: Setup, fixes: seq<Sample>, lap: DerivedLap, from: nat, to: nat, located: seq<Sample>)
    requires Derived(c, fixes, lap, from, to) && Bounds(fixes, from, to, lap.startedAt, lap.endedAt)
    requires located == Rebuilt(fixes, from, to, lap.startedAt, lap.endedAt) && located != []
    requires Agrees(TraceOf(c.plane, located), lap.points) && Whole(lap.points[0].timeMs)
    requires |Opening(fixes, from, lap.startedAt)| == 1 == |Closing(fixes, to, lap.endedAt)|
    ensures PointOfSample(located[0]) == AnchorAt(fixes, Crossings(c, fixes), from)
    ensures PointOfSample(located[|located| - 1]) == AnchorAt(fixes, Crossings(c, fixes), to)
  {
    var full, n := TraceOf(c.plane, located), |lap.points| - 1;
    assert |full| == |located| == n + 1;
    RebuiltEnds(fixes, from, to, lap.startedAt, lap.endedAt);
    RoundIsSame(lap.points[0].timeMs);
    LapEnds(c, fixes, from, to);
    assert SamePoint(full[0], lap.points[0], lap.points[0]) && SamePoint(full[n], lap.points[n], lap.points[0]);
    AnchorAgrees(full[0], located[0], full[0].distM, located[0].time, lap.points[0], lap.points[0]);
    AnchorAgrees(full[n], located[n], full[n].distM, located[0].time, lap.points[n], lap.points[0]);
  }

  lemma AlikeAgrees(c: Setup, fixes: seq<Sample>, lap: DerivedLap, from: nat, to: nat, located: seq<Sample>)
    requires Derived(c, fixes, lap, from, to)
    requires OpensAlike(fixes, from, lap.points[0].timeMs)
             && ClosesAlike(fixes, to, lap.points[|lap.points| - 1].timeMs)
    requires Bounds(fixes, from, to, lap.startedAt, lap.endedAt)
    requires located == Rebuilt(fixes, from, to, lap.startedAt, lap.endedAt) && located != []
    ensures Agrees(TraceOf(c.plane, located), lap.points)
  {
    OpeningIs(c, fixes, from);
    ClosingIs(c, fixes, to);
    var opening, closing := Opening(fixes, from, lap.startedAt), Closing(fixes, to, lap.endedAt);
    PointsOfThree(opening, fixes[from..to], closing);
    assert PointsOf(opening) == [PointOfSample(opening[0])] && PointsOf(closing) == [PointOfSample(closing[0])];
    TraceOfLap(c.plane, located,
               Stretch(fixes, Crossings(c, fixes), from, to) + [AnchorAt(fixes, Crossings(c, fixes), to)]);
  }

  lemma AgreesOnlyAlike(c: Setup, fixes: seq<Sample>, lap: DerivedLap, from: nat, to: nat, located: seq<Sample>)
    requires Derived(c, fixes, lap, from, to) && Bounds(fixes, from, to, lap.startedAt, lap.endedAt)
    requires located == Rebuilt(fixes, from, to, lap.startedAt, lap.endedAt) && located != []
    requires Agrees(TraceOf(c.plane, located), lap.points)
    ensures OpensAlike(fixes, from, lap.points[0].timeMs) && ClosesAlike(fixes, to, lap.points[|lap.points| - 1].timeMs)
  {
    DerivedIsRebuilt(c, fixes, lap, from, to, located);
    RebuiltEnds(fixes, from, to, lap.startedAt, lap.endedAt);
    AgreementIsWhole(c.plane, fixes, lap, from, to, TraceOf(c.plane, located));
    AgreesAtEnds(c, fixes, lap, from, to, located);
    OpeningIs(c, fixes, from);
    ClosingIs(c, fixes, to);
  }

  lemma DerivedAgrees(c: Setup, fixes: seq<Sample>, lap: DerivedLap, from: nat, to: nat, maxPoints: int)
    requires Derived(c, fixes, lap, from, to) && |lap.points| <= maxPoints
    ensures Agrees(TraceFor(c.plane, fixes, lap, maxPoints), lap.points)
            <==>
              && OpensAlike(fixes, from, lap.points[0].timeMs)
              && ClosesAlike(fixes, to, lap.points[|lap.points| - 1].timeMs)
  {
    var located := DerivedTrace(c, fixes, lap, from, to);
    DerivedIsRebuilt(c, fixes, lap, from, to, located);
    assert TraceFor(c.plane, fixes, lap, maxPoints) == TraceOf(c.plane, located);
    if Agrees(TraceOf(c.plane, located), lap.points) {
      AgreesOnlyAlike(c, fixes, lap, from, to, located);
    }
    if OpensAlike(fixes, from, lap.points[0].timeMs) && ClosesAlike(fixes, to, lap.points[|lap.points| - 1].timeMs) {
      AlikeAgrees(c, fixes, lap, from, to, located);
    }
  }

  ghost predicate StrictlyInside(fixes: seq<Sample>, h: nat, ms: real)
    requires 0 < h < |fixes|
  {
    fixes[h - 1].time as real < ms < fixes[h].time as real
  }

  /** **Point for point the trace is the lap the segmenter derived exactly when both crossings are rebuilt as
      the anchors they were**; between fixes, exactly when the lap opened and closed on a whole millisecond.
      Otherwise it is off by what `LapIsRebuilt` says. */
  lemma RebuildAgreesExactly(c: Setup, samples: seq<Sample>, k: nat, maxPoints: int)
    returns (lap: DerivedLap, from: nat, to: nat, rebuilt: seq<TracePoint>)
    requires AllPositioned(samples) && StrictlyOrdered(samples) && 0 < k <= |Run(c, samples).laps|
    requires |Run(c, samples).laps[k - 1].points| <= maxPoints
    ensures lap == Run(c, samples).laps[k - 1] && Derived(c, samples, lap, from, to)
    ensures rebuilt == TraceFor(c.plane, samples, lap, maxPoints)
    ensures var first, last := lap.points[0].timeMs, lap.points[|lap.points| - 1].timeMs;
            && (Agrees(rebuilt, lap.points) <==> OpensAlike(samples, from, first) && ClosesAlike(samples, to, last))
            && (StrictlyInside(samples, from, first) && StrictlyInside(samples, to, last) ==>
                  (Agrees(rebuilt, lap.points) <==> Whole(first) && Whole(last)))
  {
    lap, from, to := LapOfSession(c, samples, k);
    rebuilt := TraceFor(c.plane, samples, lap, maxPoints);
    DerivedAgrees(c, samples, lap, from, to, maxPoints);
  }

  // ------------------------------------------------------------------------------------------
  // Laps that do not agree
  // ------------------------------------------------------------------------------------------

  /** A gate two metres wide across the equator. */
  function GateOnEquator(p: Plane): Gate
    requires Sound(p)
  {
    Gate(0.0, -1.0 / p.mLon(0.0), 0.0, 1.0 / p.mLon(0.0))
  }

  /** A segmenter built with that gate. */
  function EquatorSetup(p: Plane): Setup
    requires Sound(p)
  {
    Setup(p, ProjectGate(p, GateOnEquator(p)), 3, None)
  }

  lemma ProjectedEquator(p: Plane)
    requires Sound(p)
    ensures EquatorSetup(p).gate == ProjectedGate(0.0, 0.0, p.mLon(0.0), -1.0, 0.0, 1.0, 0.0)
  {
    var m := p.mLon(0.0);
    assert (-1.0 / m + 1.0 / m) / 2.0 == 0.0;
    assert (-1.0 / m) * m == -1.0 && (1.0 / m) * m == 1.0;
  }

  /** A fix on the meridian of the gate, at a steady speed. */
  function FixOnMeridian(speedKmh: real, timeMs: int, lat: real): Sample {
    Sample(timeMs, Some(lat), Some(0.0), Some(speedKmh), None, None, None, None, None)
  }

  /** A lap crossed `a / 3` of the way along its first hop and `b / 3` along its last. */
  function FourFixes(speedKmh: real, a: real, b: real): (r: seq<Sample>)
    ensures |r| == 4 && AllPositioned(r) && StrictlyOrdered(r)
  {
    [FixOnMeridian(speedKmh, 0, -a), FixOnMeridian(speedKmh, 100, 3.0 - a),
     FixOnMeridian(speedKmh, 4000, -b), FixOnMeridian(speedKmh, 4100, 3.0 - b)]
  }

  lemma MeridianFrame(prev: Fix, cur: Fix, g: ProjectedGate, lat: real)
    requires prev.lat == Some(lat) && cur.lat == Some(lat + 3.0) && prev.lon == cur.lon == Some(0.0)
    requires g.midLat == g.midLon == g.aY == g.bY == 0.0 && g.aX == -1.0 && g.bX == 1.0
    ensures var f := FrameOf(prev, cur, g);
            && f.Denom() == -6.0 * METERS_PER_DEG_LAT && f.T() == -lat / 3.0 && f.U() == 0.5
  {
    var f := FrameOf(prev, cur, g);
    ZeroTimes(g.mLon);
    assert f.px == 0.0 && f.rx == 0.0 && f.ry == 3.0 * METERS_PER_DEG_LAT && f.sx == 2.0 && f.sy == 0.0;
    assert f.py == lat * METERS_PER_DEG_LAT;
    assert f.T() == (lat * METERS_PER_DEG_LAT * 2.0) / (-6.0 * METERS_PER_DEG_LAT);
    assert f.U() == (-1.0 * (3.0 * METERS_PER_DEG_LAT)) / (-6.0 * METERS_PER_DEG_LAT);
  }

  lemma ZeroTimes(x: real)
    ensures 0.0 * x == 0.0
  {}

  lemma MeridianCrossing(p: Plane, v: real, ms: int, lat: real)
    requires Sound(p) && v > STATIONARY_SPEED_KMH && -3.0 < lat < 0.0
    ensures var x := FindGateCrossing(FixOfSample(FixOnMeridian(v, ms, lat)),
                                      FixOfSample(FixOnMeridian(v, ms + 100, lat + 3.0)), EquatorSetup(p).gate, 0);
            x.Some? && x.value.dirSign == -1 && x.value.crossMs == ms as real + -lat / 3.0 * 100.0
  {
    ProjectedEquator(p);
    MeridianFrame(FixOfSample(FixOnMeridian(v, ms, lat)), FixOfSample(FixOnMeridian(v, ms + 100, lat + 3.0)),
                  EquatorSetup(p).gate, lat);
  }

  /** Four hops of which the second and the last are crossed, a minimum lap apart. */
  ghost predicate CrossedTwice(cs: seq<Option<Crossing>>, first: real, last: real) {
    && |cs| == 4 && cs[0] == None && cs[2] == None && last - first >= MIN_LAP_MS
    && cs[1].Some? && cs[1].value.crossMs == first && cs[1].value.dirSign == -1
    && cs[3].Some? && cs[3].value.crossMs == last && cs[3].value.dirSign == -1
  }

  lemma FourCrossings(p: Plane, v: real, a: real, b: real)
    requires Sound(p) && v > STATIONARY_SPEED_KMH && 0.0 < a < 3.0 && 0.0 < b < 3.0
    ensures CrossedTwice(Crossings(EquatorSetup(p), FourFixes(v, a, b)), a / 3.0 * 100.0, 4000.0 + b / 3.0 * 100.0)
  {
    MeridianCrossing(p, v, 0, -a);
    MeridianCrossing(p, v, 4000, -b);
    assert -a + 3.0 == 3.0 - a && -b + 3.0 == 3.0 - b;
  }

  lemma TwoHops(cs: seq<Option<Crossing>>, first: real, last: real, dirSign: int, hops: seq<nat>)
    requires CrossedTwice(cs, first, last) && HopsOk(cs, 4, dirSign, hops)
    ensures hops == [1, 3]
  {
    assert hops != [] && hops[0] == 1;
    assert QuietAfter(cs, hops[0], Until(hops, 0, 4), dirSign);
    assert Towards(cs, hops[0], dirSign) && Towards(cs, 3, dirSign);
    assert |hops| > 1 ==> SpacedAt(cs, hops, 1);
    assert |hops| > 2 ==> SpacedAt(cs, hops, 2);
    assert |hops| == 2 && hops[1] == 3;
  }

  lemma OneLapRun(c: Setup, samples: seq<Sample>, first: real, last: real)
    requires AllPositioned(samples) && CrossedTwice(Crossings(c, samples), first, last)
    ensures |Run(c, samples).laps| == 1
  {
    LocatedTwice(samples);
    SessionLaps(c, samples);
    TwoHops(Crossings(c, samples), first, last, Run(c, samples).dirSign, Hops(c, samples, 4));
  }

  lemma OnlyHops(c: Setup, samples: seq<Sample>, lap: DerivedLap, from: nat, to: nat, first: real, last: real)
    requires Derived(c, samples, lap, from, to) && CrossedTwice(Crossings(c, samples), first, last)
    ensures from == 1 && to == 3 && LapTimes(lap, first, last) && |lap.points| == 4
  {
    var points := LapIs(c, samples, from, to);
    assert Crossings(c, samples)[from] == CrossingAt(c, samples, from);
    assert Crossings(c, samples)[to] == CrossingAt(c, samples, to);
  }

  /** The one lap of such a session. */
  lemma OnlyLap(c: Setup, samples: seq<Sample>, first: real, last: real) returns (lap: DerivedLap)
    requires AllPositioned(samples) && StrictlyOrdered(samples) && CrossedTwice(Crossings(c, samples), first, last)
    ensures Run(c, samples).laps == [lap] && Derived(c, samples, lap, 1, 3)
    ensures LapTimes(lap, first, last) && |lap.points| == 4
  {
    OneLapRun(c, samples, first, last);
    var from, to;
    lap, from, to := LapOfSession(c, samples, 1);
    OnlyHops(c, samples, lap, from, to, first, last);
  }

  lemma OffTheLine(c: Setup, fixes: seq<Sample>, lap: DerivedLap, from: nat, to: nat) returns (trace: seq<TracePoint>)
    requires Derived(c, fixes, lap, from, to) && !Whole(lap.points[0].timeMs)
    ensures trace == TraceFor(c.plane, fixes, lap, |lap.points|) && trace != []
    ensures !OnGate(c.gate, trace[0].lat, trace[0].lon) && !Agrees(trace, lap.points)
    ensures LastsTheLap(trace, lap)
  {
    trace := DerivedEndsOnLine(c, fixes, lap, from, to, |lap.points|);
    var lasting := DerivedLasts(c, fixes, lap, from, to, |lap.points|);
    if Agrees(trace, lap.points) {
      DerivedAgrees(c, fixes, lap, from, to, |lap.points|);
    }
  }

  lemma RoundedThirds()
    ensures 1.0 / 3.0 * 100.0 == 100.0 / 3.0 && 2.0 / 3.0 * 100.0 == 200.0 / 3.0
    ensures Round(100.0 / 3.0) == 33 && Round(4000.0 + 200.0 / 3.0) == 4067
    ensures Round(4000.0 + 200.0 / 3.0 - 100.0 / 3.0) == 4033 && !Whole(100.0 / 3.0)
  {}

  lemma ThirdsLap(c: Setup, samples: seq<Sample>) returns (lap: DerivedLap, trace: seq<TracePoint>)
    requires AllPositioned(samples) && StrictlyOrdered(samples)
    requires CrossedTwice(Crossings(c, samples), 100.0 / 3.0, 4000.0 + 200.0 / 3.0)
    ensures Run(c, samples).laps == [lap] && trace == TraceFor(c.plane, samples, lap, |lap.points|) && trace != []
    ensures !OnGate(c.gate, trace[0].lat, trace[0].lon)
    ensures lap.lapMs == 4033 && trace[|trace| - 1].elapsedMs == 4034.0
    ensures !Agrees(trace, lap.points)
  {
    RoundedThirds();
    lap := OnlyLap(c, samples, 100.0 / 3.0, 4000.0 + 200.0 / 3.0);
    trace := OffTheLine(c, samples, lap, 1, 3);
  }

  /** **A lap whose trace neither opens on the line nor lasts its time**, crossed a third of the way along the
      first hop and two thirds along the last: it opens at 33 ms for 33.3, and lasts 4034 ms for a lap of 4033. */
  lemma ThirdsDisagree(p: Plane, v: real) returns (lap: DerivedLap, trace: seq<TracePoint>)
    requires Sound(p) && v > STATIONARY_SPEED_KMH
    ensures Run(EquatorSetup(p), FourFixes(v, 1.0, 2.0)).laps == [lap]
    ensures trace == TraceFor(p, FourFixes(v, 1.0, 2.0), lap, |lap.points|) && trace != []
    ensures !OnGate(EquatorSetup(p).gate, trace[0].lat, trace[0].lon)
    ensures lap.lapMs == 4033 && trace[|trace| - 1].elapsedMs == 4034.0
    ensures !Agrees(trace, lap.points)
  {
    FourCrossings(p, v, 1.0, 2.0);
    RoundedThirds();
    lap, trace := ThirdsLap(EquatorSetup(p), FourFixes(v, 1.0, 2.0));
  }

  lemma GrazingLap(c: Setup, samples: seq<Sample>) returns (lap: DerivedLap, trace: seq<TracePoint>)
    requires AllPositioned(samples) && StrictlyOrdered(samples) && |samples| == 4
    requires samples[1].time == 100 && samples[2].time == 4000
    requires CrossedTwice(Crossings(c, samples), 99.75, 4050.0)
    ensures Run(c, samples).laps == [lap] && trace == TraceFor(c.plane, samples, lap, |lap.points|)
    ensures |lap.points| == 4 && |trace| == 3
  {
    lap := OnlyLap(c, samples, 99.75, 4050.0);
    var located := DerivedTrace(c, samples, lap, 1, 3);
    DerivedIsRebuilt(c, samples, lap, 1, 3, located);
    trace := TraceFor(c.plane, samples, lap, |lap.points|);
  }

  /** **A lap whose bound is rounded onto its first fix**: crossed at 99.75 ms, a quarter of a millisecond before
      the fix at 100 ms, it has one point more than its trace. */
  lemma GrazingCostsAPoint(p: Plane, v: real) returns (lap: DerivedLap, trace: seq<TracePoint>)
    requires Sound(p) && v > STATIONARY_SPEED_KMH
    ensures Run(EquatorSetup(p), FourFixes(v, 2.9925, 1.5)).laps == [lap]
    ensures trace == TraceFor(p, FourFixes(v, 2.9925, 1.5), lap, |lap.points|)
    ensures |lap.points| == 4 && |trace| == 3
  {
    FourCrossings(p, v, 2.9925, 1.5);
    lap, trace := GrazingLap(EquatorSetup(p), FourFixes(v, 2.9925, 1.5));
  }
}
