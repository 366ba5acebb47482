/** `forDisplay` of `line-chart.ts`: the points worth drawing for a window, clipped to it and reduced to
    at most four for each bucket. */
module LineChart {
  import opened SampleMath

  datatype Point = Point(x: real, y: Option<real>)

  const DISPLAY_BUCKETS := 450

  // ------------------------------------------------------------------------------------------
  // Clipping
  // ------------------------------------------------------------------------------------------

  function ClipLow(points: seq<Point>, xMin: real, i: nat): (lo: nat)
    requires i < |points|
    ensures i <= lo < |points|
    ensures forall k :: i < k <= lo ==> points[k].x < xMin
    ensures lo + 1 < |points| ==> points[lo + 1].x >= xMin
    decreases |points| - i
  {
    if i + 1 < |points| && points[i + 1].x < xMin then ClipLow(points, xMin, i + 1) else i
  }

  function ClipHigh(points: seq<Point>, xMax: real, lo: nat, i: nat): (hi: nat)
    requires lo <= i < |points|
    ensures lo <= hi <= i
    ensures forall k :: hi <= k < i ==> points[k].x > xMax
    ensures hi > lo ==> points[hi - 1].x <= xMax
  {
    if i > lo && points[i - 1].x > xMax then ClipHigh(points, xMax, lo, i - 1) else i
  }

  function Low(points: seq<Point>, xMin: real): (lo: nat)
    requires points != []
    ensures lo < |points|
  {
    ClipLow(points, xMin, 0)
  }

  function High(points: seq<Point>, xMin: real, xMax: real): (hi: nat)
    requires points != []
    ensures Low(points, xMin) <= hi < |points|
  {
    ClipHigh(points, xMax, Low(points, xMin), |points| - 1)
  }

  method Clip(points: seq<Point>, xMin: real, xMax: real) returns (lo: nat, hi: nat)
    requires points != []
    ensures lo == Low(points, xMin) && hi == High(points, xMin, xMax)
  {
    lo := 0;
    while lo < |points| - 1 && points[lo + 1].x < xMin
      invariant lo < |points| && ClipLow(points, xMin, 0) == ClipLow(points, xMin, lo)
    {
      lo := lo + 1;
    }
    hi := |points| - 1;
    while hi > lo && points[hi - 1].x > xMax
      invariant lo <= hi < |points| && ClipHigh(points, xMax, lo, |points| - 1) == ClipHigh(points, xMax, lo, hi)
    {
      hi := hi - 1;
    }
  }

  ghost predicate Ascending(points: seq<Point>) {
    forall i, j :: 0 <= i <= j < |points| ==> points[i].x <= points[j].x
  }

  /** **The clipped range holds every point in the window, and at most one point outside it on each side.** */
  lemma ClipKeepsWindow(points: seq<Point>, xMin: real, xMax: real)
    requires points != [] && Ascending(points)
    ensures var lo, hi := Low(points, xMin), High(points, xMin, xMax);
            && (forall i :: 0 <= i < |points| && xMin <= points[i].x <= xMax ==> lo <= i <= hi)
            && (forall i :: lo < i < hi ==> xMin <= points[i].x <= xMax)
  {
    var lo, hi := Low(points, xMin), High(points, xMin, xMax);
    assert forall i :: 0 <= i < lo ==> points[i].x <= points[lo].x;
    forall i | lo < i < hi ensures xMin <= points[i].x <= xMax {
      assert points[lo + 1].x <= points[i].x <= points[hi - 1].x;
    }
  }

  // ------------------------------------------------------------------------------------------
  // Runs
  // ------------------------------------------------------------------------------------------

  /** What the scan looks at: readings, their buckets, and the clipped range. */
  datatype View = View(ys: seq<Option<real>>, buckets: seq<int>, lo: nat, hi: nat)

  ghost predicate Proper(v: View) {
    v.lo <= v.hi < |v.ys| == |v.buckets|
  }

  predicate InRange(v: View, i: int) {
    v.lo <= i <= v.hi
  }

  /** A point and the one before it belong to one run: no gap, same bucket. */
  predicate Linked(v: View, i: int)
    requires Proper(v)
  {
    v.lo < i <= v.hi && v.ys[i - 1].Some? && v.ys[i].Some? && v.buckets[i - 1] == v.buckets[i]
  }

  ghost predicate OneRun(v: View, i: int, j: int)
    requires Proper(v)
  {
    && InRange(v, i) && InRange(v, j) && i <= j && v.ys[i].Some?
    && forall k {:trigger Linked(v, k)} :: i < k <= j ==> Linked(v, k)
  }

  ghost predicate SameRun(v: View, i: int, j: int)
    requires Proper(v)
  {
    OneRun(v, i, j) || OneRun(v, j, i)
  }

  ghost predicate FirstOfRun(v: View, i: int)
    requires Proper(v) && InRange(v, i)
  {
    v.ys[i].Some? && !Linked(v, i)
  }

  ghost predicate LastOfRun(v: View, i: int)
    requires Proper(v) && InRange(v, i)
  {
    v.ys[i].Some? && !Linked(v, i + 1)
  }

  function Y(v: View, i: int): real
    requires Proper(v) && InRange(v, i) && v.ys[i].Some?
  {
    v.ys[i].value
  }

  /** The first of the lowest readings of its run. */
  ghost predicate Lowest(v: View, i: int)
    requires Proper(v) && InRange(v, i)
  {
    v.ys[i].Some? && forall j :: SameRun(v, i, j) ==> NotUnder(v, i, j)
  }

  ghost predicate NotUnder(v: View, i: int, j: int)
    requires Proper(v) && SameRun(v, i, j)
  {
    RunHasReadings(v, i, j);
    Y(v, i) <= Y(v, j) && (j < i ==> Y(v, i) < Y(v, j))
  }

  /** The first of the highest readings of its run. */
  ghost predicate Highest(v: View, i: int)
    requires Proper(v) && InRange(v, i)
  {
    v.ys[i].Some? && forall j :: SameRun(v, i, j) ==> NotOver(v, i, j)
  }

  ghost predicate NotOver(v: View, i: int, j: int)
    requires Proper(v) && SameRun(v, i, j)
  {
    RunHasReadings(v, i, j);
    Y(v, i) >= Y(v, j) && (j < i ==> Y(v, i) > Y(v, j))
  }

  lemma RunHasReadings(v: View, i: int, j: int)
    requires Proper(v) && SameRun(v, i, j)
    ensures InRange(v, i) && InRange(v, j) && v.ys[i].Some? && v.ys[j].Some?
  {
    if i < j {
      assert Linked(v, j);
    } else if j < i {
      assert Linked(v, i);
    }
  }

  /** A point is drawn when it is a gap, an end of its run, or the first of its run's lowest or highest. */
  ghost predicate Drawn(v: View, i: int)
    requires Proper(v) && InRange(v, i)
  {
    v.ys[i].None? || FirstOfRun(v, i) || LastOfRun(v, i) || Lowest(v, i) || Highest(v, i)
  }

  // ------------------------------------------------------------------------------------------
  // Emitting a run
  // ------------------------------------------------------------------------------------------

  ghost predicate Increasing(kept: seq<nat>) {
    forall k, l :: 0 <= k < l < |kept| ==> kept[k] < kept[l]
  }

  ghost predicate AllBelow(kept: seq<nat>, i: int) {
    forall k :: k in kept ==> k < i
  }

  /** The positions of a run seen so far: its ends and the first of its lowest and highest readings. */
  datatype Pending = Pending(first: nat, last: nat, lowest: nat, highest: nat)

  lemma AppendIncreasing(out: seq<nat>, i: nat)
    requires Increasing(out) && AllBelow(out, i)
    ensures Increasing(out + [i])
  {
    assert forall k :: 0 <= k < |out| ==> out[k] in out;
  }

  method Emit(out: seq<nat>, previous: int, i: nat) returns (r: seq<nat>, newPrevious: int)
    requires Increasing(out) && AllBelow(out, i + 1) && previous <= i && (i in out <==> previous == i)
    ensures Increasing(r) && AllBelow(r, i + 1) && newPrevious == i && i in r
    ensures forall k :: k in r <==> k in out || k == i
  {
    if i != previous {
      AppendIncreasing(out, i);
      return out + [i], i;
    }
    return out, previous;
  }

  predicate Spans(p: Pending) {
    p.first <= p.lowest <= p.last && p.first <= p.highest <= p.last
  }

  /** Emits a finished run in position order, each position once. */
  method Flush(out: seq<nat>, previous: int, run: Option<Pending>) returns (r: seq<nat>, newPrevious: int)
    requires Increasing(out)
    requires run.Some? ==> Spans(run.value) && previous < run.value.first && AllBelow(out, run.value.first)
    ensures Increasing(r) && newPrevious == if run.Some? then run.value.last else previous
    ensures forall k :: k in r <==> k in out || (run.Some? && k in Positions(run.value))
  {
    r, newPrevious := out, previous;
    if run.None? {
      return;
    }
    var p := run.value;
    r, newPrevious := Emit(r, newPrevious, p.first);
    r, newPrevious := Emit(r, newPrevious, MinInt(p.lowest, p.highest));
    r, newPrevious := Emit(r, newPrevious, MaxInt(p.lowest, p.highest));
    r, newPrevious := Emit(r, newPrevious, p.last);
  }

  function Positions(p: Pending): set<nat> { {p.first, p.last, p.lowest, p.highest} }

  // ------------------------------------------------------------------------------------------
  // The run being scanned
  // ------------------------------------------------------------------------------------------

  /** The first of the lowest readings from `a` to `b`. */
  ghost predicate LowestOf(v: View, a: int, b: int, l: int)
    requires Proper(v) && OneRun(v, a, b)
  {
    && a <= l <= b
    && forall j :: a <= j <= b ==> BelowReading(v, a, b, l, j)
  }

  ghost predicate BelowReading(v: View, a: int, b: int, l: int, j: int)
    requires Proper(v) && OneRun(v, a, b) && a <= l <= b && a <= j <= b
  {
    InnerRun(v, a, b, l);
    InnerRun(v, a, b, j);
    Y(v, l) <= Y(v, j) && (j < l ==> Y(v, l) < Y(v, j))
  }

  ghost predicate HighestOf(v: View, a: int, b: int, h: int)
    requires Proper(v) && OneRun(v, a, b)
  {
    && a <= h <= b
    && forall j :: a <= j <= b ==> AboveReading(v, a, b, h, j)
  }

  ghost predicate AboveReading(v: View, a: int, b: int, h: int, j: int)
    requires Proper(v) && OneRun(v, a, b) && a <= h <= b && a <= j <= b
  {
    InnerRun(v, a, b, h);
    InnerRun(v, a, b, j);
    Y(v, h) >= Y(v, j) && (j < h ==> Y(v, h) > Y(v, j))
  }

  lemma InnerRun(v: View, a: int, b: int, i: int)
    requires Proper(v) && OneRun(v, a, b) && a <= i <= b
    ensures InRange(v, i) && v.ys[i].Some? && OneRun(v, a, i) && OneRun(v, i, b)
  {
    if a < i {
      assert Linked(v, i);
    }
  }

  /** A run that started at `p.first` and has been scanned up to, not including, `i`. */
  ghost predicate Open(v: View, i: int, p: Pending)
    requires Proper(v)
  {
    && p.last == i - 1 && OneRun(v, p.first, i - 1) && FirstOfRun(v, p.first)
    && LowestOf(v, p.first, i - 1, p.lowest) && HighestOf(v, p.first, i - 1, p.highest)
  }

  /** The points of a run that ends before `i` are exactly those scanned. */
  lemma RunIs(v: View, i: int, p: Pending, k: int, j: int)
    requires Proper(v) && Open(v, i, p) && !Linked(v, i) && p.first <= k < i
    ensures SameRun(v, k, j) <==> p.first <= j < i
  {
    if p.first <= j < i {
      var a, b := if k <= j then k else j, if k <= j then j else k;
      InnerRun(v, p.first, i - 1, b);
      InnerRun(v, p.first, b, a);
    }
  }

  lemma LowestIs(v: View, i: int, p: Pending, k: int)
    requires Proper(v) && Open(v, i, p) && !Linked(v, i) && p.first <= k < i
    ensures InRange(v, k) && (Lowest(v, k) <==> k == p.lowest)
  {
    InnerRun(v, p.first, i - 1, k);
    RunIs(v, i, p, k, p.lowest);
    if Lowest(v, k) {
      assert NotUnder(v, k, p.lowest);
      assert BelowReading(v, p.first, i - 1, p.lowest, k);
    }
    if k == p.lowest {
      forall j | SameRun(v, k, j) ensures NotUnder(v, k, j) {
        RunIs(v, i, p, k, j);
        assert BelowReading(v, p.first, i - 1, p.lowest, j);
      }
    }
  }

  lemma HighestIs(v: View, i: int, p: Pending, k: int)
    requires Proper(v) && Open(v, i, p) && !Linked(v, i) && p.first <= k < i
    ensures InRange(v, k) && (Highest(v, k) <==> k == p.highest)
  {
    InnerRun(v, p.first, i - 1, k);
    RunIs(v, i, p, k, p.highest);
    if Highest(v, k) {
      assert NotOver(v, k, p.highest);
      assert AboveReading(v, p.first, i - 1, p.highest, k);
    }
    if k == p.highest {
      forall j | SameRun(v, k, j) ensures NotOver(v, k, j) {
        RunIs(v, i, p, k, j);
        assert AboveReading(v, p.first, i - 1, p.highest, j);
      }
    }
  }

  /** When a run is over, what is drawn of it is what is pending. */
  lemma ClosedRunIsDrawn(v: View, i: int, p: Pending, k: nat)
    requires Proper(v) && Open(v, i, p) && !Linked(v, i) && p.first <= k < i
    ensures InRange(v, k) && (Drawn(v, k) <==> k in Positions(p))
  {
    InnerRun(v, p.first, i - 1, k);
    LowestIs(v, i, p, k);
    HighestIs(v, i, p, k);
    assert p.first < k ==> Linked(v, k);
    assert k < i - 1 ==> Linked(v, k + 1);
  }

  lemma RunStarts(v: View, i: nat)
    requires Proper(v) && InRange(v, i) && v.ys[i].Some? && !Linked(v, i)
    ensures Open(v, i + 1, Pending(i, i, i, i))
  {}

  function Lower(v: View, l: nat, i: nat): nat
    requires Proper(v) && InRange(v, l) && InRange(v, i) && v.ys[l].Some? && v.ys[i].Some?
  {
    if Y(v, i) < Y(v, l) then i else l
  }

  function Higher(v: View, h: nat, i: nat): nat
    requires Proper(v) && InRange(v, h) && InRange(v, i) && v.ys[h].Some? && v.ys[i].Some?
  {
    if Y(v, i) > Y(v, h) then i else h
  }

  lemma RunLinks(v: View, i: nat, p: Pending)
    requires Proper(v) && Open(v, i, p) && i <= v.hi && v.ys[i].Some? && v.buckets[i - 1] == v.buckets[i]
    ensures Linked(v, i)
  {
    InnerRun(v, p.first, i - 1, i - 1);
  }

  lemma RunGrows(v: View, i: nat, p: Pending) returns (q: Pending)
    requires Proper(v) && Open(v, i, p) && Linked(v, i)
    ensures InRange(v, p.lowest) && v.ys[p.lowest].Some? && InRange(v, p.highest) && v.ys[p.highest].Some?
    ensures q == Pending(p.first, i, Lower(v, p.lowest, i), Higher(v, p.highest, i)) && Open(v, i + 1, q)
  {
    InnerRun(v, p.first, i - 1, p.lowest);
    InnerRun(v, p.first, i - 1, p.highest);
    q := Pending(p.first, i, Lower(v, p.lowest, i), Higher(v, p.highest, i));
    assert OneRun(v, p.first, i);
    forall j | p.first <= j <= i ensures BelowReading(v, p.first, i, q.lowest, j) {
      assert j < i ==> BelowReading(v, p.first, i - 1, p.lowest, j);
    }
    forall j | p.first <= j <= i ensures AboveReading(v, p.first, i, q.highest, j) {
      assert j < i ==> AboveReading(v, p.first, i - 1, p.highest, j);
    }
  }

  // ------------------------------------------------------------------------------------------
  // The scan
  // ------------------------------------------------------------------------------------------

  /** Everything before `until` is settled: kept exactly when drawn. */
  ghost predicate Settled(v: View, out: seq<nat>, until: int)
    requires Proper(v) && v.lo <= until <= v.hi + 1
  {
    && Increasing(out) && AllBelow(out, until) && (forall k :: k in out ==> v.lo <= k)
    && forall k: nat :: v.lo <= k < until ==> (k in out <==> Drawn(v, k))
  }

  ghost predicate Scanned(v: View, i: nat, out: seq<nat>, previous: int, bucket: Option<int>, run: Option<Pending>)
    requires Proper(v) && v.lo <= i <= v.hi + 1
  {
    match run
    case None => Settled(v, out, i) && previous < i && bucket == None && (i == v.lo || v.ys[i - 1].None?)
    case Some(p) =>
      && Open(v, i, p) && Settled(v, out, p.first) && previous < p.first && bucket == Some(v.buckets[i - 1])
  }

  lemma OpenSpans(v: View, i: int, p: Pending)
    requires Proper(v) && Open(v, i, p)
    ensures Spans(p)
  {}

  lemma FlushSettles(v: View, i: nat, out: seq<nat>, p: Pending, r: seq<nat>)
    requires Proper(v) && v.lo <= i <= v.hi + 1 && Open(v, i, p) && !Linked(v, i) && Settled(v, out, p.first)
             && Increasing(r)
    requires forall k :: k in r <==> k in out || k in Positions(p)
    ensures Settled(v, r, i)
  {
    OpenSpans(v, i, p);
    forall k: nat | v.lo <= k < i ensures k in r <==> Drawn(v, k) {
      if p.first <= k {
        ClosedRunIsDrawn(v, i, p, k);
      }
    }
  }

  /** Flushes what is pending before a break at `i`. */
  method FlushBefore(ghost v: View, ghost i: nat, out: seq<nat>, previous: int, ghost bucket: Option<int>,
                     run: Option<Pending>)
    returns (r: seq<nat>, newPrevious: int)
    requires Proper(v) && v.lo <= i <= v.hi + 1 && Scanned(v, i, out, previous, bucket, run)
    requires run.Some? ==> !Linked(v, i)
    ensures Settled(v, r, i) && newPrevious < i
  {
    if run.Some? {
      OpenSpans(v, i, run.value);
    }
    r, newPrevious := Flush(out, previous, run);
    if run.Some? {
      FlushSettles(v, i, out, run.value, r);
    }
  }

  function BucketOf(x: real, xMin: real, width: real): int
    requires width > 0.0
  {
    ((x - xMin) / width).Floor
  }

  function ViewOf(points: seq<Point>, lo: nat, hi: nat, xMin: real, width: real): (v: View)
    requires lo <= hi < |points| && width > 0.0
    ensures Proper(v) && v.lo == lo && v.hi == hi && |v.ys| == |points|
    ensures forall k :: 0 <= k < |points| ==>
            v.ys[k] == points[k].y && v.buckets[k] == BucketOf(points[k].x, xMin, width)
  {
    View(seq(|points|, k requires 0 <= k < |points| => points[k].y),
         seq(|points|, k requires 0 <= k < |points| => BucketOf(points[k].x, xMin, width)), lo, hi)
  }

  /** **Keeps exactly the points to be drawn**, in order. */
  method Scan(points: seq<Point>, lo: nat, hi: nat, xMin: real, width: real) returns (out: seq<nat>)
    requires lo <= hi < |points| && width > 0.0
    ensures Settled(ViewOf(points, lo, hi, xMin, width), out, hi + 1)
  {
    ghost var v := ViewOf(points, lo, hi, xMin, width);
    out := [];
    var bucket: Option<int> := None;
    var run: Option<Pending> := None;
    var previous := -1;
    for i := lo to hi + 1
      invariant Scanned(v, i, out, previous, bucket, run)
    {
      var point := points[i];
      if point.y.None? {
        out, previous := FlushBefore(v, i, out, previous, bucket, run);
        run, bucket := None, None;
        GapIsDrawn(v, i, out);
        out := out + [i];
        continue;
      }
      var index := BucketOf(point.x, xMin, width);
      if bucket != Some(index) {
        out, previous := FlushBefore(v, i, out, previous, bucket, run);
        run, bucket := None, Some(index);
      }
      if run.None? {
        RunStarts(v, i);
        run := Some(Pending(i, i, i, i));
      } else {
        var p := run.value;
        RunLinks(v, i, p);
        ghost var q := RunGrows(v, i, p);
        var lowest := if point.y.value < points[p.lowest].y.value then i else p.lowest;
        var highest := if point.y.value > points[p.highest].y.value then i else p.highest;
        run := Some(Pending(p.first, i, lowest, highest));
      }
    }
    out, previous := FlushBefore(v, hi + 1, out, previous, bucket, run);
  }

  lemma GapIsDrawn(v: View, i: nat, out: seq<nat>)
    requires Proper(v) && InRange(v, i) && v.ys[i].None? && Settled(v, out, i)
    ensures Settled(v, out + [i], i + 1)
  {
    AppendIncreasing(out, i);
  }

  function BucketWidth(xMin: real, xMax: real): (width: real)
    ensures width > 0.0 <==> xMin < xMax
  {
    (xMax - xMin) / (DISPLAY_BUCKETS as real)
  }

  predicate OnPoints(points: seq<Point>, kept: seq<nat>) {
    forall k :: 0 <= k < |kept| ==> kept[k] < |points|
  }

  /** The view of a window that is not empty. */
  function WindowView(points: seq<Point>, xMin: real, xMax: real): (v: View)
    requires points != [] && BucketWidth(xMin, xMax) > 0.0
    ensures Proper(v) && |v.ys| == |points|
  {
    ViewOf(points, Low(points, xMin), High(points, xMin, xMax), xMin, BucketWidth(xMin, xMax))
  }

  /** What is drawn: in a window with some width exactly the points to be drawn, else the whole range. */
  method ForDisplay(points: seq<Point>, xMin: real, xMax: real) returns (out: seq<Point>, ghost kept: seq<nat>)
    ensures OnPoints(points, kept) && out == Pick(points, kept)
    ensures points != [] && BucketWidth(xMin, xMax) > 0.0 ==>
              var v := WindowView(points, xMin, xMax); Settled(v, kept, v.hi + 1)
    ensures points != [] && BucketWidth(xMin, xMax) <= 0.0 ==>
            out == points[Low(points, xMin)..High(points, xMin, xMax) + 1]
    ensures points == [] ==> out == []
  {
    if |points| == 0 {
      return points, [];
    }
    var lo, hi := Clip(points, xMin, xMax);
    var bucketWidth := BucketWidth(xMin, xMax);
    if !(bucketWidth > 0.0) {
      kept := seq(hi + 1 - lo, k requires 0 <= k < hi + 1 - lo => lo + k);
      out := points[lo..hi + 1];
      return;
    }
    var positions := Scan(points, lo, hi, xMin, bucketWidth);
    assert forall k :: 0 <= k < |positions| ==> positions[k] in positions;
    kept := positions;
    out := Pick(points, positions);
  }

  // ------------------------------------------------------------------------------------------
  // What the drawing keeps
  // ------------------------------------------------------------------------------------------

  lemma {:induction false} RunStart(v: View, i: nat) returns (a: nat)
    requires Proper(v) && InRange(v, i) && v.ys[i].Some?
    ensures a <= i && OneRun(v, a, i) && FirstOfRun(v, a)
  {
    if Linked(v, i) {
      a := RunStart(v, i - 1);
    } else {
      a := i;
    }
  }

  lemma {:induction false} RunEnd(v: View, i: nat) returns (b: nat)
    requires Proper(v) && InRange(v, i) && v.ys[i].Some?
    ensures i <= b && OneRun(v, i, b) && !Linked(v, b + 1)
    decreases v.hi - i
  {
    if Linked(v, i + 1) {
      b := RunEnd(v, i + 1);
    } else {
      b := i;
    }
  }

  lemma {:induction false} OpenRun(v: View, a: nat, b: nat) returns (p: Pending)
    requires Proper(v) && OneRun(v, a, b) && FirstOfRun(v, a)
    ensures p.first == a && Open(v, b + 1, p)
    decreases b
  {
    if a == b {
      RunStarts(v, a);
      p := Pending(a, a, a, a);
    } else {
      InnerRun(v, a, b, b - 1);
      assert Linked(v, b);
      var q := OpenRun(v, a, b - 1);
      p := RunGrows(v, b, q);
    }
  }

  /** The whole run around a reading, and what is drawn of it. */
  lemma RunAround(v: View, i: nat) returns (p: Pending, end: nat)
    requires Proper(v) && InRange(v, i) && v.ys[i].Some?
    ensures p.first <= i < end <= v.hi + 1 && Open(v, end, p) && !Linked(v, end)
  {
    var a := RunStart(v, i);
    var b := RunEnd(v, i);
    assert OneRun(v, a, b);
    p := OpenRun(v, a, b);
    end := b + 1;
  }

  /** **Every reading lies between two drawn readings of its own run**: the envelope survives. */
  lemma EnvelopeIsKept(v: View, kept: seq<nat>, i: nat) returns (low: nat, high: nat)
    requires Proper(v) && Settled(v, kept, v.hi + 1) && InRange(v, i) && v.ys[i].Some?
    ensures low in kept && high in kept && SameRun(v, i, low) && SameRun(v, i, high)
    ensures InRange(v, low) && v.ys[low].Some? && InRange(v, high) && v.ys[high].Some?
    ensures Y(v, low) <= Y(v, i) <= Y(v, high)
  {
    var p, end := RunAround(v, i);
    low, high := p.lowest, p.highest;
    InnerRun(v, p.first, end - 1, low);
    InnerRun(v, p.first, end - 1, high);
    ClosedRunIsDrawn(v, end, p, low);
    ClosedRunIsDrawn(v, end, p, high);
    RunIs(v, end, p, i, low);
    RunIs(v, end, p, i, high);
    assert BelowReading(v, p.first, end - 1, low, i) && AboveReading(v, p.first, end - 1, high, i);
  }

  /** Gaps, the first and last of every run, and both ends of the range are drawn. */
  lemma EndsAreKept(v: View, kept: seq<nat>, i: nat)
    requires Proper(v) && Settled(v, kept, v.hi + 1) && InRange(v, i)
    requires v.ys[i].None? || !Linked(v, i) || !Linked(v, i + 1) || i == v.lo || i == v.hi
    ensures i in kept
  {
    assert Drawn(v, i);
  }

  lemma FourPositions(p: Pending, a: nat, b: nat, c: nat, d: nat, e: nat)
    requires a < b < c < d < e
    ensures !({a, b, c, d, e} <= Positions(p))
  {
    assert a in {a, b, c, d, e} && b in {a, b, c, d, e} && c in {a, b, c, d, e} && d in {a, b, c, d, e}
           && e in {a, b, c, d, e};
  }

  lemma KeptOfRun(v: View, kept: seq<nat>, end: nat, p: Pending, k: nat)
    requires Proper(v) && end <= v.hi + 1 && Settled(v, kept, v.hi + 1) && Open(v, end, p) && !Linked(v, end)
    requires k in kept && p.first <= k < end
    ensures k in Positions(p)
  {
    ClosedRunIsDrawn(v, end, p, k);
  }

  /** **No run is drawn with more than four points.** */
  lemma AtMostFourOfARun(v: View, kept: seq<nat>, k: nat)
    requires Proper(v) && Settled(v, kept, v.hi + 1) && k + 4 < |kept|
    ensures !OneRun(v, kept[k], kept[k + 4])
  {
    if OneRun(v, kept[k], kept[k + 4]) {
      var p, end := RunAround(v, kept[k]);
      RunIs(v, end, p, kept[k], kept[k + 4]);
      forall j | k <= j <= k + 4 ensures kept[j] in Positions(p) {
        KeptOfRun(v, kept, end, p, kept[j]);
      }
      FourPositions(p, kept[k], kept[k + 1], kept[k + 2], kept[k + 3], kept[k + 4]);
    }
  }

  /** A stretch of readings with a gap, or the end of the range, on either side. */
  ghost predicate Stretch(v: View, a: nat, b: nat)
    requires Proper(v)
  {
    && v.lo <= a <= b <= v.hi && (forall i :: a <= i <= b ==> v.ys[i].Some?)
    && (a == v.lo || v.ys[a - 1].None?) && (b == v.hi || v.ys[b + 1].None?)
  }

  lemma RunStaysInStretch(v: View, a: nat, b: nat, i: nat, j: nat)
    requires Proper(v) && Stretch(v, a, b) && a <= i <= b && SameRun(v, i, j)
    ensures a <= j <= b
  {
    assert !Linked(v, a) && !Linked(v, b + 1);
  }

  /** A lowest and a highest reading among the first `n` of a stretch. */
  lemma {:induction false} Extremes(v: View, a: nat, n: nat) returns (l: nat, h: nat)
    requires Proper(v) && n > 0 && v.lo <= a && a + n <= v.hi + 1 && forall i :: a <= i < a + n ==> v.ys[i].Some?
    ensures a <= l < a + n && a <= h < a + n
    ensures forall i :: a <= i < a + n ==> Y(v, l) <= Y(v, i) <= Y(v, h)
  {
    l, h := a, a;
    if n > 1 {
      l, h := Extremes(v, a, n - 1);
      var i := a + n - 1;
      l, h := Lower(v, l, i), Higher(v, h, i);
    }
  }

  /** **Every stretch without a gap is drawn with its exact lowest and highest reading.** */
  lemma ExtremesAreKept(v: View, kept: seq<nat>, a: nat, b: nat) returns (low: nat, high: nat)
    requires Proper(v) && Settled(v, kept, v.hi + 1) && Stretch(v, a, b)
    ensures low in kept && high in kept && a <= low <= b && a <= high <= b
    ensures forall i :: a <= i <= b ==> Y(v, low) <= Y(v, i) <= Y(v, high)
  {
    var l, h := Extremes(v, a, b + 1 - a);
    var x;
    low, x := EnvelopeIsKept(v, kept, l);
    x, high := EnvelopeIsKept(v, kept, h);
    RunStaysInStretch(v, a, b, l, low);
    RunStaysInStretch(v, a, b, h, high);
  }

  // ------------------------------------------------------------------------------------------
  // Runs are buckets
  // ------------------------------------------------------------------------------------------

  lemma BucketsAscend(points: seq<Point>, lo: nat, hi: nat, xMin: real, width: real, i: nat, j: nat)
    requires Ascending(points) && lo <= hi < |points| && width > 0.0 && i <= j < |points|
    ensures ViewOf(points, lo, hi, xMin, width).buckets[i] <= ViewOf(points, lo, hi, xMin, width).buckets[j]
  {
    DivMonotone(points[i].x - xMin, points[j].x - xMin, width);
  }

  lemma {:induction false} RunHasOneBucket(v: View, i: nat, j: nat)
    requires Proper(v) && OneRun(v, i, j)
    ensures v.buckets[i] == v.buckets[j]
  {
    if i < j {
      InnerRun(v, i, j, j - 1);
      assert Linked(v, j);
      RunHasOneBucket(v, i, j - 1);
    }
  }

  /** With x ascending, a run is what one bucket holds between two gaps. */
  lemma RunsAreBuckets(points: seq<Point>, lo: nat, hi: nat, xMin: real, width: real, i: nat, j: nat)
    requires Ascending(points) && lo <= hi < |points| && width > 0.0 && lo <= i <= j <= hi
    ensures var v := ViewOf(points, lo, hi, xMin, width);
            OneRun(v, i, j) <==> (forall k :: i <= k <= j ==> points[k].y.Some?) && v.buckets[i] == v.buckets[j]
  {
    var v := ViewOf(points, lo, hi, xMin, width);
    if OneRun(v, i, j) {
      RunHasOneBucket(v, i, j);
      forall k | i <= k <= j ensures points[k].y.Some? {
        InnerRun(v, i, j, k);
      }
    }
    if (forall k :: i <= k <= j ==> points[k].y.Some?) && v.buckets[i] == v.buckets[j] {
      forall k | i < k <= j ensures Linked(v, k) {
        BucketsAscend(points, lo, hi, xMin, width, i, k - 1);
        BucketsAscend(points, lo, hi, xMin, width, k - 1, k);
        BucketsAscend(points, lo, hi, xMin, width, k, j);
      }
    }
  }

  /** The left edge of the `k`-th of the 450 equal parts of a window. */
  ghost function EdgeX(k: int, xMin: real, xMax: real): real {
    xMin + (k as real) * (xMax - xMin) / 450.0
  }

  /** One of those edges lies after the first position and not after the second. */
  ghost predicate EdgeBetween(a: real, b: real, xMin: real, xMax: real) {
    exists k: int :: a < EdgeX(k, xMin, xMax) <= b
  }

  /** What part of the window a position is in, between which edges. */
  lemma BucketEdges(x: real, xMin: real, xMax: real)
    requires xMin < xMax
    ensures BucketWidth(xMin, xMax) > 0.0
    ensures var k := BucketOf(x, xMin, BucketWidth(xMin, xMax));
            EdgeX(k, xMin, xMax) <= x < EdgeX(k + 1, xMin, xMax)
  {
    DivStrict(0.0, xMax - xMin, 450.0);
    var k := FloorTimes(x - xMin, BucketWidth(xMin, xMax));
    EdgeIsWidths(k, xMin, xMax);
    EdgeIsWidths(k + 1, xMin, xMax);
  }

  lemma FloorTimes(y: real, d: real) returns (k: int)
    requires d > 0.0
    ensures k == (y / d).Floor && (k as real) * d <= y && y < ((k + 1) as real) * d
  {
    var q := QuotientOf(y, d);
    k := q.Floor;
    ProductNotAbove(k as real, q, d, y);
    ProductBelow(q, (k + 1) as real, d, y);
  }

  lemma QuotientOf(y: real, d: real) returns (q: real)
    requires d > 0.0
    ensures q == y / d && y == q * d
  {
    q := y / d;
  }

  lemma ProductBelow(q: real, b: real, d: real, y: real)
    requires d > 0.0 && q < b && y == q * d
    ensures y < b * d
  {
    MulPositive(b - q, d);
    assert b * d == q * d + (b - q) * d;
  }

  lemma ProductNotAbove(a: real, q: real, d: real, y: real)
    requires d > 0.0 && a <= q && y == q * d
    ensures a * d <= y
  {
    MulNonNegative(q - a, d);
    assert q * d == a * d + (q - a) * d;
  }

  lemma EdgeIsWidths(k: int, xMin: real, xMax: real)
    ensures EdgeX(k, xMin, xMax) == xMin + (k as real) * BucketWidth(xMin, xMax)
  {}

  lemma EdgesAscend(k: int, l: int, xMin: real, xMax: real)
    requires xMin < xMax && k <= l
    ensures EdgeX(k, xMin, xMax) <= EdgeX(l, xMin, xMax)
  {
    EdgeIsWidths(k, xMin, xMax);
    EdgeIsWidths(l, xMin, xMax);
    BucketEdges(xMin, xMin, xMax);
    MulMonotone(BucketWidth(xMin, xMax), k as real, l as real);
  }

  lemma SameBucketNoEdge(a: real, b: real, xMin: real, xMax: real)
    requires xMin < xMax && a <= b && BucketWidth(xMin, xMax) > 0.0
    ensures var width := BucketWidth(xMin, xMax);
            BucketOf(a, xMin, width) == BucketOf(b, xMin, width) <==> !EdgeBetween(a, b, xMin, xMax)
  {
    var width := BucketWidth(xMin, xMax);
    var i, j := BucketOf(a, xMin, width), BucketOf(b, xMin, width);
    BucketEdges(a, xMin, xMax);
    BucketEdges(b, xMin, xMax);
    if i == j {
      forall k: int ensures !(a < EdgeX(k, xMin, xMax) <= b) {
        if k <= i {
          EdgesAscend(k, i, xMin, xMax);
        } else {
          EdgesAscend(i + 1, k, xMin, xMax);
        }
      }
    } else {
      DivMonotone(a - xMin, b - xMin, width);
      EdgesAscend(i + 1, j, xMin, xMax);
      assert a < EdgeX(j, xMin, xMax) <= b;
    }
  }

  /** No gap from the one position to the other, and no edge. */
  ghost predicate InOnePart(points: seq<Point>, xMin: real, xMax: real, i: nat, j: nat)
    requires i <= j < |points|
  {
    (forall k :: i <= k <= j ==> points[k].y.Some?) && !EdgeBetween(points[i].x, points[j].x, xMin, xMax)
  }

  /** **The chart is as fine as its 450 parts**: with x ascending two readings of the range are in one run exactly when
      there is no gap between them and neither is there an edge. */
  lemma RunsAreParts(points: seq<Point>, xMin: real, xMax: real, i: nat, j: nat)
    requires points != [] && Ascending(points) && xMin < xMax
    requires Low(points, xMin) <= i <= j <= High(points, xMin, xMax)
    ensures BucketWidth(xMin, xMax) > 0.0
    ensures OneRun(WindowView(points, xMin, xMax), i, j) <==> InOnePart(points, xMin, xMax, i, j)
  {
    BucketEdges(points[i].x, xMin, xMax);
    RunsAreBuckets(points, Low(points, xMin), High(points, xMin, xMax), xMin, BucketWidth(xMin, xMax), i, j);
    SameBucketNoEdge(points[i].x, points[j].x, xMin, xMax);
  }

  /** So no run is as wide as a 450th of the window. */
  lemma RunsAreNarrow(points: seq<Point>, xMin: real, xMax: real, i: nat, j: nat)
    requires i <= j < |points| && xMin < xMax && points[i].x <= points[j].x && InOnePart(points, xMin, xMax, i, j)
    ensures points[j].x - points[i].x < (xMax - xMin) / 450.0
  {
    BucketEdges(points[i].x, xMin, xMax);
    var k := BucketOf(points[i].x, xMin, BucketWidth(xMin, xMax));
    EdgeIsWidths(k, xMin, xMax);
    EdgeIsWidths(k + 1, xMin, xMax);
    assert EdgeX(k + 1, xMin, xMax) > points[j].x;
  }

  // ------------------------------------------------------------------------------------------
  // How much is drawn
  // ------------------------------------------------------------------------------------------

  /** The gaps of the range up to position `i`. */
  ghost function Gaps(v: View, i: int): nat
    requires Proper(v) && v.lo - 1 <= i <= v.hi
    decreases i - v.lo + 1
  {
    if i < v.lo then 0 else Gaps(v, i - 1) + (if v.ys[i].None? then 1 else 0)
  }

  lemma {:induction false} GapsAscend(v: View, i: int, j: int)
    requires Proper(v) && v.lo - 1 <= i <= j <= v.hi
    ensures Gaps(v, i) <= Gaps(v, j)
    ensures i < j && v.ys[j].None? ==> Gaps(v, i) < Gaps(v, j)
    decreases j - i
  {
    if i < j {
      GapsAscend(v, i, j - 1);
    }
  }

  /** Points with x ascending, seen in a range. */
  ghost predicate Seen(points: seq<Point>, xMin: real, width: real, v: View) {
    && Ascending(points) && width > 0.0 && v.lo <= v.hi < |points|
    && v == ViewOf(points, v.lo, v.hi, xMin, width)
  }

  lemma KeptInRange(v: View, kept: seq<nat>, k: nat)
    requires Proper(v) && Settled(v, kept, v.hi + 1) && k < |kept|
    ensures v.lo <= kept[k] <= v.hi
  {
    assert kept[k] in kept;
  }

  lemma NoneBetween(kept: seq<nat>, k: nat, g: nat)
    requires Increasing(kept) && 0 < k < |kept| && kept[k - 1] < g < kept[k]
    ensures g !in kept
  {
    forall l | 0 <= l < |kept| ensures kept[l] != g {
      assert l < k ==> kept[l] <= kept[k - 1];
    }
  }

  /** Between two points kept one after the other, and not of one run, there is no gap, and the bucket
      changes unless the first is a gap itself. */
  lemma RunsBreak(points: seq<Point>, xMin: real, width: real, v: View, kept: seq<nat>, k: nat)
    requires Seen(points, xMin, width, v) && Settled(v, kept, v.hi + 1) && 0 < k < |kept|
    requires v.lo <= kept[k - 1] < kept[k] <= v.hi && v.ys[kept[k]].Some? && !OneRun(v, kept[k - 1], kept[k])
    ensures v.ys[kept[k - 1]].None? || v.buckets[kept[k - 1]] < v.buckets[kept[k]]
  {
    var i, j := kept[k - 1], kept[k];
    RunsAreBuckets(points, v.lo, v.hi, xMin, width, i, j);
    BucketsAscend(points, v.lo, v.hi, xMin, width, i, j);
    forall g | i < g < j ensures points[g].y.Some? {
      if points[g].y.None? {
        EndsAreKept(v, kept, g);
        NoneBetween(kept, k, g);
        assert false;
      }
    }
  }

  /** The first point kept of the run `kept[k]` is in, but for the very first point kept. */
  lemma RunBegins(v: View, kept: seq<nat>, k: nat) returns (j: nat)
    requires Proper(v) && Settled(v, kept, v.hi + 1) && 0 < k < |kept|
    requires v.lo <= kept[k] <= v.hi && v.ys[kept[k]].Some?
    ensures 0 < j <= k <= j + 3 && OneRun(v, kept[j], kept[k])
    ensures j > 1 ==> !OneRun(v, kept[j - 1], kept[j])
  {
    j := k;
    while j > 1 && OneRun(v, kept[j - 1], kept[j])
      invariant 0 < j <= k && OneRun(v, kept[j], kept[k])
    {
      j := j - 1;
    }
    if k > j + 3 {
      InnerRun(v, kept[j], kept[k], kept[j + 4]);
      AtMostFourOfARun(v, kept, j);
    }
  }

  /** How many points may have been kept by position `i`, leaving out the first: four for each bucket and
      for each gap, and the gaps. */
  ghost function Room(v: View, i: int): int
    requires Proper(v) && InRange(v, i)
  {
    4 * (v.buckets[i] + Gaps(v, i) + (if v.ys[i].Some? then 1 else 0)) + Gaps(v, i)
  }

  lemma {:induction false} KeptWithin(points: seq<Point>, xMin: real, width: real, v: View, kept: seq<nat>, k: nat)
    requires Seen(points, xMin, width, v) && Settled(v, kept, v.hi + 1) && 0 < k < |kept|
    requires v.lo <= kept[1] <= kept[k] <= v.hi && v.buckets[kept[1]] >= 0
    ensures k - 1 < Room(v, kept[k])
    decreases k
  {
    KeptInRange(v, kept, k - 1);
    BucketsAscend(points, v.lo, v.hi, xMin, width, kept[1], kept[k]);
    GapsAscend(v, v.lo - 1, kept[k]);
    if v.ys[kept[k]].None? {
      if k > 1 {
        KeptWithin(points, xMin, width, v, kept, k - 1);
        BucketsAscend(points, v.lo, v.hi, xMin, width, kept[k - 1], kept[k]);
        GapsAscend(v, kept[k - 1], kept[k]);
      }
    } else {
      var j := RunBegins(v, kept, k);
      if j > 1 {
        KeptInRange(v, kept, j);
        KeptInRange(v, kept, j - 1);
        KeptWithin(points, xMin, width, v, kept, j - 1);
        InnerRun(v, kept[j], kept[k], kept[j]);
        RunsBreak(points, xMin, width, v, kept, j);
        BucketsAscend(points, v.lo, v.hi, xMin, width, kept[j - 1], kept[j]);
        BucketsAscend(points, v.lo, v.hi, xMin, width, kept[j], kept[k]);
        GapsAscend(v, kept[j - 1], kept[k]);
      }
    }
  }

  /** Inside the window there are `DISPLAY_BUCKETS` buckets, and its right edge. */
  lemma WindowBuckets(x: real, xMin: real, xMax: real)
    requires BucketWidth(xMin, xMax) > 0.0 && xMin <= x <= xMax
    ensures 0 <= BucketOf(x, xMin, BucketWidth(xMin, xMax)) <= DISPLAY_BUCKETS
  {
    var width := BucketWidth(xMin, xMax);
    DivMonotone(0.0, x - xMin, width);
    DivMonotone(x - xMin, DISPLAY_BUCKETS as real * width, width);
    MulDiv(DISPLAY_BUCKETS as real, width);
  }

  /** **A window is drawn with a bounded number of points however many there are**: four for each bucket, one
      on each side of the window, and five for each gap. */
  lemma DrawingIsBounded(points: seq<Point>, xMin: real, xMax: real, kept: seq<nat>)
    requires points != [] && Ascending(points) && BucketWidth(xMin, xMax) > 0.0
    requires Settled(WindowView(points, xMin, xMax), kept, WindowView(points, xMin, xMax).hi + 1)
    ensures var v := WindowView(points, xMin, xMax);
            |kept| <= 4 * 451 + 2 + 5 * Gaps(v, v.hi)
  {
    var v, n, width := WindowView(points, xMin, xMax), |kept|, BucketWidth(xMin, xMax);
    if n > 2 {
      forall k | 0 < k < n - 1 ensures v.lo < kept[k] < v.hi && 0 <= v.buckets[kept[k]] <= DISPLAY_BUCKETS {
        KeptInRange(v, kept, 0);
        KeptInRange(v, kept, n - 1);
        ClipKeepsWindow(points, xMin, xMax);
        WindowBuckets(points[kept[k]].x, xMin, xMax);
      }
      assert v.lo < kept[1] < v.hi;
      KeptWithin(points, xMin, width, v, kept, n - 2);
      GapsAscend(v, kept[n - 2], v.hi);
    }
  }
}
