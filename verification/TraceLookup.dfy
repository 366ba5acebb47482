/** Looking a trace up by distance or by elapsed time: `bracketBy`, `interpolateTracePointAt` and
    `distanceAtElapsed` of `lap-trace.ts`. */
module TraceLookup {
  import opened SampleMath
  import opened Analysis

  /** The two positions around a target and how far between them it falls. When both are the same the
      target lies in no hop, and the point there is read as it is. */
  datatype Bracket = Bracket(a: nat, b: nat, t: real)

  function BracketOf(keys: seq<real>, target: real): (r: Bracket)
    requires keys != []
    ensures r.a < |keys| && r.b < |keys|
  {
    var last := |keys| - 1;
    if |keys| < 2 || target <= keys[0] then Bracket(0, 0, 0.0)
    else if target >= keys[last] then Bracket(last, last, 0.0)
    else
      var i := FirstAtLeast(keys, target, 1);
      if i < |keys| then Bracket(i - 1, i, Fraction(keys[i - 1], keys[i], target)) else Bracket(last, last, 0.0)
  }

  function KeysOf(points: seq<TracePoint>, key: TracePoint -> real): (r: seq<real>)
    ensures |r| == |points| && forall k :: 0 <= k < |r| ==> r[k] == key(points[k])
  {
    seq(|points|, k requires 0 <= k < |points| => key(points[k]))
  }

  method BracketBy(points: seq<TracePoint>, key: TracePoint -> real, target: real) returns (r: Bracket)
    requires points != []
    ensures r == BracketOf(KeysOf(points, key), target)
  {
    var last := |points| - 1;
    if |points| < 2 || target <= key(points[0]) {
      return Bracket(0, 0, 0.0);
    }
    r := Bracket(last, last, 0.0);
    if target >= key(points[last]) {
      return;
    }
    ghost var keys := KeysOf(points, key);
    for i := 1 to |points|
      invariant FirstAtLeast(keys, target, 1) == FirstAtLeast(keys, target, i)
    {
      if key(points[i]) < target {
        continue;
      }
      return Bracket(i - 1, i, Fraction(key(points[i - 1]), key(points[i]), target));
    }
  }

  function Dists(points: seq<TracePoint>): seq<real> { KeysOf(points, (p: TracePoint) => p.distM) }

  function Times(points: seq<TracePoint>): seq<real> { KeysOf(points, (p: TracePoint) => p.elapsedMs) }

  function Blend(a: TracePoint, b: TracePoint, t: real, distM: real): TracePoint {
    TracePoint(distM, Lerp(a.elapsedMs, b.elapsedMs, t), Lerp(a.lat, b.lat, t), Lerp(a.lon, b.lon, t),
               LerpChannel(a.speedKmh, b.speedKmh, t), LerpChannel(a.rpm, b.rpm, t),
               LerpChannel(a.coolantC, b.coolantC, t), LerpChannel(a.oilC, b.oilC, t),
               LerpChannel(a.gLat, b.gLat, t), LerpChannel(a.gLon, b.gLon, t))
  }

  function PointAt(points: seq<TracePoint>, distM: real): TracePoint
    requires points != []
  {
    var r := BracketOf(Dists(points), distM);
    if r.a == r.b then points[r.a] else Blend(points[r.a], points[r.b], r.t, distM)
  }

  method InterpolateTracePointAt(points: seq<TracePoint>, distM: real) returns (r: TracePoint)
    requires points != []
    ensures r == PointAt(points, distM)
  {
    var bracket := BracketBy(points, (p: TracePoint) => p.distM, distM);
    if bracket.a == bracket.b {
      return points[bracket.a];
    }
    return Blend(points[bracket.a], points[bracket.b], bracket.t, distM);
  }

  function DistanceAt(points: seq<TracePoint>, elapsedMs: real): real
    requires points != []
  {
    var r := BracketOf(Times(points), elapsedMs);
    Lerp(points[r.a].distM, points[r.b].distM, r.t)
  }

  method DistanceAtElapsed(points: seq<TracePoint>, elapsedMs: real) returns (distM: real)
    requires points != []
    ensures distM == DistanceAt(points, elapsedMs)
  {
    var bracket := BracketBy(points, (p: TracePoint) => p.elapsedMs, elapsedMs);
    return Lerp(points[bracket.a].distM, points[bracket.b].distM, bracket.t);
  }

  // ------------------------------------------------------------------------------------------
  // One axis read against another
  // ------------------------------------------------------------------------------------------

  ghost predicate Rises(s: seq<real>) {
    forall i, j :: 0 <= i < j < |s| ==> s[i] < s[j]
  }

  ghost predicate NeverFalls(s: seq<real>) {
    forall i, j :: 0 <= i <= j < |s| ==> s[i] <= s[j]
  }

  /** The value the second axis takes where the first one reads `x`. */
  function ValueAt(keys: seq<real>, values: seq<real>, x: real): real
    requires |keys| == |values| && keys != []
  {
    var r := BracketOf(keys, x);
    Lerp(values[r.a], values[r.b], r.t)
  }

  function Clamp(x: real, lo: real, hi: real): real {
    if x < lo then lo else if x > hi then hi else x
  }

  function First(s: seq<real>): real
    requires s != []
  {
    s[0]
  }

  function Last(s: seq<real>): real
    requires s != []
  {
    s[|s| - 1]
  }

  /** Both lookups are this one, with the axes exchanged. */
  lemma LookupsReadAxes(points: seq<TracePoint>, x: real)
    requires points != []
    ensures PointAt(points, x).elapsedMs == ValueAt(Dists(points), Times(points), x)
    ensures DistanceAt(points, x) == ValueAt(Times(points), Dists(points), x)
  {}

  /** Strictly inside the range, the answer lies on the hop whose end is the first to reach `x`. */
  lemma OnHop(keys: seq<real>, values: seq<real>, x: real) returns (i: nat, t: real)
    requires |keys| == |values| && keys != [] && First(keys) < x < Last(keys)
    ensures 0 < i < |keys| && i == FirstAtLeast(keys, x, 1) && keys[i - 1] < x <= keys[i]
    ensures t == (x - keys[i - 1]) / (keys[i] - keys[i - 1]) && 0.0 < t <= 1.0 && Lerp(keys[i - 1], keys[i], t) == x
    ensures ValueAt(keys, values, x) == Lerp(values[i - 1], values[i], t)
  {
    i := FirstAtLeast(keys, x, 1);
    assert i < |keys|;
    t := (x - keys[i - 1]) / (keys[i] - keys[i - 1]);
    FractionOnHop(keys[i - 1], keys[i], x);
  }

  lemma FractionOnHop(a: real, b: real, x: real)
    requires a < x <= b
    ensures var t := (x - a) / (b - a); 0.0 < t <= 1.0 && Lerp(a, b, t) == x && (x < b ==> t < 1.0)
  {
    DivStrict(0.0, x - a, b - a);
    DivBounds(x - a, b - a);
    if x < b {
      DivStrict(x - a, b - a, b - a);
    }
  }

  lemma FractionBack(a: real, b: real, t: real)
    requires a < b && 0.0 < t <= 1.0
    ensures a < Lerp(a, b, t) <= b && (Lerp(a, b, t) - a) / (b - a) == t && (Lerp(a, b, t) == b ==> t == 1.0)
  {
    MulPositive(t, b - a);
    LerpBounds(a, b, t);
    assert Lerp(a, b, t) - a == t * (b - a);
  }

  lemma {:induction false} FirstIs(keys: seq<real>, x: real, i: nat)
    requires NeverFalls(keys) && 0 < i < |keys| && keys[i - 1] < x <= keys[i]
    ensures FirstAtLeast(keys, x, 1) == i
  {
    forall k | 0 <= k < i ensures keys[k] < x {
      assert keys[k] <= keys[i - 1];
    }
  }

  lemma RisesNeverFalls(s: seq<real>)
    requires Rises(s)
    ensures NeverFalls(s)
  {}

  lemma BackOnHop(keys: seq<real>, values: seq<real>, i: nat, t: real)
    requires |keys| == |values| && NeverFalls(values) && 0 < i < |keys|
    requires values[i - 1] < values[i] && 0.0 < t <= 1.0 && Lerp(values[i - 1], values[i], t) < Last(values)
    ensures ValueAt(values, keys, Lerp(values[i - 1], values[i], t)) == Lerp(keys[i - 1], keys[i], t)
  {
    FractionBack(values[i - 1], values[i], t);
    FirstIs(values, Lerp(values[i - 1], values[i], t), i);
    assert First(values) <= values[i - 1];
  }

  /** Short of the last key, a hop's value is short of the last value. */
  lemma ShortOfLast(values: seq<real>, i: nat, t: real)
    requires Rises(values) && 0 < i < |values| && 0.0 < t <= 1.0 && (t == 1.0 ==> i < |values| - 1)
    ensures Lerp(values[i - 1], values[i], t) < Last(values)
  {
    FractionBack(values[i - 1], values[i], t);
  }

  /** **Reading one axis and then back gives the reading itself**, clamped to the axis's range. */
  lemma ThereAndBack(keys: seq<real>, values: seq<real>, x: real)
    requires |keys| == |values| && keys != [] && Rises(keys) && Rises(values)
    ensures ValueAt(values, keys, ValueAt(keys, values, x)) == Clamp(x, First(keys), Last(keys))
  {
    RisesNeverFalls(values);
    if First(keys) < x < Last(keys) {
      var i, t := OnHop(keys, values, x);
      ShortOfLast(values, i, t);
      BackOnHop(keys, values, i, t);
    } else {
      BackAtEnds(keys, values, x);
    }
  }

  lemma BackAtEnds(keys: seq<real>, values: seq<real>, x: real)
    requires |keys| == |values| && keys != [] && Rises(keys) && Rises(values) && !(First(keys) < x < Last(keys))
    ensures ValueAt(values, keys, ValueAt(keys, values, x)) == Clamp(x, First(keys), Last(keys))
  {}

  /** A reading never falls as the target rises. */
  lemma ReadingAscends(keys: seq<real>, values: seq<real>, x: real, y: real)
    requires |keys| == |values| && keys != [] && NeverFalls(keys) && NeverFalls(values) && x <= y
    ensures First(values) <= ValueAt(keys, values, x) <= ValueAt(keys, values, y) <= Last(values)
  {
    ReadingInRange(keys, values, x);
    ReadingInRange(keys, values, y);
    if First(keys) < x && y < Last(keys) {
      var i, s := OnHop(keys, values, x);
      var j, t := OnHop(keys, values, y);
      LerpBounds(values[i - 1], values[i], s);
      LerpBounds(values[j - 1], values[j], t);
      if i == j {
        DivMonotone(x - keys[i - 1], y - keys[i - 1], keys[i] - keys[i - 1]);
        LerpMonotone(values[i - 1], values[i], s, t);
      } else {
        assert i < j;
        assert values[i] <= values[j - 1];
      }
    }
  }

  lemma ReadingInRange(keys: seq<real>, values: seq<real>, x: real)
    requires |keys| == |values| && keys != [] && NeverFalls(keys) && NeverFalls(values)
    ensures First(values) <= ValueAt(keys, values, x) <= Last(values)
  {
    if First(keys) < x < Last(keys) {
      var i, t := OnHop(keys, values, x);
      LerpBounds(values[i - 1], values[i], t);
    }
  }

  lemma WholeHop(a: real, b: real, v: real, w: real)
    requires a < b
    ensures Lerp(v, w, Fraction(a, b, b)) == w
  {
    assert (b - a) / (b - a) == 1.0;
  }

  /** The reading passes through every stored pair. */
  lemma ReadingAtStored(keys: seq<real>, values: seq<real>, i: nat)
    requires |keys| == |values| && i < |keys| && Rises(keys)
    ensures ValueAt(keys, values, keys[i]) == values[i]
  {
    RisesNeverFalls(keys);
    if 0 < i < |keys| - 1 {
      FirstIs(keys, keys[i], i);
      WholeHop(keys[i - 1], keys[i], values[i - 1], values[i]);
    }
  }

  // ------------------------------------------------------------------------------------------
  // The two lookups of a trace
  // ------------------------------------------------------------------------------------------

  /** A trace that advances at every point, in distance and in time. */
  ghost predicate Advancing(points: seq<TracePoint>) {
    points != [] && Rises(Dists(points)) && Rises(Times(points))
  }

  /** **`distanceAtElapsed` and the elapsed time of `interpolateTracePointAt` undo each other** over the
      trace's range, and clamp to its ends outside it. */
  lemma LookupsAreInverse(points: seq<TracePoint>, x: real)
    requires Advancing(points)
    ensures DistanceAt(points, PointAt(points, x).elapsedMs) == Clamp(x, points[0].distM, points[|points| - 1].distM)
    ensures PointAt(points, DistanceAt(points, x)).elapsedMs
            == Clamp(x, points[0].elapsedMs, points[|points| - 1].elapsedMs)
  {
    DistanceIsBack(points, x);
    TimeIsBack(points, x);
  }

  lemma DistanceIsBack(points: seq<TracePoint>, x: real)
    requires Advancing(points)
    ensures DistanceAt(points, PointAt(points, x).elapsedMs) == Clamp(x, points[0].distM, points[|points| - 1].distM)
  {
    LookupsReadAxes(points, x);
    LookupsReadAxes(points, PointAt(points, x).elapsedMs);
    ThereAndBack(Dists(points), Times(points), x);
  }

  lemma TimeIsBack(points: seq<TracePoint>, x: real)
    requires Advancing(points)
    ensures PointAt(points, DistanceAt(points, x)).elapsedMs
            == Clamp(x, points[0].elapsedMs, points[|points| - 1].elapsedMs)
  {
    LookupsReadAxes(points, x);
    LookupsReadAxes(points, DistanceAt(points, x));
    ThereAndBack(Times(points), Dists(points), x);
  }

  lemma AxesNeverFall(points: seq<TracePoint>)
    requires TraceAscends(points) && ElapsedAscends(points)
    ensures NeverFalls(Dists(points)) && NeverFalls(Times(points))
  {}

  /** Both lookups are monotone on any trace whose axes never go back, and stay inside the trace. */
  lemma LookupsAscend(points: seq<TracePoint>, x: real, y: real)
    requires points != [] && TraceAscends(points) && ElapsedAscends(points) && x <= y
    ensures points[0].elapsedMs <= PointAt(points, x).elapsedMs <= PointAt(points, y).elapsedMs
            <= points[|points| - 1].elapsedMs
    ensures points[0].distM <= DistanceAt(points, x) <= DistanceAt(points, y) <= points[|points| - 1].distM
  {
    AxesNeverFall(points);
    LookupsReadAxes(points, x);
    LookupsReadAxes(points, y);
    ReadingAscends(Dists(points), Times(points), x, y);
    ReadingAscends(Times(points), Dists(points), x, y);
  }

  /** The point read at a distance is at that distance, or at the end nearest to it. */
  lemma PointIsWhereAsked(points: seq<TracePoint>, distM: real)
    requires points != [] && TraceAscends(points)
    ensures PointAt(points, distM).distM == Clamp(distM, points[0].distM, points[|points| - 1].distM)
  {}

  /** A point as far between two in everything as in distance. */
  ghost predicate BetweenPoints(a: TracePoint, r: TracePoint, b: TracePoint) {
    var from, at, to := a.distM, r.distM, b.distM;
    && from < at <= to
    && Proportional(from, at, to, a.elapsedMs, r.elapsedMs, b.elapsedMs)
    && Proportional(from, at, to, a.lat, r.lat, b.lat) && Proportional(from, at, to, a.lon, r.lon, b.lon)
    && ChannelBetween(a.speedKmh, r.speedKmh, b.speedKmh, from, at, to)
    && ChannelBetween(a.rpm, r.rpm, b.rpm, from, at, to)
    && ChannelBetween(a.coolantC, r.coolantC, b.coolantC, from, at, to)
    && ChannelBetween(a.oilC, r.oilC, b.oilC, from, at, to)
    && ChannelBetween(a.gLat, r.gLat, b.gLat, from, at, to) && ChannelBetween(a.gLon, r.gLon, b.gLon, from, at, to)
  }

  lemma BlendIsBetween(a: TracePoint, r: TracePoint, b: TracePoint, t: real, distM: real)
    requires a.distM < distM <= b.distM && distM - a.distM == t * (b.distM - a.distM) && r == Blend(a, b, t, distM)
    ensures BetweenPoints(a, r, b)
  {
    var from, to := a.distM, b.distM;
    LerpIsProportional(from, distM, to, a.elapsedMs, b.elapsedMs, t);
    LerpIsProportional(from, distM, to, a.lat, b.lat, t);
    LerpIsProportional(from, distM, to, a.lon, b.lon, t);
    ChannelIsBetween(a.speedKmh, r.speedKmh, b.speedKmh, from, distM, to, t);
    ChannelIsBetween(a.rpm, r.rpm, b.rpm, from, distM, to, t);
    ChannelIsBetween(a.coolantC, r.coolantC, b.coolantC, from, distM, to, t);
    ChannelIsBetween(a.oilC, r.oilC, b.oilC, from, distM, to, t);
    ChannelIsBetween(a.gLat, r.gLat, b.gLat, from, distM, to, t);
    ChannelIsBetween(a.gLon, r.gLon, b.gLon, from, distM, to, t);
  }

  /** **Read inside a trace, a point lies between the two around it** in everything as in distance, on the first hop
      that gets there; at or beyond an end it is the stored point of that end. */
  lemma PointIsBetween(points: seq<TracePoint>, distM: real) returns (i: nat)
    requires points != []
    ensures points[0].distM < distM < points[|points| - 1].distM ==>
              && 0 < i < |points| && (forall j :: 0 < j < i ==> points[j].distM < distM)
              && PointAt(points, distM).distM == distM
              && BetweenPoints(points[i - 1], PointAt(points, distM), points[i])
    ensures distM <= points[0].distM ==> PointAt(points, distM) == points[0]
    ensures points[0].distM < distM && points[|points| - 1].distM <= distM ==>
              PointAt(points, distM) == points[|points| - 1]
  {
    i := 0;
    if points[0].distM < distM < points[|points| - 1].distM {
      var t, r := 0.0, points[0];
      i, t, r := HopPoint(points, distM);
      BlendIsBetween(points[i - 1], r, points[i], t, distM);
    }
  }

  lemma LerpBack(a: real, b: real, x: real, t: real)
    requires x == Lerp(a, b, t)
    ensures x - a == t * (b - a)
  {}

  /** Strictly inside the range the bracket is the first hop that gets to the target, and as far along it. */
  lemma InsideBracket(keys: seq<real>, x: real) returns (r: Bracket)
    requires keys != [] && First(keys) < x < Last(keys)
    ensures r == BracketOf(keys, x) && r.a + 1 == r.b && (forall j :: 0 <= j < r.b ==> keys[j] < x) && x <= keys[r.b]
    ensures x - keys[r.a] == r.t * (keys[r.b] - keys[r.a])
  {
    r := BracketOf(keys, x);
    FractionOnHop(keys[r.a], keys[r.b], x);
    LerpBack(keys[r.a], keys[r.b], x, r.t);
  }

  lemma HopPoint(points: seq<TracePoint>, distM: real) returns (i: nat, t: real, r: TracePoint)
    requires points != [] && points[0].distM < distM < points[|points| - 1].distM
    ensures 0 < i < |points| && distM <= points[i].distM && forall j :: 0 <= j < i ==> points[j].distM < distM
    ensures r == PointAt(points, distM) == Blend(points[i - 1], points[i], t, distM)
    ensures distM - points[i - 1].distM == t * (points[i].distM - points[i - 1].distM)
  {
    var bracket := InsideBracket(Dists(points), distM);
    i, t, r := bracket.b, bracket.t, PointAt(points, distM);
    forall j | 0 <= j < i ensures points[j].distM < distM {
      assert Dists(points)[j] < distM;
    }
  }

  /** On the first hop that gets to an elapsed time, as far along it in distance as in time; at or beyond an end of
      the trace, the distance of that end. */
  ghost predicate ReachedAt(points: seq<TracePoint>, elapsedMs: real, distM: real)
    requires points != []
  {
    if elapsedMs <= points[0].elapsedMs then distM == points[0].distM
    else if points[|points| - 1].elapsedMs <= elapsedMs then distM == points[|points| - 1].distM
    else exists i :: 0 < i < |points| && ReachedOn(points, elapsedMs, distM, i)
  }

  ghost predicate ReachedOn(points: seq<TracePoint>, elapsedMs: real, distM: real, i: nat)
    requires 0 < i < |points|
  {
    var a, b := points[i - 1], points[i];
    && (forall j :: 0 <= j < i ==> points[j].elapsedMs < elapsedMs) && elapsedMs <= b.elapsedMs
    && Proportional(a.elapsedMs, elapsedMs, b.elapsedMs, a.distM, distM, b.distM)
  }

  lemma HopReaches(points: seq<TracePoint>, elapsedMs: real, distM: real, i: nat, t: real)
    requires 0 < i < |points| && (forall j :: 0 <= j < i ==> points[j].elapsedMs < elapsedMs)
    requires elapsedMs <= points[i].elapsedMs && distM == Lerp(points[i - 1].distM, points[i].distM, t)
    requires elapsedMs == Lerp(points[i - 1].elapsedMs, points[i].elapsedMs, t)
    ensures ReachedOn(points, elapsedMs, distM, i)
  {
    var a, b := points[i - 1], points[i];
    LerpBack(a.elapsedMs, b.elapsedMs, elapsedMs, t);
    LerpIsProportional(a.elapsedMs, elapsedMs, b.elapsedMs, a.distM, b.distM, t);
  }

  /** **`distanceAtElapsed` is where the trace reaches that time.** */
  lemma DistanceIsReached(points: seq<TracePoint>, elapsedMs: real)
    requires points != []
    ensures ReachedAt(points, elapsedMs, DistanceAt(points, elapsedMs))
  {
    var keys, values := Times(points), Dists(points);
    LookupsReadAxes(points, elapsedMs);
    if First(keys) < elapsedMs < Last(keys) {
      var i, t := OnHop(keys, values, elapsedMs);
      forall j | 0 <= j < i ensures points[j].elapsedMs < elapsedMs {
        assert j == 0 || keys[j] < elapsedMs;
      }
      HopReaches(points, elapsedMs, DistanceAt(points, elapsedMs), i, t);
    }
  }

  lemma WholeBlend(a: TracePoint, b: TracePoint)
    requires a.distM < b.distM
    ensures var r := Blend(a, b, Fraction(a.distM, b.distM, b.distM), b.distM);
            && r.distM == b.distM && r.elapsedMs == b.elapsedMs && r.lat == b.lat && r.lon == b.lon
            && Carries(r.speedKmh, a.speedKmh, b.speedKmh) && Carries(r.rpm, a.rpm, b.rpm)
            && Carries(r.coolantC, a.coolantC, b.coolantC) && Carries(r.oilC, a.oilC, b.oilC)
            && Carries(r.gLat, a.gLat, b.gLat) && Carries(r.gLon, a.gLon, b.gLon)
  {
    var d := b.distM - a.distM;
    assert d / d == 1.0;
    LerpEnds(a.elapsedMs, b.elapsedMs);
    LerpEnds(a.lat, b.lat);
    LerpEnds(a.lon, b.lon);
    LerpChannelEnds(a.speedKmh, b.speedKmh);
    LerpChannelEnds(a.rpm, b.rpm);
    LerpChannelEnds(a.coolantC, b.coolantC);
    LerpChannelEnds(a.oilC, b.oilC);
    LerpChannelEnds(a.gLat, b.gLat);
    LerpChannelEnds(a.gLon, b.gLon);
  }

  /** **Read at a stored distance, the trace gives the stored point**: its place and time, and every
      channel the point before it has as well. */
  lemma StoredPointIsRead(points: seq<TracePoint>, i: nat)
    requires 0 < i < |points| && Rises(Dists(points))
    ensures var r, a, b := PointAt(points, points[i].distM), points[i - 1], points[i];
            && r.distM == b.distM && r.elapsedMs == b.elapsedMs && r.lat == b.lat && r.lon == b.lon
            && (r == b || (Carries(r.speedKmh, a.speedKmh, b.speedKmh) && Carries(r.rpm, a.rpm, b.rpm)
                           && Carries(r.coolantC, a.coolantC, b.coolantC) && Carries(r.oilC, a.oilC, b.oilC)
                           && Carries(r.gLat, a.gLat, b.gLat) && Carries(r.gLon, a.gLon, b.gLon)))
  {
    var keys := Dists(points);
    RisesNeverFalls(keys);
    assert keys[i - 1] < keys[i];
    if i < |points| - 1 {
      FirstIs(keys, keys[i], i);
      WholeBlend(points[i - 1], points[i]);
    }
  }
}
