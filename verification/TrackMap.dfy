/** `buildTrackMap` of `track-map.builder.ts`: stitch the largest component and accept or reject it. */
module TrackMap {
  import opened Ways
  import opened LargestComponent
  import opened RingWalk
  import opened SampleMath

  const MAX_CLOSURE_GAP_M := 25.0
  const MIN_CIRCUIT_LENGTH_M := 500.0
  const MAX_CIRCUIT_LENGTH_M := 25000.0
  const MAX_GATE_DISTANCE_M := 50.0

  /** What the walk needs of a distance: a point is at distance 0 from itself, and order is irrelevant. */
  ghost predicate Distance(dist: (Point, Point) -> real) {
    && NonNegative(dist)
    && forall p: Point, q: Point :: dist(p, q) == dist(q, p) && dist(p, p) == 0.0
  }

  /** OSM geometry: every node has one position, wherever it occurs. */
  ghost predicate Placed(w: Way, at: int -> Point) {
    Usable(w) && forall k :: 0 <= k < |w.points| ==> w.points[k] == at(w.nodeIds[k])
  }

  // ------------------------------------------------------------------------------------------
  // Lengths
  // ------------------------------------------------------------------------------------------

  /** Joining two polylines at a shared point keeps the total length. */
  lemma {:induction false} JoinM(p: seq<Point>, q: seq<Point>, dist: (Point, Point) -> real)
    requires p != [] && q != [] && p[|p| - 1] == q[0]
    ensures PolylineM(p + q[1..], dist) == PolylineM(p, dist) + PolylineM(q, dist)
  {
    if |q| == 1 {
      assert p + q[1..] == p;
    } else {
      var q' := q[..|q| - 1];
      JoinM(p, q', dist);
      var r := p + q[1..];
      assert r[..|r| - 1] == p + q'[1..];
      assert r[|r| - 2] == q[|q| - 2];
    }
  }

  lemma {:induction false} ReverseM(p: seq<Point>, dist: (Point, Point) -> real)
    requires Distance(dist)
    ensures PolylineM(Reverse(p), dist) == PolylineM(p, dist)
  {
    if |p| >= 2 {
      var n := |p| - 1;
      var head, r := [p[n], p[n - 1]], Reverse(p[..n]);
      ReverseM(p[..n], dist);
      assert Reverse(p) == head + r[1..];
      JoinM(head, r, dist);
      assert head[..1] == [p[n]];
    } else {
      assert Reverse(p) == p;
    }
  }

  lemma PathM(s: Step, dist: (Point, Point) -> real)
    requires Distance(dist)
    ensures PolylineM(Path(s), dist) == PolylineM(s.way.points, dist)
  {
    ReverseM(s.way.points, dist);
  }

  lemma PathEnds(s: Step, at: int -> Point)
    requires Placed(s.way, at)
    ensures Path(s) != [] && Path(s)[0] == at(Entry(s)) && Path(s)[|Path(s)| - 1] == at(Exit(s))
  {}

  lemma {:induction false} StitchLast(steps: seq<Step>, path: seq<Point>)
    requires steps != [] && path == Path(steps[|steps| - 1]) && |path| >= 2
    ensures Stitch(steps) != [] && Stitch(steps)[|Stitch(steps)| - 1] == path[|path| - 1]
  {}

  lemma {:induction false} StitchFirst(steps: seq<Step>)
    requires steps != [] && Path(steps[0]) != []
    ensures Stitch(steps) != [] && Stitch(steps)[0] == Path(steps[0])[0]
  {
    if |steps| > 1 {
      StitchFirst(steps[..|steps| - 1]);
    }
  }

  lemma StitchBetween(steps: seq<Step>, first: seq<Point>, last: seq<Point>) returns (points: seq<Point>)
    requires steps != [] && first == Path(steps[0]) && first != []
    requires last == Path(steps[|steps| - 1]) && |last| >= 2
    ensures points == Stitch(steps) && points != [] && points[0] == first[0] && points[|points| - 1] == last[|last| - 1]
  {
    points := Stitch(steps);
    StitchFirst(steps);
    StitchLast(steps, last);
  }

  lemma TrailRuns(steps: seq<Step>, from: int, to: int)
    requires steps != [] && Trail(steps, from, to)
    ensures Entry(steps[0]) == from && Exit(steps[|steps| - 1]) == to
  {}

  lemma PathIs(s: Step, at: int -> Point) returns (path: seq<Point>)
    requires Placed(s.way, at)
    ensures path == Path(s) && |path| >= 2 && path[0] == at(Entry(s)) && path[|path| - 1] == at(Exit(s))
  {
    PathEnds(s, at);
    path := Path(s);
  }

  /** A trail's polyline runs from its first node to its last. */
  lemma StitchEnds(steps: seq<Step>, from: int, to: int, at: int -> Point) returns (points: seq<Point>)
    requires steps != [] && Trail(steps, from, to)
    requires forall i :: 0 <= i < |steps| ==> Placed(steps[i].way, at)
    ensures points == Stitch(steps) && points != [] && points[0] == at(from) && points[|points| - 1] == at(to)
  {
    TrailRuns(steps, from, to);
    var first := PathIs(steps[0], at);
    var last := PathIs(steps[|steps| - 1], at);
    points := StitchBetween(steps, first, last);
  }

  /** A trail's polyline is exactly as long as its ways. */
  lemma {:induction false} StitchM(steps: seq<Step>, from: int, to: int, at: int -> Point, dist: (Point, Point) -> real)
    requires steps != [] && Trail(steps, from, to) && Distance(dist)
    requires forall i :: 0 <= i < |steps| ==> Placed(steps[i].way, at)
    ensures PolylineM(Stitch(steps), dist) == TotalM(WaysOf(steps), dist)
  {
    var n := |steps| - 1;
    PathM(steps[n], dist);
    LastWayM(steps, dist);
    if n > 0 {
      var front := steps[..n];
      TrailInit(steps, from, to);
      StitchM(front, from, Entry(steps[n]), at, dist);
      var points := StitchEnds(front, from, Entry(steps[n]), at);
      PathEnds(steps[n], at);
      JoinM(points, Path(steps[n]), dist);
    }
  }

  lemma LastWayM(steps: seq<Step>, dist: (Point, Point) -> real)
    requires steps != []
    ensures var n := |steps| - 1;
            TotalM(WaysOf(steps), dist) == TotalM(WaysOf(steps[..n]), dist) + PolylineM(steps[n].way.points, dist)
  {
    assert WaysOf(steps)[..|steps| - 1] == WaysOf(steps[..|steps| - 1]);
  }

  lemma TrailInit(steps: seq<Step>, from: int, to: int)
    requires |steps| > 1 && Trail(steps, from, to)
    ensures Trail(steps[..|steps| - 1], from, Entry(steps[|steps| - 1]))
  {
    var n := |steps| - 1;
    var init := steps[..n];
    assert Follows(steps, n - 1);
    forall i | 0 <= i < |init| - 1 ensures Follows(init, i) {
      assert Follows(steps, i);
    }
  }

  /** Each join is one point shared by two ways, counted once. */
  lemma {:induction false} StitchCount(steps: seq<Step>)
    requires steps != [] && forall i :: 0 <= i < |steps| ==> steps[i].way.points != []
    ensures |Stitch(steps)| == Count(WaysOf(steps)) - (|steps| - 1)
  {
    var n := |steps| - 1;
    assert WaysOf(steps)[..n] == WaysOf(steps[..n]);
    if n > 0 {
      StitchCount(steps[..n]);
    }
  }

  function Count(ways: seq<Way>): nat {
    if ways == [] then 0 else Count(ways[..|ways| - 1]) + |ways[|ways| - 1].points|
  }

  // ------------------------------------------------------------------------------------------
  // Sums over ways do not depend on their order
  // ------------------------------------------------------------------------------------------

  function Without(ways: seq<Way>, i: nat): (r: seq<Way>)
    requires i < |ways|
    ensures |r| == |ways| - 1
    ensures forall j :: 0 <= j < |r| ==> r[j] == ways[if j < i then j else j + 1]
  {
    ways[..i] + ways[i + 1..]
  }

  lemma {:induction false} RemoveOne(ways: seq<Way>, i: nat, dist: (Point, Point) -> real)
    requires i < |ways|
    ensures TotalM(ways, dist) == TotalM(Without(ways, i), dist) + PolylineM(ways[i].points, dist)
    ensures Count(ways) == Count(Without(ways, i)) + |ways[i].points|
  {
    var n := |ways| - 1;
    if i == n {
      assert Without(ways, i) == ways[..n];
    } else {
      RemoveOne(ways[..n], i, dist);
      assert Without(ways, i)[..n - 1] == Without(ways[..n], i);
    }
  }

  ghost predicate Distinct(ways: seq<Way>) {
    forall i, j :: 0 <= i < j < |ways| ==> ways[i] != ways[j]
  }

  lemma WithoutHas(ways: seq<Way>, i: nat, w: Way)
    requires i < |ways| && Distinct(ways)
    ensures w in Without(ways, i) <==> w in ways && w != ways[i]
  {
    var r := Without(ways, i);
    if w in r {
      var j :| 0 <= j < |r| && r[j] == w;
      assert w == ways[if j < i then j else j + 1];
    }
    if w in ways && w != ways[i] {
      var j :| 0 <= j < |ways| && ways[j] == w;
      assert r[if j < i then j else j - 1] == w;
    }
  }

  /** Takes the last way of `a` out of both lists. */
  lemma DropShared(a: seq<Way>, b: seq<Way>) returns (i: nat)
    requires a != [] && Distinct(a) && Distinct(b) && forall w :: w in a <==> w in b
    ensures i < |b| && b[i] == a[|a| - 1] && Distinct(Without(b, i))
    ensures forall w :: w in a[..|a| - 1] <==> w in Without(b, i)
  {
    var n := |a| - 1;
    assert a[n] in b;
    i :| 0 <= i < |b| && b[i] == a[n];
    assert a[..n] == Without(a, n);
    forall w ensures w in a[..n] <==> w in Without(b, i) {
      WithoutHas(a, n, w);
      WithoutHas(b, i, w);
    }
  }

  lemma HasMember(b: seq<Way>, a: seq<Way>)
    requires b != [] && forall w :: w in b ==> w in a
    ensures a != []
  {
    assert b[0] in a;
  }

  lemma {:induction false} SameWaysSameSums(a: seq<Way>, b: seq<Way>, dist: (Point, Point) -> real)
    requires Distinct(a) && Distinct(b) && forall w :: w in a <==> w in b
    ensures TotalM(a, dist) == TotalM(b, dist) && Count(a) == Count(b) && |a| == |b|
  {
    if a != [] {
      var i := DropShared(a, b);
      RemoveOne(b, i, dist);
      SameWaysSameSums(a[..|a| - 1], Without(b, i), dist);
    } else if b != [] {
      HasMember(b, a);
    }
  }

  lemma RingOrder(ways: seq<Way>)
    requires Valid(ways) && Ring(ways)
    ensures var order := WaysOf(Walk(ways).steps);
            Distinct(order) && Distinct(ways) && forall w :: w in order <==> w in ways
  {
    RingIsWalkedWhole(ways);
    FreshOrder(ways, Walk(ways));
  }

  /** A walk that uses every way once is an order of the ways. */
  lemma FreshOrder(ways: seq<Way>, w: Walked)
    requires Valid(ways) && Fresh(ways, {}, w) && w.used == Ids(ways)
    ensures Distinct(WaysOf(w.steps)) && Distinct(ways) && forall x :: x in WaysOf(w.steps) <==> x in ways
  {
    var order := WaysOf(w.steps);
    forall x | x in ways ensures x in order {
      assert x.id in w.used;
      var i :| 0 <= i < |w.steps| && w.steps[i].way.id == x.id;
      SameIdSameWay(ways, x, w.steps[i].way);
      assert order[i] == x;
    }
  }

  /** **Stitching a ring loses nothing**: the polyline closes on its first point, is exactly as long as
      the ways together, and has every point of every way with each join counted once. */
  lemma RingStitch(ways: seq<Way>, at: int -> Point, dist: (Point, Point) -> real) returns (points: seq<Point>)
    requires Valid(ways) && Ring(ways) && Distance(dist)
    requires forall w :: w in ways ==> Placed(w, at)
    ensures points == Stitch(Walk(ways).steps) && |points| == Count(ways) - (|ways| - 1) >= 2
    ensures points[0] == points[|points| - 1] && PolylineM(points, dist) == TotalM(ways, dist)
  {
    RingIsClosedTrail(ways, at);
    points := ClosedTrailStitch(Walk(ways).steps, ways, ways[0].Head(), at, dist);
  }

  /** A closed trail over placed ways that takes each way of the list once. */
  ghost predicate ClosedTrail(steps: seq<Step>, ways: seq<Way>, start: int, at: int -> Point) {
    && steps != [] && Trail(steps, start, start)
    && (forall i :: 0 <= i < |steps| ==> Placed(steps[i].way, at))
    && Distinct(WaysOf(steps)) && Distinct(ways) && forall w :: w in WaysOf(steps) <==> w in ways
  }

  lemma RingIsClosedTrail(ways: seq<Way>, at: int -> Point)
    requires Valid(ways) && Ring(ways) && forall w :: w in ways ==> Placed(w, at)
    ensures ClosedTrail(Walk(ways).steps, ways, ways[0].Head(), at)
  {
    RingIsWalkedWhole(ways);
    RingOrder(ways);
    var steps := Walk(ways).steps;
    forall i | 0 <= i < |steps| ensures Placed(steps[i].way, at) {
      assert WaysOf(steps)[i] in ways;
    }
  }

  lemma ClosedTrailStitch(steps: seq<Step>, ways: seq<Way>, start: int, at: int -> Point, dist: (Point, Point) -> real)
    returns (points: seq<Point>)
    requires ClosedTrail(steps, ways, start, at) && Distance(dist)
    ensures points == Stitch(steps) && |points| == Count(ways) - (|ways| - 1) >= 2
    ensures points[0] == points[|points| - 1] && PolylineM(points, dist) == TotalM(ways, dist)
  {
    points := StitchEnds(steps, start, start, at);
    StitchM(steps, start, start, at, dist);
    StitchCount(steps);
    SameWaysSameSums(WaysOf(steps), ways, dist);
    StitchHasTwo(steps);
  }

  lemma {:induction false} StitchHasTwo(steps: seq<Step>)
    requires steps != [] && |steps[0].way.points| >= 2
    ensures |Stitch(steps)| >= 2
  {
    if |steps| > 1 {
      StitchHasTwo(steps[..|steps| - 1]);
    }
  }

  // ------------------------------------------------------------------------------------------
  // Accepting or rejecting
  // ------------------------------------------------------------------------------------------

  datatype Outcome =
    | NoRacewayWays
    | CouldNotStitchARing
    | RingNotClosed(gapM: int)
    | ImplausibleLength(lengthM: int)
    | GateNotOnRing(distanceM: int)
    | Built(points: seq<Point>, ways: seq<Way>, centrelineLengthM: real)

  /** The gate midpoint's distance to the nearest of the first segments. */
  function NearestM(points: seq<Point>, toSegment: (Point, Point) -> real): real
    requires |points| >= 2
  {
    var n := |points| - 1;
    var d := toSegment(points[n - 1], points[n]);
    if n == 1 then d else
      var m := NearestM(points[..n], toSegment);
      if d < m then d else m
  }

  method MinDistanceToPolyline(points: seq<Point>, toSegment: (Point, Point) -> real) returns (min: real)
    requires |points| >= 2
    ensures min == NearestM(points, toSegment)
  {
    min := toSegment(points[0], points[1]);
    for i := 2 to |points|
      invariant min == NearestM(points[..i], toSegment)
    {
      assert points[..i + 1][..i] == points[..i];
      var d := toSegment(points[i - 1], points[i]);
      if d < min { min := d; }
    }
    assert points[..|points|] == points;
  }

  function SegmentM(points: seq<Point>, i: nat, toSegment: (Point, Point) -> real): real
    requires 1 <= i < |points|
  {
    toSegment(points[i - 1], points[i])
  }

  /** The nearest distance is attained and none is smaller. */
  lemma {:induction false} NearestIsLeast(points: seq<Point>, toSegment: (Point, Point) -> real) returns (at: nat)
    requires |points| >= 2
    ensures 1 <= at < |points| && NearestM(points, toSegment) == SegmentM(points, at, toSegment)
    ensures forall i :: 1 <= i < |points| ==> NearestM(points, toSegment) <= SegmentM(points, i, toSegment)
  {
    var n := |points| - 1;
    at := n;
    if n > 1 {
      var rest := points[..n];
      var j := NearestIsLeast(rest, toSegment);
      if NearestM(points, toSegment) != SegmentM(points, n, toSegment) {
        at := j;
      }
      forall i | 1 <= i < n ensures SegmentM(points, i, toSegment) == SegmentM(rest, i, toSegment) {}
    }
  }

  /** A ring of `lengthM` metres passes the plausibility and gate checks. */
  ghost predicate Plausible(points: seq<Point>, lengthM: real, toSegment: (Point, Point) -> real)
    requires |points| >= 2
  {
    && MIN_CIRCUIT_LENGTH_M <= lengthM <= MAX_CIRCUIT_LENGTH_M
    && NearestM(points, toSegment) <= MAX_GATE_DISTANCE_M
  }

  /** What the builder answers about a stitched polyline, checks in the builder's order. */
  function Judge(points: seq<Point>, order: seq<Way>, dist: (Point, Point) -> real,
                 toSegment: (Point, Point) -> real): Outcome {
    if |points| < 3 then CouldNotStitchARing
    else if dist(points[0], points[|points| - 1]) > MAX_CLOSURE_GAP_M then
      RingNotClosed(Round(dist(points[0], points[|points| - 1])))
    else if PolylineM(points, dist) < MIN_CIRCUIT_LENGTH_M || PolylineM(points, dist) > MAX_CIRCUIT_LENGTH_M then
      ImplausibleLength(Round(PolylineM(points, dist)))
    else if NearestM(points, toSegment) > MAX_GATE_DISTANCE_M then
      GateNotOnRing(Round(NearestM(points, toSegment)))
    else Built(points, order, PolylineM(points, dist))
  }

  /** The first and the last point are at most 25 m apart. */
  ghost predicate Closes(points: seq<Point>, dist: (Point, Point) -> real)
    requires points != []
  {
    dist(points[0], points[|points| - 1]) <= 25.0
  }

  /** Between half a kilometre and twenty-five. */
  ghost predicate LongAsACircuit(lengthM: real) {
    500.0 <= lengthM <= 25000.0
  }

  /** Some segment passes within 50 m of the gate. */
  ghost predicate PassesGate(points: seq<Point>, toSegment: (Point, Point) -> real) {
    exists i :: 1 <= i < |points| && SegmentM(points, i, toSegment) <= 50.0
  }

  ghost predicate NearestSegment(points: seq<Point>, i: nat, toSegment: (Point, Point) -> real) {
    && 1 <= i < |points|
    && forall k :: 1 <= k < |points| ==> SegmentM(points, i, toSegment) <= SegmentM(points, k, toSegment)
  }

  /** What a stitched polyline deserves: the first of the four conditions it fails, and the map of it if it fails
      none. */
  ghost predicate FirstFailure(o: Outcome, points: seq<Point>, order: seq<Way>, dist: (Point, Point) -> real,
                               toSegment: (Point, Point) -> real)
    requires points != []
  {
    var lengthM := PolylineM(points, dist);
    match o
    case NoRacewayWays => false
    case CouldNotStitchARing => |points| < 3
    case RingNotClosed(gapM) =>
      && |points| >= 3 && !Closes(points, dist)
      && IsNearest(gapM, dist(points[0], points[|points| - 1]))
    case ImplausibleLength(m) =>
      && |points| >= 3 && Closes(points, dist) && !LongAsACircuit(lengthM) && IsNearest(m, lengthM)
    case GateNotOnRing(m) =>
      && |points| >= 3 && Closes(points, dist) && LongAsACircuit(lengthM) && !PassesGate(points, toSegment)
      && (exists i :: NearestSegment(points, i, toSegment) && IsNearest(m, SegmentM(points, i, toSegment)))
    case Built(built, ways, centrelineLengthM) =>
      && |points| >= 3 && Closes(points, dist) && LongAsACircuit(lengthM) && PassesGate(points, toSegment)
      && built == points && ways == order && centrelineLengthM == lengthM
  }

  /** Exactly one answer meets that. */
  lemma OneAnswer(a: Outcome, b: Outcome, points: seq<Point>, order: seq<Way>, dist: (Point, Point) -> real,
                  toSegment: (Point, Point) -> real)
    requires points != []
    requires FirstFailure(a, points, order, dist, toSegment) && FirstFailure(b, points, order, dist, toSegment)
    ensures a == b
  {
    if a.GateNotOnRing? {
      var i :| NearestSegment(points, i, toSegment) && IsNearest(a.distanceM, SegmentM(points, i, toSegment));
      var j :| NearestSegment(points, j, toSegment) && IsNearest(b.distanceM, SegmentM(points, j, toSegment));
      assert SegmentM(points, i, toSegment) == SegmentM(points, j, toSegment);
    }
  }

  lemma PassesGateExactly(points: seq<Point>, toSegment: (Point, Point) -> real) returns (i: nat)
    requires |points| >= 2
    ensures PassesGate(points, toSegment) <==> NearestM(points, toSegment) <= 50.0
    ensures NearestSegment(points, i, toSegment) && NearestM(points, toSegment) == SegmentM(points, i, toSegment)
  {
    i := NearestIsLeast(points, toSegment);
  }

  /** **A polyline is judged by the first condition it fails**, and built only if it fails none. */
  lemma JudgedByFirstFailure(points: seq<Point>, order: seq<Way>, dist: (Point, Point) -> real,
                             toSegment: (Point, Point) -> real)
    requires points != []
    ensures FirstFailure(Judge(points, order, dist, toSegment), points, order, dist, toSegment)
  {
    if |points| >= 3 {
      var i := PassesGateExactly(points, toSegment);
      RoundNear(dist(points[0], points[|points| - 1]));
      RoundNear(PolylineM(points, dist));
      RoundNear(SegmentM(points, i, toSegment));
    }
  }

  ghost function Answer(best: seq<Way>, dist: (Point, Point) -> real, toSegment: (Point, Point) -> real): Outcome
    requires Valid(best) && best != []
  {
    Judge(Stitch(Walk(best).steps), WaysOf(Walk(best).steps), dist, toSegment)
  }

  lemma AnswerIsFirstFailure(best: seq<Way>, dist: (Point, Point) -> real, toSegment: (Point, Point) -> real)
    requires Valid(best) && best != []
    ensures var steps := Walk(best).steps;
            Stitch(steps) != []
            && FirstFailure(Answer(best, dist, toSegment), Stitch(steps), WaysOf(steps), dist, toSegment)
  {
    WalkIsTrail(best);
    StitchHasTwo(Walk(best).steps);
    JudgedByFirstFailure(Stitch(Walk(best).steps), WaysOf(Walk(best).steps), dist, toSegment);
  }

  lemma LargestIsValid(ways: seq<Way>, dist: (Point, Point) -> real, best: seq<Way>, at: nat)
    requires Valid(ways) && Largest(ways, dist, best, at)
    ensures Valid(best) && best != []
  {
    ConnectingIsValid(ways, ways, ways[at]);
    ConnectedSelf(ways, ways[at]);
  }

  /** The checks on what was stitched. */
  method JudgePolyline(points: seq<Point>, order: seq<Way>, dist: (Point, Point) -> real,
                       toSegment: (Point, Point) -> real) returns (o: Outcome)
    ensures o == Judge(points, order, dist, toSegment)
  {
    if |points| < 3 {
      return CouldNotStitchARing;
    }
    var gap := dist(points[0], points[|points| - 1]);
    if gap > MAX_CLOSURE_GAP_M {
      return RingNotClosed(Round(gap));
    }
    var lengthM := PolylineLengthM(points, dist);
    if lengthM < MIN_CIRCUIT_LENGTH_M || lengthM > MAX_CIRCUIT_LENGTH_M {
      return ImplausibleLength(Round(lengthM));
    }
    var gateDistanceM := MinDistanceToPolyline(points, toSegment);
    if gateDistanceM > MAX_GATE_DISTANCE_M {
      return GateNotOnRing(Round(gateDistanceM));
    }
    return Built(points, order, lengthM);
  }

  method BuildTrackMap(ways: seq<Way>, dist: (Point, Point) -> real, toSegment: (Point, Point) -> real)
    returns (o: Outcome, ghost best: seq<Way>, ghost at: nat)
    requires Valid(ways) && NonNegative(dist)
    ensures ways == [] ==> o == NoRacewayWays
    ensures ways != [] ==>
              exists b, k :: Largest(ways, dist, b, k) && Valid(b) && b != [] && o == Answer(b, dist, toSegment)
    ensures ways != [] ==>
            Largest(ways, dist, best, at) && Valid(best) && best != [] && o == Answer(best, dist, toSegment)
    ensures ways != [] ==>
            var steps := Walk(best).steps;
            Stitch(steps) != [] && FirstFailure(o, Stitch(steps), WaysOf(steps), dist, toSegment)
  {
    best, at := [], 0;
    if ways == [] {
      return NoRacewayWays, best, at;
    }
    var component;
    component, at := LargestConnectedComponent(ways, dist);
    best := component;
    LargestIsValid(ways, dist, best, at);
    AnswerIsFirstFailure(best, dist, toSegment);
    var points, order := WalkWays(component);
    o := JudgePolyline(points, order, dist, toSegment);
  }

  /** **A venue whose largest component is a ring is never rejected for its stitching**: it is built, at
      the ring's full length, exactly when it has three points and passes the length and gate checks. */
  lemma {:induction false} RingVenue(ways: seq<Way>, dist: (Point, Point) -> real, toSegment: (Point, Point) -> real,
                                     at: int -> Point, best: seq<Way>, k: nat, o: Outcome)
    requires Valid(ways) && Distance(dist) && Largest(ways, dist, best, k)
    requires Valid(best) && best != [] && o == Answer(best, dist, toSegment)
    requires forall v :: Degree(best, v) == 0 || Degree(best, v) == 2
    requires forall w :: w in best ==> Placed(w, at)
    ensures !o.RingNotClosed?
    ensures o.CouldNotStitchARing? <==> Count(best) - (|best| - 1) < 3
    ensures var points := Stitch(Walk(best).steps);
            |points| >= 2 && (o.Built? <==> |points| >= 3 && Plausible(points, TotalM(best, dist), toSegment))
    ensures o.Built? ==> o.centrelineLengthM == TotalM(best, dist) && forall w :: w in o.ways <==> w in best
  {
    LargestIsRing(ways, dist, best, k);
    RingAnswer(best, dist, toSegment, at);
  }

  lemma {:induction false} RingAnswer(best: seq<Way>, dist: (Point, Point) -> real, toSegment: (Point, Point) -> real,
                                      at: int -> Point)
    requires Distance(dist) && Valid(best) && Ring(best) && forall w :: w in best ==> Placed(w, at)
    ensures var o, points := Answer(best, dist, toSegment), Stitch(Walk(best).steps);
            && !o.RingNotClosed?
            && |points| >= 2
            && (o.CouldNotStitchARing? <==> Count(best) - (|best| - 1) < 3)
            && (o.Built? <==> |points| >= 3 && Plausible(points, TotalM(best, dist), toSegment))
            && (o.Built? ==> o.centrelineLengthM == TotalM(best, dist) && forall w :: w in o.ways <==> w in best)
  {
    var points := RingStitch(best, at, dist);
    var order := OrderOf(best);
    JudgeClosed(points, order, TotalM(best, dist), dist, toSegment);
  }

  lemma OrderOf(best: seq<Way>) returns (order: seq<Way>)
    requires Valid(best) && Ring(best)
    ensures order == WaysOf(Walk(best).steps) && forall w :: w in order <==> w in best
  {
    RingOrder(best);
    order := WaysOf(Walk(best).steps);
  }

  lemma {:induction false} JudgeClosed(points: seq<Point>, order: seq<Way>, lengthM: real,
                                       dist: (Point, Point) -> real, toSegment: (Point, Point) -> real)
    requires |points| >= 2 && points[0] == points[|points| - 1] && Distance(dist) && PolylineM(points, dist) == lengthM
    ensures var o := Judge(points, order, dist, toSegment);
            && !o.RingNotClosed?
            && (o.CouldNotStitchARing? <==> |points| < 3)
            && (o.Built? <==> |points| >= 3 && Plausible(points, lengthM, toSegment))
            && (o.Built? ==> o.ways == order && o.centrelineLengthM == lengthM)
  {
    assert dist(points[0], points[0]) == 0.0;
  }

  lemma LargestIsRing(ways: seq<Way>, dist: (Point, Point) -> real, best: seq<Way>, k: nat)
    requires Valid(ways) && Largest(ways, dist, best, k) && Valid(best) && best != []
    requires forall v :: Degree(best, v) == 0 || Degree(best, v) == 2
    ensures Ring(best)
  {
    var a := ways[k];
    assert Connected(ways, a, best[0]);
    forall w | w in best ensures Connected(best, best[0], w) {
      assert Connected(ways, a, w);
      ComponentConnected(ways, a, best[0]);
      ComponentConnected(ways, a, w);
      ConnectedSym(best, a, best[0]);
      ConnectedTrans(best, best[0], a, w);
    }
  }

  // ------------------------------------------------------------------------------------------
  // Branches
  // ------------------------------------------------------------------------------------------

  function OneHop(id: int, from: int, to: int, here: Point): Way {
    Way(id, [from, to], [here, here])
  }

  /** Two ways from 10 to 20 and back, and two more from 20 to 30 and back. */
  function Branched(here: Point): seq<Way> {
    [OneHop(1, 10, 20, here), OneHop(2, 20, 10, here), OneHop(3, 20, 30, here), OneHop(4, 30, 20, here)]
  }

  /** The ids of the branched ways that end at a node. */
  function IdsAt(v: int): (ids: seq<int>)
    ensures |ids| % 2 == 0
  {
    if v == 10 then [1, 2] else if v == 20 then [1, 2, 3, 4] else if v == 30 then [3, 4] else []
  }

  lemma EndsOfHop(id: int, from: int, to: int, here: Point, v: int)
    requires from != to
    ensures Ends(OneHop(id, from, to, here), v) == if v == from || v == to then 1 else 0
  {}

  lemma BranchedIsValid(here: Point)
    ensures Valid(Branched(here))
  {}

  lemma {:induction false} BranchedBucket(ways: seq<Way>, here: Point, v: int)
    requires Valid(ways) && ways == Branched(here)
    ensures Bucket(ways, v) == IdsAt(v)
  {
    BucketOfFour(ways[0], ways[1], ways[2], ways[3]);
    EndsOfHop(1, 10, 20, here, v);
    EndsOfHop(2, 20, 10, here, v);
    EndsOfHop(3, 20, 30, here, v);
    EndsOfHop(4, 30, 20, here, v);
  }

  lemma {:induction false} EvenByIds(ways: seq<Way>)
    requires Valid(ways) && forall v :: Bucket(ways, v) == IdsAt(v)
    ensures EvenDegrees(ways)
  {}

  lemma {:induction false} BranchedBuckets(ways: seq<Way>, here: Point)
    requires Valid(ways) && ways == Branched(here)
    ensures forall v :: Bucket(ways, v) == IdsAt(v)
  {
    forall v ensures Bucket(ways, v) == IdsAt(v) {
      BranchedBucket(ways, here, v);
    }
  }

  lemma {:induction false} BranchedWalk(ways: seq<Way>, here: Point)
    requires Valid(ways) && ways == Branched(here) && Bucket(ways, 20) == [1, 2, 3, 4] && Bucket(ways, 10) == [1, 2]
    ensures Walk(ways).used == {1, 2} && Walk(ways).tail == 10
  {
    assert FirstFree([1, 2, 3, 4], {1}) == Some(2) by {
      assert [1, 2, 3, 4][1..] == [2, 3, 4];
    }
    assert FirstFree([1, 2], {1, 2}) == None;
    assert {1} + {2} == {1, 2};
    var next := NextStep(ways, {1}, 20).value;
    assert next.way.id == 2;
    assert next.way == ways[1];
    assert NextStep(ways, {1, 2}, 10) == None;
    assert WalkFrom(ways, {1, 2}, 10) == Walked([], {1, 2}, 10);
  }

  /** With a branch the walk can close early and leave ways behind, even degrees or not. */
  lemma BranchLeavesWaysBehind(here: Point) returns (ways: seq<Way>)
    ensures ways == Branched(here) && Valid(ways) && EvenDegrees(ways)
    ensures Walk(ways).tail == ways[0].Head() && !(Ids(ways) <= Walk(ways).used)
  {
    ways := Branched(here);
    BranchedIsValid(here);
    BranchedBuckets(ways, here);
    EvenByIds(ways);
    BranchedWalk(ways, here);
    assert ways[2].id in Ids(ways);
  }

  lemma BucketOfFour(a: Way, b: Way, c: Way, d: Way)
    requires a.nodeIds != [] && b.nodeIds != [] && c.nodeIds != [] && d.nodeIds != []
    ensures forall v :: Bucket([a, b, c, d], v)
              == Repeat(a.id, Ends(a, v)) + Repeat(b.id, Ends(b, v)) + Repeat(c.id, Ends(c, v))
                  + Repeat(d.id, Ends(d, v))
  {
    forall v ensures Bucket([a, b, c, d], v)
              == Repeat(a.id, Ends(a, v)) + Repeat(b.id, Ends(b, v)) + Repeat(c.id, Ends(c, v))
                  + Repeat(d.id, Ends(d, v)) {
      assert [a, b, c, d][..3] == [a, b, c] && [a, b, c][..2] == [a, b] && [a, b][..1] == [a] && [a][..0] == [];
      calc {
        Bucket([a, b, c, d], v);
        Bucket([a, b, c], v) + Repeat(d.id, Ends(d, v));
        Bucket([a, b], v) + Repeat(c.id, Ends(c, v)) + Repeat(d.id, Ends(d, v));
        Bucket([a], v) + Repeat(b.id, Ends(b, v)) + Repeat(c.id, Ends(c, v)) + Repeat(d.id, Ends(d, v));
        Bucket([], v) + Repeat(a.id, Ends(a, v)) + Repeat(b.id, Ends(b, v)) + Repeat(c.id, Ends(c, v))
            + Repeat(d.id, Ends(d, v));
      }
    }
  }
}
