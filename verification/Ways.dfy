/** The raceway ways of `track-map.builder.ts` as a graph: ways meet only at shared end nodes. */
module Ways {

  datatype Point = Point(lat: real, lon: real)

  datatype Way = Way(id: int, nodeIds: seq<int>, points: seq<Point>) {
    function Head(): int
      requires nodeIds != []
    {
      nodeIds[0]
    }

    function Last(): int
      requires nodeIds != []
    {
      nodeIds[|nodeIds| - 1]
    }
  }

  /** What the way filter of the builder leaves: at least two nodes, one point for each. */
  ghost predicate Usable(w: Way) {
    |w.nodeIds| >= 2 && |w.points| == |w.nodeIds|
  }

  /** A usable list of ways; OSM gives every way its own id. */
  ghost predicate Valid(ways: seq<Way>) {
    && (forall i :: 0 <= i < |ways| ==> Usable(ways[i]))
    && (forall i, j :: 0 <= i < j < |ways| ==> ways[i].id != ways[j].id)
  }

  lemma SameIdSameWay(ways: seq<Way>, a: Way, b: Way)
    requires Valid(ways) && a in ways && b in ways && a.id == b.id
    ensures a == b
  {}

  // ------------------------------------------------------------------------------------------
  // The endpoint index
  // ------------------------------------------------------------------------------------------

  /** How many ends of `w` lie at node `v`: a closed way has two at its node. */
  function Ends(w: Way, v: int): nat
    requires w.nodeIds != []
  {
    (if w.Head() == v then 1 else 0) + (if w.Last() == v then 1 else 0)
  }

  function Repeat(id: int, n: nat): seq<int> {
    seq(n, _ => id)
  }

  /** The bucket of node `v`: the way ids with an end there, in input order. */
  function Bucket(ways: seq<Way>, v: int): seq<int>
    requires forall i :: 0 <= i < |ways| ==> ways[i].nodeIds != []
  {
    if ways == [] then [] else
      var n := |ways| - 1;
      Bucket(ways[..n], v) + Repeat(ways[n].id, Ends(ways[n], v))
  }

  lemma {:induction false} InBucket(ways: seq<Way>, v: int, id: int)
    requires Valid(ways)
    ensures id in Bucket(ways, v) <==> exists w :: w in ways && w.id == id && Ends(w, v) > 0
  {
    if ways != [] {
      var n := |ways| - 1;
      assert ways == ways[..n] + [ways[n]];
      InBucket(ways[..n], v, id);
      if Ends(ways[n], v) > 0 && ways[n].id == id {
        assert Repeat(ways[n].id, Ends(ways[n], v))[0] == id;
        assert Bucket(ways, v)[|Bucket(ways[..n], v)|] == id;
      }
    }
  }

  /** A JavaScript `Map`: its entries and the order its keys were first set in. */
  datatype Index = Index(keys: seq<int>, buckets: map<int, seq<int>>)

  function At(index: Index, v: int): seq<int> {
    if v in index.buckets then index.buckets[v] else []
  }

  /** Every key is listed and has a bucket that is not empty. */
  ghost predicate Keyed(index: Index) {
    && (forall v :: v in index.keys <==> v in index.buckets)
    && (forall v :: v in index.buckets ==> index.buckets[v] != [])
  }

  ghost predicate IndexOf(index: Index, ways: seq<Way>)
    requires Valid(ways)
  {
    Keyed(index) && forall v :: At(index, v) == Bucket(ways, v)
  }

  function AddEnd(index: Index, v: int, id: int): (r: Index)
    requires Keyed(index)
    ensures Keyed(r)
    ensures forall x :: At(r, x) == At(index, x) + (if x == v then [id] else [])
  {
    if v in index.buckets then
      Index(index.keys, index.buckets[v := index.buckets[v] + [id]])
    else
      Index(index.keys + [v], index.buckets[v := [id]])
  }

  lemma AddBothEnds(ways: seq<Way>, i: nat, index: Index)
    requires Valid(ways) && i < |ways| && IndexOf(index, ways[..i])
    ensures IndexOf(AddEnd(AddEnd(index, ways[i].Head(), ways[i].id), ways[i].Last(), ways[i].id), ways[..i + 1])
  {
    var w := ways[i];
    var r := AddEnd(AddEnd(index, w.Head(), w.id), w.Last(), w.id);
    forall v ensures At(r, v) == Bucket(ways[..i + 1], v) {
      BothEndsAt(index, w, v);
      BucketNext(ways, i, v);
    }
  }

  lemma {:induction false} BucketNext(ways: seq<Way>, i: nat, v: int)
    requires Valid(ways) && i < |ways|
    ensures Bucket(ways[..i + 1], v) == Bucket(ways[..i], v) + Repeat(ways[i].id, Ends(ways[i], v))
  {
    assert ways[..i + 1][..i] == ways[..i];
  }

  lemma BothEndsAt(index: Index, w: Way, v: int)
    requires Keyed(index) && w.nodeIds != []
    ensures At(AddEnd(AddEnd(index, w.Head(), w.id), w.Last(), w.id), v) == At(index, v) + Repeat(w.id, Ends(w, v))
  {
    RepeatUpToTwo(w.id);
  }

  lemma RepeatUpToTwo(id: int)
    ensures Repeat(id, 0) == [] && Repeat(id, 1) == [id] && Repeat(id, 2) == [id] + [id]
  {}

  method EndpointIndex(ways: seq<Way>) returns (index: Index)
    requires Valid(ways)
    ensures IndexOf(index, ways)
  {
    index := Index([], map[]);
    for i := 0 to |ways|
      invariant IndexOf(index, ways[..i])
    {
      AddBothEnds(ways, i, index);
      index := AddEnd(index, ways[i].Head(), ways[i].id);
      index := AddEnd(index, ways[i].Last(), ways[i].id);
    }
    assert ways[..|ways|] == ways;
  }

  // ------------------------------------------------------------------------------------------
  // Connection
  // ------------------------------------------------------------------------------------------

  ghost predicate Touch(a: Way, b: Way) {
    a.nodeIds != [] && b.nodeIds != [] && exists v :: Ends(a, v) > 0 && Ends(b, v) > 0
  }

  /** A chain of ways of the list, each sharing an end node with the next. */
  ghost predicate Chain(ways: seq<Way>, p: seq<Way>) {
    && p != []
    && (forall i :: 0 <= i < |p| ==> p[i] in ways)
    && (forall i :: 0 <= i < |p| - 1 ==> Touch(p[i], p[i + 1]))
  }

  ghost predicate ChainFrom(ways: seq<Way>, p: seq<Way>, a: Way, b: Way) {
    Chain(ways, p) && p[0] == a && p[|p| - 1] == b
  }

  ghost predicate Connected(ways: seq<Way>, a: Way, b: Way) {
    exists p :: ChainFrom(ways, p, a, b)
  }

  lemma ConnectedSelf(ways: seq<Way>, a: Way)
    requires a in ways
    ensures Connected(ways, a, a)
  {
    assert ChainFrom(ways, [a], a, a);
  }

  lemma ConnectedTouching(ways: seq<Way>, a: Way, b: Way)
    requires a in ways && b in ways && Touch(a, b)
    ensures Connected(ways, a, b)
  {
    assert ChainFrom(ways, [a, b], a, b);
  }

  lemma ConnectedTrans(ways: seq<Way>, a: Way, b: Way, c: Way)
    requires Connected(ways, a, b) && Connected(ways, b, c)
    ensures Connected(ways, a, c)
  {
    var p :| ChainFrom(ways, p, a, b);
    var q :| ChainFrom(ways, q, b, c);
    var r := p + q[1..];
    forall i | 0 <= i < |r| - 1 ensures Touch(r[i], r[i + 1]) {
      if i >= |p| - 1 {
        assert r[i] == q[i - (|p| - 1)] && r[i + 1] == q[i + 1 - (|p| - 1)];
      }
    }
    assert ChainFrom(ways, r, a, c);
  }

  lemma ConnectedSym(ways: seq<Way>, a: Way, b: Way)
    requires Connected(ways, a, b)
    ensures Connected(ways, b, a)
  {
    var p :| ChainFrom(ways, p, a, b);
    var r := seq(|p|, i requires 0 <= i < |p| => p[|p| - 1 - i]);
    forall i | 0 <= i < |r| - 1 ensures Touch(r[i], r[i + 1]) {
      assert Touch(p[|p| - 2 - i], p[|p| - 2 - i + 1]);
    }
    assert ChainFrom(ways, r, b, a);
  }

  /** The ways connected to `a`, in input order. */
  ghost function Component(ways: seq<Way>, a: Way): seq<Way> {
    Connecting(ways, ways, a)
  }

  ghost function Connecting(part: seq<Way>, ways: seq<Way>, a: Way): (r: seq<Way>)
    ensures forall w :: w in r <==> w in part && Connected(ways, a, w)
  {
    if part == [] then [] else
      var n := |part| - 1;
      assert part == part[..n] + [part[n]];
      Connecting(part[..n], ways, a) + (if Connected(ways, a, part[n]) then [part[n]] else [])
  }

  lemma {:induction false} ConnectingIsValid(part: seq<Way>, ways: seq<Way>, a: Way)
    requires Valid(part)
    ensures Valid(Connecting(part, ways, a))
  {
    if part != [] {
      var n := |part| - 1;
      ConnectingIsValid(part[..n], ways, a);
      forall w | w in Connecting(part[..n], ways, a) ensures w.id != part[n].id {}
    }
  }

  /** A component is connected within itself: a chain never leaves it. */
  lemma ComponentConnected(ways: seq<Way>, a: Way, b: Way)
    requires a in ways && Connected(ways, a, b)
    ensures Connected(Component(ways, a), a, b)
  {
    var p :| ChainFrom(ways, p, a, b);
    forall i | 0 <= i < |p| ensures p[i] in Component(ways, a) {
      assert ChainFrom(ways, p[..i + 1], a, p[i]);
    }
    assert ChainFrom(Component(ways, a), p, a, b);
  }
}
