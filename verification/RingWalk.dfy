/** The greedy ring walk of `track-map.builder.ts`: from the first way, keep following the first unused
    way that ends where the last one left off. */
module RingWalk {
  import opened SampleMath
  import opened Ways

  /** A way as walked: from its first node to its last, or the other way round. */
  datatype Step = Step(way: Way, forward: bool)

  function Entry(s: Step): int
    requires s.way.nodeIds != []
  {
    if s.forward then s.way.Head() else s.way.Last()
  }

  function Exit(s: Step): int
    requires s.way.nodeIds != []
  {
    if s.forward then s.way.Last() else s.way.Head()
  }

  function Reverse<T>(s: seq<T>): (r: seq<T>)
    ensures |r| == |s|
    ensures forall i :: 0 <= i < |s| ==> r[i] == s[|s| - 1 - i]
  {
    seq(|s|, i requires 0 <= i < |s| => s[|s| - 1 - i])
  }

  function Path(s: Step): (r: seq<Point>)
    ensures |r| == |s.way.points|
  {
    if s.forward then s.way.points else Reverse(s.way.points)
  }

  // ------------------------------------------------------------------------------------------
  // The walk as a function
  // ------------------------------------------------------------------------------------------

  /** The first id of a bucket that is still unused. */
  function FirstFree(bucket: seq<int>, used: set<int>): (r: Option<int>)
    ensures r.None? ==> forall id :: id in bucket ==> id in used
    ensures r.Some? ==> r.value in bucket && r.value !in used
  {
    if bucket == [] then None
    else if bucket[0] !in used then Some(bucket[0])
    else FirstFree(bucket[1..], used)
  }

  function WayWith(ways: seq<Way>, id: int): (w: Way)
    requires exists w :: w in ways && w.id == id
    ensures w in ways && w.id == id
  {
    if ways[0].id == id then ways[0] else WayWith(ways[1..], id)
  }

  ghost function Ids(ways: seq<Way>): set<int> {
    set w | w in ways :: w.id
  }

  /** The steps taken, the ids used up, and the node where the walk stopped. */
  datatype Walked = Walked(steps: seq<Step>, used: set<int>, tail: int)

  ghost function NextStep(ways: seq<Way>, used: set<int>, tail: int): (r: Option<Step>)
    requires Valid(ways)
    ensures r.None? ==> forall w :: w in ways && Ends(w, tail) > 0 ==> w.id in used
    ensures r.Some? ==> r.value.way in ways && r.value.way.id !in used && Entry(r.value) == tail
  {
    var free := FirstFree(Bucket(ways, tail), used);
    assert forall w :: w in ways && Ends(w, tail) > 0 ==> w.id in Bucket(ways, tail) by {
      forall w | w in ways && Ends(w, tail) > 0 ensures w.id in Bucket(ways, tail) {
        InBucket(ways, tail, w.id);
      }
    }
    if free.None? then None else
      assert exists w :: w in ways && w.id == free.value && Ends(w, tail) > 0 by {
        InBucket(ways, tail, free.value);
      }
      var w := WayWith(ways, free.value);
      assert Ends(w, tail) > 0 by {
        var x :| x in ways && x.id == free.value && Ends(x, tail) > 0;
        SameIdSameWay(ways, w, x);
      }
      Some(Step(w, w.Head() == tail))
  }

  ghost function WalkFrom(ways: seq<Way>, used: set<int>, tail: int): Walked
    requires Valid(ways)
    decreases Ids(ways) - used
  {
    var next := NextStep(ways, used, tail);
    if next.None? then Walked([], used, tail) else
      var s := next.value;
      assert s.way.id in Ids(ways) - used;
      var rest := WalkFrom(ways, used + {s.way.id}, Exit(s));
      Walked([s] + rest.steps, rest.used, rest.tail)
  }

  ghost function Walk(ways: seq<Way>): Walked
    requires Valid(ways) && ways != []
  {
    var rest := WalkFrom(ways, {ways[0].id}, ways[0].Last());
    Walked([Step(ways[0], true)] + rest.steps, rest.used, rest.tail)
  }

  /** The polyline of a walk: each later step without its first point, which is the join. */
  function Stitch(steps: seq<Step>): seq<Point> {
    if steps == [] then []
    else if |steps| == 1 then Path(steps[0])
    else
      var n := |steps| - 1;
      Stitch(steps[..n]) + (if Path(steps[n]) == [] then [] else Path(steps[n])[1..])
  }

  function WaysOf(steps: seq<Step>): (r: seq<Way>)
    ensures |r| == |steps| && forall i :: 0 <= i < |r| ==> r[i] == steps[i].way
  {
    seq(|steps|, i requires 0 <= i < |steps| => steps[i].way)
  }

  method WalkWays(ways: seq<Way>) returns (points: seq<Point>, ordered: seq<Way>)
    requires Valid(ways)
    ensures ways == [] ==> points == [] && ordered == []
    ensures ways != [] ==> points == Stitch(Walk(ways).steps) && ordered == WaysOf(Walk(ways).steps)
  {
    if ways == [] {
      return [], [];
    }
    var index := EndpointIndex(ways);
    var first := ways[0];
    var used := {first.id};
    points, ordered := first.points, [first];
    var tailNode := first.Last();
    ghost var done := [Step(first, true)];
    while true
      invariant points == Stitch(done) && ordered == WaysOf(done) && done != []
      invariant done + WalkFrom(ways, used, tailNode).steps == Walk(ways).steps
      decreases Ids(ways) - used
    {
      assert At(index, tailNode) == Bucket(ways, tailNode);
      ghost var step := NextStep(ways, used, tailNode);
      var free := FirstFree(At(index, tailNode), used);
      if free.None? {
        assert done + [] == done;
        return;
      }
      var next := WayWith(ways, free.value);
      var forward := next.Head() == tailNode;
      assert step == Some(Step(next, forward));
      NextIsNew(ways, used, tailNode);
      WalkOnce(ways, used, tailNode, done);
      StitchMore(done, step.value);
      used := used + {next.id};
      ordered := ordered + [next];
      var segment := if forward then next.points else Reverse(next.points);
      points := points + segment[1..];
      tailNode := if forward then next.Last() else next.Head();
      done := done + [step.value];
    }
  }

  lemma NextIsNew(ways: seq<Way>, used: set<int>, tail: int)
    requires Valid(ways) && NextStep(ways, used, tail).Some?
    ensures NextStep(ways, used, tail).value.way.id in Ids(ways) - used
  {}

  lemma {:induction false} WalkOnce(ways: seq<Way>, used: set<int>, tail: int, done: seq<Step>)
    requires Valid(ways) && NextStep(ways, used, tail).Some? && done != []
    ensures var s := NextStep(ways, used, tail).value;
            done + WalkFrom(ways, used, tail).steps == done + [s] + WalkFrom(ways, used + {s.way.id}, Exit(s)).steps
  {
    var s := NextStep(ways, used, tail).value;
    var rest := WalkFrom(ways, used + {s.way.id}, Exit(s)).steps;
    assert WalkFrom(ways, used, tail).steps == [s] + rest;
    Regroup(done, s, rest);
  }

  lemma Regroup(done: seq<Step>, s: Step, rest: seq<Step>)
    ensures done + ([s] + rest) == done + [s] + rest
  {}

  lemma {:induction false} StitchMore(done: seq<Step>, s: Step)
    requires done != [] && Path(s) != []
    ensures Stitch(done + [s]) == Stitch(done) + Path(s)[1..]
    ensures WaysOf(done + [s]) == WaysOf(done) + [s.way]
  {
    assert (done + [s])[..|done|] == done;
  }

  // ------------------------------------------------------------------------------------------
  // Every walk is a trail that stops only where nothing is left
  // ------------------------------------------------------------------------------------------

  predicate Follows(steps: seq<Step>, i: nat)
    requires i + 1 < |steps| && steps[i].way.nodeIds != [] && steps[i + 1].way.nodeIds != []
  {
    Exit(steps[i]) == Entry(steps[i + 1])
  }

  ghost predicate Trail(steps: seq<Step>, from: int, to: int) {
    && (forall i :: 0 <= i < |steps| ==> steps[i].way.nodeIds != [])
    && (if steps == [] then from == to else Entry(steps[0]) == from && Exit(steps[|steps| - 1]) == to)
    && (forall i {:trigger Follows(steps, i)} :: 0 <= i < |steps| - 1 ==> Follows(steps, i))
  }

  /** No way twice, none but `ways`, and `used` is the starting set plus what was walked. */
  ghost predicate Fresh(ways: seq<Way>, used: set<int>, w: Walked) {
    && (forall i :: 0 <= i < |w.steps| ==> w.steps[i].way in ways && w.steps[i].way.id !in used)
    && (forall i, j :: 0 <= i < j < |w.steps| ==> w.steps[i].way.id != w.steps[j].way.id)
    && w.used == used + StepIds(w.steps)
  }

  ghost function StepIds(steps: seq<Step>): (r: set<int>)
    ensures forall i :: 0 <= i < |steps| ==> steps[i].way.id in r
  {
    set i | 0 <= i < |steps| :: steps[i].way.id
  }

  ghost predicate Stuck(ways: seq<Way>, used: set<int>, v: int)
    requires Valid(ways)
  {
    forall w :: w in ways && Ends(w, v) > 0 ==> w.id in used
  }

  lemma TrailCons(s: Step, steps: seq<Step>, to: int)
    requires s.way.nodeIds != [] && Trail(steps, Exit(s), to)
    ensures Trail([s] + steps, Entry(s), to)
  {
    var all := [s] + steps;
    forall i | 0 <= i < |all| - 1 ensures Follows(all, i) {
      assert i > 0 ==> Follows(steps, i - 1);
    }
  }

  lemma FreshCons(ways: seq<Way>, used: set<int>, s: Step, rest: Walked)
    requires s.way in ways && s.way.id !in used && Fresh(ways, used + {s.way.id}, rest)
    ensures Fresh(ways, used, Walked([s] + rest.steps, rest.used, rest.tail))
  {
    var all := [s] + rest.steps;
    forall i, j | 0 <= i < j < |all| ensures all[i].way.id != all[j].way.id {
      assert all[j] == rest.steps[j - 1];
      assert i > 0 ==> all[i] == rest.steps[i - 1];
    }
    StepIdsCons(s, rest.steps);
  }

  lemma StepIdsCons(s: Step, rest: seq<Step>)
    ensures StepIds([s] + rest) == {s.way.id} + StepIds(rest)
  {
    var all := [s] + rest;
    assert all[0] == s;
    forall x ensures x in StepIds(all) <==> x in {s.way.id} + StepIds(rest) {
      if x in StepIds(rest) {
        var i :| 0 <= i < |rest| && rest[i].way.id == x;
        assert all[i + 1] == rest[i];
      }
    }
  }

  lemma {:induction false} WalkFromIsTrail(ways: seq<Way>, used: set<int>, tail: int)
    requires Valid(ways)
    ensures var w := WalkFrom(ways, used, tail);
            Trail(w.steps, tail, w.tail) && Fresh(ways, used, w) && Stuck(ways, w.used, w.tail)
    decreases Ids(ways) - used
  {
    var next := NextStep(ways, used, tail);
    if next.Some? {
      var s := next.value;
      assert s.way.id in Ids(ways) - used;
      WalkFromIsTrail(ways, used + {s.way.id}, Exit(s));
      var rest := WalkFrom(ways, used + {s.way.id}, Exit(s));
      TrailCons(s, rest.steps, rest.tail);
      FreshCons(ways, used, s, rest);
    }
  }

  /** On any ways, branched or not, the walk ends; it follows shared nodes, uses no way twice, and stops
      only at a node whose ways are all used. */
  lemma WalkIsTrail(ways: seq<Way>)
    requires Valid(ways) && ways != []
    ensures var w := Walk(ways);
            Trail(w.steps, ways[0].Head(), w.tail) && Fresh(ways, {}, w) && Stuck(ways, w.used, w.tail)
  {
    var first := Step(ways[0], true);
    WalkFromIsTrail(ways, {ways[0].id}, ways[0].Last());
    var rest := WalkFrom(ways, {ways[0].id}, ways[0].Last());
    TrailCons(first, rest.steps, rest.tail);
    assert {} + {ways[0].id} == {ways[0].id};
    FreshCons(ways, {}, first, rest);
  }

  // ------------------------------------------------------------------------------------------
  // Which way is taken
  // ------------------------------------------------------------------------------------------

  /** Way `i` ends at the node and is unused, and no way before it in the list is. */
  ghost predicate FirstUnused(ways: seq<Way>, used: set<int>, v: int, i: nat)
    requires Valid(ways)
  {
    && i < |ways| && Ends(ways[i], v) > 0 && ways[i].id !in used
    && forall j :: 0 <= j < i && Ends(ways[j], v) > 0 ==> ways[j].id in used
  }

  lemma {:induction false} FirstFreeJoin(a: seq<int>, b: seq<int>, used: set<int>)
    ensures FirstFree(a + b, used) == if FirstFree(a, used).Some? then FirstFree(a, used) else FirstFree(b, used)
  {
    if a == [] {
      assert a + b == b;
    } else {
      FirstFreeJoin(a[1..], b, used);
      assert (a + b)[1..] == a[1..] + b;
    }
  }

  lemma {:induction false} FirstOfRepeated(id: int, n: nat, used: set<int>)
    ensures FirstFree(Repeat(id, n), used) == if n > 0 && id !in used then Some(id) else None
  {
    if n > 0 {
      assert Repeat(id, n)[0] == id && forall x :: x in Repeat(id, n) ==> x == id;
    }
  }

  lemma {:induction false} FreeIsFirst(ways: seq<Way>, used: set<int>, v: int) returns (i: nat)
    requires Valid(ways)
    ensures FirstFree(Bucket(ways, v), used).Some? ==>
              FirstUnused(ways, used, v, i) && FirstFree(Bucket(ways, v), used).value == ways[i].id
  {
    i := 0;
    if ways != [] {
      var n := |ways| - 1;
      FirstFreeJoin(Bucket(ways[..n], v), Repeat(ways[n].id, Ends(ways[n], v)), used);
      FirstOfRepeated(ways[n].id, Ends(ways[n], v), used);
      if FirstFree(Bucket(ways[..n], v), used).Some? {
        i := FreeIsFirst(ways[..n], used, v);
        StillFirst(ways, used, v, i);
      } else {
        i := n;
        NoneFree(ways[..n], used, v);
      }
    }
  }

  lemma StillFirst(ways: seq<Way>, used: set<int>, v: int, i: nat)
    requires Valid(ways) && ways != [] && FirstUnused(ways[..|ways| - 1], used, v, i)
    ensures FirstUnused(ways, used, v, i) && ways[i] == ways[..|ways| - 1][i]
  {
    forall j | 0 <= j < i && Ends(ways[j], v) > 0 ensures ways[j].id in used {
      assert ways[j] == ways[..|ways| - 1][j];
    }
  }

  lemma {:induction false} NoneFree(ways: seq<Way>, used: set<int>, v: int)
    requires Valid(ways) && FirstFree(Bucket(ways, v), used).None?
    ensures forall j :: 0 <= j < |ways| && Ends(ways[j], v) > 0 ==> ways[j].id in used
  {
    forall j | 0 <= j < |ways| && Ends(ways[j], v) > 0 ensures ways[j].id in used {
      assert ways[j] in ways;
      InBucket(ways, v, ways[j].id);
    }
  }

  /** Step `i` takes the first way in the list that ends where the step before it stops and is not used yet,
      starting from that node. */
  ghost predicate TakesFirst(ways: seq<Way>, steps: seq<Step>, i: nat)
    requires Valid(ways) && 0 < i < |steps| && steps[i - 1].way.nodeIds != [] && steps[i].way.nodeIds != []
  {
    var v := Exit(steps[i - 1]);
    && (exists k: nat :: FirstUnused(ways, StepIds(steps[..i]), v, k) && ways[k] == steps[i].way)
    && (steps[i].forward <==> steps[i].way.Head() == v)
  }

  /** From the first way on, always the first way that will do. */
  ghost predicate Greedy(ways: seq<Way>, steps: seq<Step>)
    requires Valid(ways)
  {
    && ways != [] && steps != [] && steps[0] == Step(ways[0], true)
    && (forall i :: 0 <= i < |steps| ==> steps[i].way.nodeIds != [])
    && forall i {:trigger TakesFirst(ways, steps, i)} :: 0 < i < |steps| ==> TakesFirst(ways, steps, i)
  }

  lemma StepTakesFirst(ways: seq<Way>, done: seq<Step>)
    requires Valid(ways) && Greedy(ways, done)
    requires NextStep(ways, StepIds(done), Exit(done[|done| - 1])).Some?
    ensures var s := NextStep(ways, StepIds(done), Exit(done[|done| - 1])).value;
            Greedy(ways, done + [s]) && StepIds(done + [s]) == StepIds(done) + {s.way.id}
  {
    var used, tail := StepIds(done), Exit(done[|done| - 1]);
    var s := NextStep(ways, used, tail).value;
    var all := done + [s];
    var k := FreeIsFirst(ways, used, tail);
    SameIdSameWay(ways, ways[k], s.way);
    assert all[..|done|] == done;
    assert FirstUnused(ways, StepIds(all[..|done|]), tail, k);
    forall i | 0 < i < |all| ensures TakesFirst(ways, all, i) {
      if i < |done| {
        assert TakesFirst(ways, done, i);
        assert all[..i] == done[..i];
      }
    }
    forall x ensures x in StepIds(all) <==> x in used + {s.way.id} {
      if x in used {
        var i :| 0 <= i < |done| && done[i].way.id == x;
        assert all[i] == done[i];
      }
      assert all[|done|] == s;
    }
  }

  lemma {:induction false} WalkFromIsGreedy(ways: seq<Way>, done: seq<Step>)
    requires Valid(ways) && Greedy(ways, done)
    ensures Greedy(ways, done + WalkFrom(ways, StepIds(done), Exit(done[|done| - 1])).steps)
    decreases Ids(ways) - StepIds(done)
  {
    var used, tail := StepIds(done), Exit(done[|done| - 1]);
    if NextStep(ways, used, tail).None? {
      assert done + [] == done;
    } else {
      var s := NextStep(ways, used, tail).value;
      assert s.way.id in Ids(ways) - used;
      StepTakesFirst(ways, done);
      WalkOnce(ways, used, tail, done);
      WalkFromIsGreedy(ways, done + [s]);
    }
  }

  /** **The walk starts along the first way and always goes on by the first unused way in the list** that ends where
      it is, reversed when it does not start there. */
  lemma WalkIsGreedy(ways: seq<Way>)
    requires Valid(ways) && ways != []
    ensures Greedy(ways, Walk(ways).steps)
  {
    var first := Step(ways[0], true);
    assert StepIds([first]) == {ways[0].id} by {
      assert [first][0] == first;
    }
    WalkFromIsGreedy(ways, [first]);
  }

  // ------------------------------------------------------------------------------------------
  // Counting ends
  // ------------------------------------------------------------------------------------------

  ghost function EndsUsed(ways: seq<Way>, used: set<int>, v: int): nat
    requires Valid(ways)
  {
    if ways == [] then 0 else
      var n := |ways| - 1;
      EndsUsed(ways[..n], used, v) + (if ways[n].id in used then Ends(ways[n], v) else 0)
  }

  ghost function Degree(ways: seq<Way>, v: int): nat
    requires Valid(ways)
  {
    |Bucket(ways, v)|
  }

  lemma {:induction false} EndsUsedBounds(ways: seq<Way>, used: set<int>, v: int)
    requires Valid(ways)
    ensures EndsUsed(ways, used, v) <= Degree(ways, v)
    ensures EndsUsed(ways, used, v) == Degree(ways, v) <==> forall w :: w in ways && Ends(w, v) > 0 ==> w.id in used
    ensures forall w :: w in ways && w.id in used && Ends(w, v) > 0 ==> EndsUsed(ways, used, v) > 0
  {
    if ways != [] {
      var n := |ways| - 1;
      assert ways == ways[..n] + [ways[n]];
      EndsUsedBounds(ways[..n], used, v);
      assert forall w :: w in ways <==> w in ways[..n] || w == ways[n];
    }
  }

  lemma {:induction false} EndsUsedAdd(ways: seq<Way>, used: set<int>, a: Way, v: int)
    requires Valid(ways) && a.id !in used && a.nodeIds != []
    requires a in ways || a.id !in Ids(ways)
    ensures EndsUsed(ways, used + {a.id}, v) == EndsUsed(ways, used, v) + (if a in ways then Ends(a, v) else 0)
  {
    if ways != [] {
      var n := |ways| - 1;
      assert ways == ways[..n] + [ways[n]];
      assert forall w :: w in ways <==> w in ways[..n] || w == ways[n];
      if a in ways[..n] || a.id !in Ids(ways[..n]) {
        EndsUsedAdd(ways[..n], used, a, v);
      }
    }
  }

  lemma {:induction false} EndsUsedNone(ways: seq<Way>, v: int)
    requires Valid(ways)
    ensures EndsUsed(ways, {}, v) == 0
  {
    if ways != [] {
      EndsUsedNone(ways[..|ways| - 1], v);
    }
  }

  function Is(v: int, x: int): nat { if v == x then 1 else 0 }

  /** Among the used ways every node has an even number of ends, except the two ends of the trail. */
  ghost predicate Parity(ways: seq<Way>, used: set<int>, from: int, to: int)
    requires Valid(ways)
  {
    forall v :: EndsUsed(ways, used, v) % 2 == (Is(v, from) + Is(v, to)) % 2
  }

  lemma {:induction false} WalkFromParity(ways: seq<Way>, used: set<int>, start: int, tail: int)
    requires Valid(ways) && Parity(ways, used, start, tail)
    ensures var w := WalkFrom(ways, used, tail); Parity(ways, w.used, start, w.tail)
    decreases Ids(ways) - used
  {
    var next := NextStep(ways, used, tail);
    if next.Some? {
      var s := next.value;
      assert s.way.id in Ids(ways) - used;
      forall v ensures EndsUsed(ways, used + {s.way.id}, v) % 2 == (Is(v, start) + Is(v, Exit(s))) % 2 {
        EndsUsedAdd(ways, used, s.way, v);
        assert Ends(s.way, v) == Is(v, tail) + Is(v, Exit(s));
      }
      WalkFromParity(ways, used + {s.way.id}, start, Exit(s));
    }
  }

  lemma WalkParity(ways: seq<Way>)
    requires Valid(ways) && ways != []
    ensures Parity(ways, Walk(ways).used, ways[0].Head(), Walk(ways).tail)
  {
    var first := ways[0];
    forall v ensures EndsUsed(ways, {first.id}, v) % 2 == (Is(v, first.Head()) + Is(v, first.Last())) % 2 {
      EndsUsedNone(ways, v);
      EndsUsedAdd(ways, {}, first, v);
      assert {} + {first.id} == {first.id};
    }
    WalkFromParity(ways, {first.id}, first.Head(), first.Last());
  }

  // ------------------------------------------------------------------------------------------
  // Closing and covering
  // ------------------------------------------------------------------------------------------

  ghost predicate EvenDegrees(ways: seq<Way>)
    requires Valid(ways)
  {
    forall v :: Degree(ways, v) % 2 == 0
  }

  /** A ring: every node with a way-end has exactly two, and every way is connected to the first. */
  ghost predicate Ring(ways: seq<Way>)
    requires Valid(ways)
  {
    && ways != []
    && (forall v :: Degree(ways, v) == 0 || Degree(ways, v) == 2)
    && (forall w {:trigger Connected(ways, ways[0], w)} :: w in ways ==> Connected(ways, ways[0], w))
  }

  /** If every node has an even number of way-ends the walk ends at the node it started from, branches
      or not. */
  lemma EvenWalkCloses(ways: seq<Way>)
    requires Valid(ways) && ways != [] && EvenDegrees(ways)
    ensures Walk(ways).tail == ways[0].Head()
  {
    var w := Walk(ways);
    WalkIsTrail(ways);
    WalkParity(ways);
    StuckIsWhole(ways, w.used, w.tail);
    ParityAt(ways, w.used, ways[0].Head(), w.tail, w.tail);
    EvenAtTail(EndsUsed(ways, w.used, w.tail), ways[0].Head(), w.tail);
  }

  lemma {:induction false} StuckIsWhole(ways: seq<Way>, used: set<int>, v: int)
    requires Valid(ways) && Stuck(ways, used, v)
    ensures EndsUsed(ways, used, v) == Degree(ways, v)
  {
    EndsUsedBounds(ways, used, v);
  }

  lemma {:induction false} ParityAt(ways: seq<Way>, used: set<int>, from: int, to: int, v: int)
    requires Valid(ways) && Parity(ways, used, from, to)
    ensures EndsUsed(ways, used, v) % 2 == (Is(v, from) + Is(v, to)) % 2
  {}

  lemma EvenAtTail(ends: nat, from: int, to: int)
    requires ends % 2 == 0 && ends % 2 == (Is(to, from) + Is(to, to)) % 2
    ensures from == to
  {}

  /** Conversely a closed walk that leaves no way out shows every degree to be even. */
  lemma FullClosedWalkIsEven(ways: seq<Way>)
    requires Valid(ways) && ways != []
    requires Walk(ways).tail == ways[0].Head() && Ids(ways) <= Walk(ways).used
    ensures EvenDegrees(ways)
  {
    WalkParity(ways);
    forall v ensures Degree(ways, v) % 2 == 0 {
      EndsUsedBounds(ways, Walk(ways).used, v);
      assert forall w :: w in ways ==> w.id in Ids(ways);
    }
  }

  /** On a ring a node the walk has touched has no way left. */
  lemma TouchedIsUsed(ways: seq<Way>, a: Way, b: Way)
    requires Valid(ways) && Ring(ways) && a in ways && b in ways && Touch(a, b)
    requires a.id in Walk(ways).used
    ensures b.id in Walk(ways).used
  {
    var v :| Ends(a, v) > 0 && Ends(b, v) > 0;
    RingCountsAreEven(ways, v);
    EvenMate(ways, Walk(ways).used, v, a, b);
  }

  lemma {:induction false} EvenMate(ways: seq<Way>, used: set<int>, v: int, a: Way, b: Way)
    requires Valid(ways) && EndsUsed(ways, used, v) % 2 == 0 && (Degree(ways, v) == 0 || Degree(ways, v) == 2)
    requires a in ways && b in ways && Ends(a, v) > 0 && Ends(b, v) > 0 && a.id in used
    ensures b.id in used
  {
    EndsUsedBounds(ways, used, v);
    assert EndsUsed(ways, used, v) > 0;
  }

  lemma RingIsEven(ways: seq<Way>)
    requires Valid(ways) && Ring(ways)
    ensures EvenDegrees(ways)
  {
    forall v ensures Degree(ways, v) % 2 == 0 {
      assert Degree(ways, v) == 0 || Degree(ways, v) == 2;
    }
  }

  lemma {:induction false} RingCountsAreEven(ways: seq<Way>, v: int)
    requires Valid(ways) && Ring(ways)
    ensures EndsUsed(ways, Walk(ways).used, v) % 2 == 0 && (Degree(ways, v) == 0 || Degree(ways, v) == 2)
  {
    RingIsEven(ways);
    EvenWalkCloses(ways);
    WalkParity(ways);
  }

  /** No way outside touches a used one. */
  ghost predicate TouchesNoOther(ways: seq<Way>, used: set<int>) {
    forall a, b {:trigger Touch(a, b)} :: a in ways && b in ways && Touch(a, b) && a.id in used ==> b.id in used
  }

  lemma RingTouchesNoOther(ways: seq<Way>)
    requires Valid(ways) && Ring(ways)
    ensures TouchesNoOther(ways, Walk(ways).used)
  {
    forall a, b | a in ways && b in ways && Touch(a, b) && a.id in Walk(ways).used ensures b.id in Walk(ways).used {
      TouchedIsUsed(ways, a, b);
    }
  }

  lemma {:induction false} ChainIsUsed(ways: seq<Way>, used: set<int>, p: seq<Way>)
    requires Chain(ways, p) && TouchesNoOther(ways, used) && p[0].id in used
    ensures p[|p| - 1].id in used
  {
    if |p| > 1 {
      var q := p[..|p| - 1];
      assert forall i :: 0 <= i < |q| ==> q[i] == p[i];
      ChainIsUsed(ways, used, q);
      assert Touch(p[|p| - 2], p[|p| - 2 + 1]);
    }
  }

  /** **On a ring the walk uses every way exactly once and comes back to where it started.** */
  lemma RingIsWalkedWhole(ways: seq<Way>)
    requires Valid(ways) && Ring(ways)
    ensures var w := Walk(ways);
            && Trail(w.steps, ways[0].Head(), ways[0].Head())
            && Fresh(ways, {}, w)
            && w.used == Ids(ways)
  {
    RingIsEven(ways);
    EvenWalkCloses(ways);
    WalkIsTrail(ways);
    RingUsesAll(ways);
    FreshUsesOnlyWays(ways, Walk(ways));
  }

  lemma FreshUsesOnlyWays(ways: seq<Way>, w: Walked)
    requires Fresh(ways, {}, w)
    ensures w.used <= Ids(ways)
  {
    forall i | 0 <= i < |w.steps| ensures w.steps[i].way.id in Ids(ways) {}
  }

  lemma FirstIsUsed(ways: seq<Way>)
    requires Valid(ways) && ways != []
    ensures ways[0].id in Walk(ways).used
  {
    WalkFromIsTrail(ways, {ways[0].id}, ways[0].Last());
  }

  lemma RingUsesAll(ways: seq<Way>)
    requires Valid(ways) && Ring(ways)
    ensures Ids(ways) <= Walk(ways).used
  {
    FirstIsUsed(ways);
    RingTouchesNoOther(ways);
    forall w | w in ways ensures w.id in Walk(ways).used {
      assert Connected(ways, ways[0], w);
      var p :| ChainFrom(ways, p, ways[0], w);
      ChainIsUsed(ways, Walk(ways).used, p);
    }
  }
}
