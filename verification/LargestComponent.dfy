/** How `track-map.builder.ts` picks the ways to stitch: the connected group of greatest length. */
module LargestComponent {
  import opened Ways
  import opened UnionFind

  function PolylineM(points: seq<Point>, dist: (Point, Point) -> real): real {
    if |points| < 2 then 0.0 else
      var n := |points| - 1;
      PolylineM(points[..n], dist) + dist(points[n - 1], points[n])
  }

  ghost predicate NonNegative(dist: (Point, Point) -> real) {
    forall p: Point, q: Point :: dist(p, q) >= 0.0
  }

  lemma {:induction false} PolylineIsNonNegative(points: seq<Point>, dist: (Point, Point) -> real)
    requires NonNegative(dist)
    ensures PolylineM(points, dist) >= 0.0
  {
    if |points| >= 2 {
      PolylineIsNonNegative(points[..|points| - 1], dist);
    }
  }

  method PolylineLengthM(points: seq<Point>, dist: (Point, Point) -> real) returns (total: real)
    ensures total == PolylineM(points, dist)
    ensures NonNegative(dist) ==> total >= 0.0
  {
    total := 0.0;
    var i := 1;
    while i < |points|
      invariant 1 <= i && (i <= |points| ==> total == PolylineM(points[..i], dist))
      invariant i > |points| ==> points == [] && total == 0.0
    {
      assert points[..i + 1][..i] == points[..i];
      total := total + dist(points[i - 1], points[i]);
      i := i + 1;
    }
    assert i == |points| ==> points[..i] == points;
    if NonNegative(dist) {
      PolylineIsNonNegative(points, dist);
    }
  }

  function TotalM(ways: seq<Way>, dist: (Point, Point) -> real): real {
    if ways == [] then 0.0 else
      var n := |ways| - 1;
      TotalM(ways[..n], dist) + PolylineM(ways[n].points, dist)
  }

  lemma {:induction false} TotalIsNonNegative(ways: seq<Way>, dist: (Point, Point) -> real)
    requires NonNegative(dist)
    ensures TotalM(ways, dist) >= 0.0
  {
    if ways != [] {
      TotalIsNonNegative(ways[..|ways| - 1], dist);
      PolylineIsNonNegative(ways[|ways| - 1].points, dist);
    }
  }

  method GroupLengthM(group: seq<Way>, dist: (Point, Point) -> real) returns (sum: real)
    ensures sum == TotalM(group, dist)
  {
    sum := 0.0;
    for i := 0 to |group|
      invariant sum == TotalM(group[..i], dist)
    {
      assert group[..i + 1][..i] == group[..i];
      var length := PolylineLengthM(group[i].points, dist);
      sum := sum + length;
    }
    assert group[..|group|] == group;
  }

  /** **A polyline is as long as its hops together**: from 0, each point is its hop further than the one before. */
  lemma {:induction false} PolylineIsItsHops(points: seq<Point>, dist: (Point, Point) -> real)
    returns (alongM: seq<real>)
    ensures |alongM| == |points| && (points != [] ==> alongM[0] == 0.0)
    ensures forall i :: 0 < i < |points| ==> alongM[i] == alongM[i - 1] + dist(points[i - 1], points[i])
    ensures PolylineM(points, dist) == if points == [] then 0.0 else alongM[|points| - 1]
  {
    if |points| < 2 {
      alongM := seq(|points|, _ => 0.0);
    } else {
      var n := |points| - 1;
      var before := PolylineIsItsHops(points[..n], dist);
      alongM := before + [before[n - 1] + dist(points[n - 1], points[n])];
    }
  }

  /** Ways together are as long as their polylines together. */
  lemma {:induction false} TotalIsItsWays(ways: seq<Way>, dist: (Point, Point) -> real) returns (sumM: seq<real>)
    ensures |sumM| == |ways| + 1 && sumM[0] == 0.0 && TotalM(ways, dist) == sumM[|ways|]
    ensures forall i :: 0 <= i < |ways| ==> sumM[i + 1] == sumM[i] + PolylineM(ways[i].points, dist)
  {
    if ways == [] {
      sumM := [0.0];
    } else {
      var n := |ways| - 1;
      var before := TotalIsItsWays(ways[..n], dist);
      sumM := before + [before[n] + PolylineM(ways[n].points, dist)];
    }
  }

  /** The ways of `part` whose representative is `r`. */
  ghost function Group(part: seq<Way>, root: map<int, int>, r: int): (g: seq<Way>)
    requires forall w :: w in part ==> w.id in root
  {
    if part == [] then [] else
      var n := |part| - 1;
      assert part == part[..n] + [part[n]];
      Group(part[..n], root, r) + (if root[part[n].id] == r then [part[n]] else [])
  }

  lemma {:induction false} GroupIsComponent(part: seq<Way>, ways: seq<Way>, root: map<int, int>, a: Way)
    requires Exact(ways, root) && a in ways && forall w :: w in part ==> w in ways
    ensures Group(part, root, root[a.id]) == Connecting(part, ways, a)
  {
    if part != [] {
      var n := |part| - 1;
      assert part == part[..n] + [part[n]];
      GroupIsComponent(part[..n], ways, root, a);
      assert root[a.id] == root[part[n].id] <==> Connected(ways, a, part[n]);
    }
  }

  /** The groups map in its insertion order: the `k`-th group belongs to representative `order[k]` and
      starts with way `firsts[k]`; `slot` finds a representative's group. */
  ghost predicate Listed(reps: seq<int>, i: nat, order: seq<int>, firsts: seq<nat>, slot: map<int, nat>)
    requires i <= |reps|
  {
    && |order| == |firsts|
    && (forall k :: 0 <= k < |order| ==> firsts[k] < i && reps[firsts[k]] == order[k])
    && (forall k, l :: 0 <= k < l < |order| ==> firsts[k] < firsts[l])
    && (forall j {:trigger InSlot(reps, j, order, firsts, slot)} :: 0 <= j < i ==> InSlot(reps, j, order, firsts, slot))
  }

  /** Way `j` is listed: its representative has a group that starts no later. */
  ghost predicate InSlot(reps: seq<int>, j: nat, order: seq<int>, firsts: seq<nat>, slot: map<int, nat>)
    requires j < |reps| && |order| == |firsts|
  {
    && reps[j] in slot
    && slot[reps[j]] < |order| && order[slot[reps[j]]] == reps[j] && firsts[slot[reps[j]]] <= j
  }

  lemma ListSeen(reps: seq<int>, i: nat, order: seq<int>, firsts: seq<nat>, slot: map<int, nat>, k: nat)
    requires i < |reps| && Listed(reps, i, order, firsts, slot)
    requires k < |order| && order[k] == reps[i]
    ensures Listed(reps, i + 1, order, firsts, slot)
  {
    assert InSlot(reps, firsts[k], order, firsts, slot);
    forall j | 0 <= j < i + 1 ensures InSlot(reps, j, order, firsts, slot) {}
  }

  lemma ListNew(reps: seq<int>, i: nat, order: seq<int>, firsts: seq<nat>, slot: map<int, nat>)
    requires i < |reps| && Listed(reps, i, order, firsts, slot)
    requires reps[i] !in order
    ensures Listed(reps, i + 1, order + [reps[i]], firsts + [i], slot[reps[i] := |order|])
  {
    var order', firsts', slot' := order + [reps[i]], firsts + [i], slot[reps[i] := |order|];
    forall j | 0 <= j < i + 1 ensures InSlot(reps, j, order', firsts', slot') {
      assert j < i ==> InSlot(reps, j, order, firsts, slot);
    }
  }

  /** The groups hold exactly the ways of their representatives. */
  ghost predicate Filled(part: seq<Way>, root: map<int, int>, groups: map<int, seq<Way>>)
    requires forall w :: w in part ==> w.id in root
  {
    && (forall r :: r in groups ==> groups[r] == Group(part, root, r))
    && (forall r :: r !in groups ==> Group(part, root, r) == [])
  }

  lemma FillNext(part: seq<Way>, w: Way, root: map<int, int>, groups: map<int, seq<Way>>)
    requires (forall v :: v in part ==> v.id in root) && w.id in root && Filled(part, root, groups)
    ensures var r := root[w.id];
            Filled(part + [w], root, groups[r := (if r in groups then groups[r] else []) + [w]])
  {
    assert (part + [w])[..|part|] == part;
  }

  ghost function Reps(ways: seq<Way>, root: map<int, int>): (r: seq<int>)
    requires forall w :: w in ways ==> w.id in root
    ensures |r| == |ways|
  {
    seq(|ways|, i requires 0 <= i < |ways| => root[ways[i].id])
  }

  /** `best` is the component of `ways[at]`; no component is longer, and those that start earlier are
      strictly shorter. */
  ghost predicate Largest(ways: seq<Way>, dist: (Point, Point) -> real, best: seq<Way>, at: nat) {
    && at < |ways|
    && best == Component(ways, ways[at])
    && (forall j :: 0 <= j < |ways| ==> TotalM(Component(ways, ways[j]), dist) <= TotalM(best, dist))
    && (forall j :: 0 <= j < at ==> TotalM(Component(ways, ways[j]), dist) < TotalM(best, dist))
  }

  /** The groups as a JavaScript `Map` keeps them: by key, with the keys in insertion order. */
  datatype Groups = Groups(order: seq<int>, byRep: map<int, seq<Way>>)

  /** The `k`-th value of the map. */
  function GroupNo(g: Groups, k: nat): seq<Way>
    requires k < |g.order|
  {
    if g.order[k] in g.byRep then g.byRep[g.order[k]] else []
  }

  function AddToGroup(g: Groups, r: int, w: Way): Groups {
    if r in g.byRep then
      Groups(g.order, g.byRep[r := g.byRep[r] + [w]])
    else
      Groups(g.order + [r], g.byRep[r := [w]])
  }

  /** Where the groups start: the position of each group's first way, and each representative's group. */
  datatype Starts = Starts(firsts: seq<nat>, slot: map<int, nat>)

  ghost function AddStart(s: Starts, g: Groups, r: int, i: nat): Starts {
    if r in g.byRep then s else Starts(s.firsts + [i], s.slot[r := |g.order|])
  }

  /** The grouping loop after `i` ways. */
  ghost predicate Grouping(ways: seq<Way>, root: map<int, int>, i: nat, g: Groups, s: Starts)
    requires i <= |ways| && forall w :: w in ways ==> w.id in root
  {
    && Filled(ways[..i], root, g.byRep)
    && Listed(Reps(ways, root), i, g.order, s.firsts, s.slot)
    && (forall r :: r in g.byRep <==> r in g.order)
  }

  lemma GroupStep(ways: seq<Way>, root: map<int, int>, i: nat, r: int, g: Groups, s: Starts)
    requires i < |ways| && (forall w :: w in ways ==> w.id in root) && r == root[ways[i].id]
    requires Grouping(ways, root, i, g, s)
    ensures Grouping(ways, root, i + 1, AddToGroup(g, r, ways[i]), AddStart(s, g, r, i))
  {
    var reps := Reps(ways, root);
    FillNext(ways[..i], ways[i], root, g.byRep);
    assert ways[..i + 1] == ways[..i] + [ways[i]];
    if r in g.byRep {
      var k :| 0 <= k < |g.order| && g.order[k] == r;
      ListSeen(reps, i, g.order, s.firsts, s.slot, k);
    } else {
      ListNew(reps, i, g.order, s.firsts, s.slot);
      assert [] + [ways[i]] == [ways[i]];
    }
  }

  method RepresentativeOf(f: Forest, ways: seq<Way>, i: nat) returns (r: int)
    requires f.Valid() && i < |ways| && forall w :: w in ways ==> w.id in f.root
    modifies f`parent
    ensures f.Valid() && r == f.root[ways[i].id]
  {
    assert ways[i] in ways;
    r := f.Find(ways[i].id);
  }

  method GroupWays(ways: seq<Way>) returns (g: Groups, ghost root: map<int, int>, ghost s: Starts)
    requires Valid(ways)
    ensures Exact(ways, root) && Grouping(ways, root, |ways|, g, s)
  {
    var f := JoinWays(ways);
    root := f.root;
    g, s := Groups([], map[]), Starts([], map[]);
    for i := 0 to |ways|
      invariant fresh(f) && f.Valid() && f.root == root && Grouping(ways, root, i, g, s)
    {
      var r := RepresentativeOf(f, ways, i);
      GroupStep(ways, root, i, r, g, s);
      s := AddStart(s, g, r, i);
      g := AddToGroup(g, r, ways[i]);
    }
  }

  /** Of the first `k` groups, the `b`-th is the first of greatest length. */
  ghost predicate Longest(g: Groups, dist: (Point, Point) -> real, b: nat, k: nat)
  {
    && b < k <= |g.order|
    && (forall l :: 0 <= l < k ==> TotalM(GroupNo(g, l), dist) <= TotalM(GroupNo(g, b), dist))
    && (forall l :: 0 <= l < b ==> TotalM(GroupNo(g, l), dist) < TotalM(GroupNo(g, b), dist))
  }

  method LongestGroup(g: Groups, dist: (Point, Point) -> real) returns (best: seq<Way>, ghost b: nat)
    requires NonNegative(dist)
    ensures g.order == [] ==> best == []
    ensures g.order != [] ==> exists k :: Longest(g, dist, k, |g.order|) && best == GroupNo(g, k)
    ensures g.order != [] ==> Longest(g, dist, b, |g.order|) && best == GroupNo(g, b)
  {
    best := [];
    b := 0;
    var bestLength := -1.0;
    for k := 0 to |g.order|
      invariant k == 0 ==> best == [] && bestLength == -1.0
      invariant k > 0 ==> Longest(g, dist, b, k) && best == GroupNo(g, b) && bestLength == TotalM(best, dist)
    {
      var group := GroupNo(g, k);
      TotalIsNonNegative(group, dist);
      var length := GroupLengthM(group, dist);
      if length > bestLength {
        best, bestLength := group, length;
        b := k;
      }
    }
  }

  /** The connected ways of greatest total length: exactly one whole component of the venue. */
  method LargestConnectedComponent(ways: seq<Way>, dist: (Point, Point) -> real) returns (best: seq<Way>, ghost at: nat)
    requires Valid(ways) && NonNegative(dist)
    ensures ways == [] ==> best == []
    ensures ways != [] ==> exists k :: Largest(ways, dist, best, k)
    ensures ways != [] ==> Largest(ways, dist, best, at)
  {
    var g;
    ghost var root, s, b;
    g, root, s := GroupWays(ways);
    best, b := LongestGroup(g, dist);
    at := 0;
    if ways != [] {
      at := ChosenIsLargest(ways, root, g, s, dist, b);
    } else {
      assert g.order == [];
    }
  }

  lemma GroupAt(ways: seq<Way>, root: map<int, int>, groups: map<int, seq<Way>>, j: nat)
    requires Exact(ways, root) && Filled(ways, root, groups) && j < |ways| && root[ways[j].id] in groups
    ensures groups[root[ways[j].id]] == Component(ways, ways[j])
  {
    GroupIsComponent(ways, ways, root, ways[j]);
  }

  /** The group of way `j` is among those listed, no later than `j`. */
  lemma ListedGroup(ways: seq<Way>, root: map<int, int>, g: Groups, s: Starts, j: nat) returns (k: nat)
    requires Exact(ways, root) && Grouping(ways, root, |ways|, g, s) && j < |ways|
    ensures k < |g.order| == |s.firsts| && s.firsts[k] <= j && GroupNo(g, k) == Component(ways, ways[j])
  {
    assert ways[..|ways|] == ways;
    assert InSlot(Reps(ways, root), j, g.order, s.firsts, s.slot);
    k := s.slot[Reps(ways, root)[j]];
    GroupAt(ways, root, g.byRep, j);
  }

  lemma FirstsAscend(reps: seq<int>, i: nat, order: seq<int>, firsts: seq<nat>, slot: map<int, nat>, k: nat, b: nat)
    requires i <= |reps| && Listed(reps, i, order, firsts, slot) && k < |order| && b < |order|
    ensures firsts[k] < firsts[b] ==> k < b
  {}

  lemma ChosenIsLargest(ways: seq<Way>, root: map<int, int>, g: Groups, s: Starts, dist: (Point, Point) -> real, b: nat)
    returns (at: nat)
    requires Exact(ways, root) && Grouping(ways, root, |ways|, g, s) && ways != []
    requires g.order != [] ==> Longest(g, dist, b, |g.order|)
    ensures g.order != [] && Largest(ways, dist, GroupNo(g, b), at)
  {
    var z := ListedGroup(ways, root, g, s, 0);
    at := s.firsts[b];
    forall j | 0 <= j < |ways|
      ensures TotalM(Component(ways, ways[j]), dist) <= TotalM(GroupNo(g, b), dist)
      ensures j < at ==> TotalM(Component(ways, ways[j]), dist) < TotalM(GroupNo(g, b), dist)
    {
      var k := ListedGroup(ways, root, g, s, j);
      FirstsAscend(Reps(ways, root), |ways|, g.order, s.firsts, s.slot, k, b);
    }
    FirstOfGroup(ways, root, g, s, b);
  }

  lemma FirstOfGroup(ways: seq<Way>, root: map<int, int>, g: Groups, s: Starts, b: nat)
    requires Exact(ways, root) && Grouping(ways, root, |ways|, g, s) && b < |g.order|
    ensures s.firsts[b] < |ways| && GroupNo(g, b) == Component(ways, ways[s.firsts[b]])
  {
    assert ways[..|ways|] == ways;
    GroupAt(ways, root, g.byRep, s.firsts[b]);
  }
}
