/** The union-find of `track-map.builder.ts` and the group it hands back. */
module UnionFind {
  import opened Ways

  /** One id of the parent map: its parent has the same representative and is strictly nearer to it. */
  ghost predicate Node(parent: map<int, int>, root: map<int, int>, depth: map<int, nat>, x: int)
    requires x in parent
  {
    && x in root && x in depth
    && parent[x] in parent && parent[x] in root && parent[x] in depth
    && root[parent[x]] == root[x]
    && (parent[x] != x ==> depth[parent[x]] < depth[x])
    && root[x] in parent && parent[root[x]] == root[x]
    && (parent[x] == x ==> root[x] == x)
  }

  /** The parent map is a forest: `root` names each id's representative and `depth` bounds the walk
      to it, so the walk ends. */
  ghost predicate IsForest(parent: map<int, int>, root: map<int, int>, depth: map<int, nat>) {
    && parent.Keys == root.Keys
    && forall x {:trigger Node(parent, root, depth, x)} :: x in parent ==> Node(parent, root, depth, x)
  }

  lemma AddSingleton(parent: map<int, int>, root: map<int, int>, depth: map<int, nat>, id: int)
    requires IsForest(parent, root, depth) && id !in parent
    ensures IsForest(parent[id := id], root[id := id], depth[id := 0])
  {
    var parent', root', depth' := parent[id := id], root[id := id], depth[id := 0];
    forall x | x in parent' ensures Node(parent', root', depth', x) {
      if x != id {
        assert Node(parent, root, depth, x);
      }
    }
  }

  /** Pointing an id straight at its representative keeps the forest. */
  lemma Shorten(parent: map<int, int>, root: map<int, int>, depth: map<int, nat>, id: int, r: int)
    requires IsForest(parent, root, depth) && id in parent && id in root && id in depth
    requires r in root && r in depth && r == root[id] && (r == id || depth[r] < depth[id])
    ensures IsForest(parent[id := r], root, depth)
  {
    assert Node(parent, root, depth, id);
    assert Node(parent, root, depth, r);
    var parent' := parent[id := r];
    forall x | x in parent' ensures Node(parent', root, depth, x) {
      assert Node(parent, root, depth, x);
      if root[x] == id {
        assert parent[id] == id;
      }
    }
  }

  ghost function MergedRoot(root: map<int, int>, ra: int, rb: int): map<int, int> {
    map x | x in root :: if root[x] == ra then rb else root[x]
  }

  ghost function MergedDepth(root: map<int, int>, depth: map<int, nat>, ra: int, rb: int): map<int, nat>
    requires rb in depth
  {
    map x | x in root && x in depth :: if root[x] == ra then depth[x] + depth[rb] + 1 else depth[x]
  }

  /** Hanging one representative below another keeps the forest. */
  lemma Hang(parent: map<int, int>, root: map<int, int>, depth: map<int, nat>, ra: int, rb: int)
    requires IsForest(parent, root, depth) && ra in root && rb in root && rb in depth
    requires ra != rb && root[ra] == ra && root[rb] == rb
    ensures IsForest(parent[ra := rb], MergedRoot(root, ra, rb), MergedDepth(root, depth, ra, rb))
  {
    var parent', root', depth' := parent[ra := rb], MergedRoot(root, ra, rb), MergedDepth(root, depth, ra, rb);
    assert Node(parent, root, depth, ra) && Node(parent, root, depth, rb);
    forall x | x in parent' ensures Node(parent', root', depth', x) {
      assert Node(parent, root, depth, x);
      assert Node(parent, root, depth, parent[x]);
      assert parent[x] == x ==> root[x] == x;
    }
  }

  /** The parent map with its two closures, `find` and `union`. */
  class Forest {
    var parent: map<int, int>
    ghost var root: map<int, int>
    ghost var depth: map<int, nat>

    ghost predicate Valid()
      reads this
    {
      IsForest(parent, root, depth)
    }

    constructor (ways: seq<Way>)
      requires Ways.Valid(ways)
      ensures Valid() && forall w :: w in ways ==> w.id in root
      ensures forall x :: x in root ==> root[x] == x
    {
      new;
      parent, root, depth := map[], map[], map[];
      for i := 0 to |ways|
        invariant Valid()
        invariant forall x :: x in root ==> root[x] == x && exists j :: 0 <= j < i && ways[j].id == x
        invariant forall j :: 0 <= j < i ==> ways[j].id in root
      {
        var id := ways[i].id;
        AddSingleton(parent, root, depth, id);
        parent, root, depth := parent[id := id], root[id := id], depth[id := 0];
      }
    }

    /** The representative of `id`. Re-pointing `id` at it keeps every representative. */
    method Find(id: int) returns (r: int)
      requires Valid() && id in parent
      modifies this`parent
      ensures Valid() && r == root[id] && r in parent && root[r] == r
    {
      r := id;
      assert Node(parent, root, depth, id);
      while r in parent && parent[r] != r
        invariant r in parent && r in root && r in depth && root[r] == root[id]
        invariant r == id || depth[r] < depth[id]
        decreases if r in depth then depth[r] else 0
      {
        assert Node(parent, root, depth, r);
        r := parent[r];
      }
      assert Node(parent, root, depth, r);
      Shorten(parent, root, depth, id, r);
      parent := parent[id := r];
    }

    method Union(a: int, b: int)
      requires Valid() && a in parent && b in parent
      modifies this
      ensures Valid() && root.Keys == old(root.Keys) && a in old(root) && b in old(root)
      ensures root == MergedRoot(old(root), old(root[a]), old(root[b]))
    {
      var ra := Find(a);
      var rb := Find(b);
      assert Node(parent, root, depth, rb);
      if ra != rb {
        Hang(parent, root, depth, ra, rb);
        depth := MergedDepth(root, depth, ra, rb);
        root := MergedRoot(root, ra, rb);
        parent := parent[ra := rb];
      }
    }
  }

  // ------------------------------------------------------------------------------------------
  // Two ways share a representative exactly when they are connected
  // ------------------------------------------------------------------------------------------

  ghost predicate Sound(ways: seq<Way>, root: map<int, int>) {
    && (forall w :: w in ways ==> w.id in root)
    && forall a, b {:trigger Connected(ways, a, b)} :: a in ways && b in ways && root[a.id] == root[b.id] ==>
       Connected(ways, a, b)
  }

  /** The ids of a bucket share one representative. */
  ghost predicate Joined(bucket: seq<int>, root: map<int, int>) {
    && (forall i :: 0 <= i < |bucket| ==> bucket[i] in root)
    && (forall i :: 0 <= i < |bucket| ==> root[bucket[i]] == root[bucket[0]])
  }

  ghost predicate Exact(ways: seq<Way>, root: map<int, int>) {
    && (forall w :: w in ways ==> w.id in root)
    && forall a, b {:trigger Connected(ways, a, b)} :: a in ways && b in ways ==>
       (root[a.id] == root[b.id] <==> Connected(ways, a, b))
  }

  lemma StartsSound(ways: seq<Way>, root: map<int, int>)
    requires Valid(ways)
    requires forall w :: w in ways ==> w.id in root && root[w.id] == w.id
    ensures Sound(ways, root)
  {
    forall a, b | a in ways && b in ways && root[a.id] == root[b.id] ensures Connected(ways, a, b) {
      SameIdSameWay(ways, a, b);
      ConnectedSelf(ways, a);
    }
  }

  /** Merging the classes of two connected ways stays sound. */
  lemma MergeSound(ways: seq<Way>, root: map<int, int>, root': map<int, int>, a: Way, b: Way)
    requires Sound(ways, root) && a in ways && b in ways && Connected(ways, a, b)
    requires root' == MergedRoot(root, root[a.id], root[b.id])
    ensures Sound(ways, root')
  {
    forall x, y | x in ways && y in ways && root'[x.id] == root'[y.id] ensures Connected(ways, x, y) {
      if root[x.id] != root[y.id] {
        if root[x.id] == root[a.id] {
          ThroughPair(ways, x, a, b, y);
        } else {
          ThroughPair(ways, y, a, b, x);
          ConnectedSym(ways, y, x);
        }
      }
    }
  }

  lemma ThroughPair(ways: seq<Way>, x: Way, a: Way, b: Way, y: Way)
    requires Connected(ways, x, a) && Connected(ways, a, b) && Connected(ways, b, y)
    ensures Connected(ways, x, y)
  {
    ConnectedTrans(ways, x, a, b);
    ConnectedTrans(ways, x, b, y);
  }

  lemma BucketMates(ways: seq<Way>, v: int, i: nat, j: nat) returns (a: Way, b: Way)
    requires Valid(ways) && i < |Bucket(ways, v)| && j < |Bucket(ways, v)|
    ensures a in ways && b in ways && a.id == Bucket(ways, v)[i] && b.id == Bucket(ways, v)[j] && Connected(ways, a, b)
  {
    InBucket(ways, v, Bucket(ways, v)[i]);
    InBucket(ways, v, Bucket(ways, v)[j]);
    a :| a in ways && a.id == Bucket(ways, v)[i] && Ends(a, v) > 0;
    b :| b in ways && b.id == Bucket(ways, v)[j] && Ends(b, v) > 0;
    ConnectedTouching(ways, a, b);
  }

  lemma {:induction false} TouchingJoined(ways: seq<Way>, root: map<int, int>, a: Way, b: Way)
    requires Valid(ways) && a in ways && b in ways && Touch(a, b)
    requires forall v :: Joined(Bucket(ways, v), root)
    ensures a.id in root && b.id in root && root[a.id] == root[b.id]
  {
    var v :| Ends(a, v) > 0 && Ends(b, v) > 0;
    InBucket(ways, v, a.id);
    InBucket(ways, v, b.id);
    assert Joined(Bucket(ways, v), root);
  }

  lemma {:induction false} ChainJoined(ways: seq<Way>, root: map<int, int>, p: seq<Way>)
    requires Valid(ways) && Chain(ways, p)
    requires forall v :: Joined(Bucket(ways, v), root)
    ensures p[0].id in root && p[|p| - 1].id in root && root[p[0].id] == root[p[|p| - 1].id]
  {
    if |p| > 1 {
      var q := p[..|p| - 1];
      assert forall i :: 0 <= i < |q| ==> q[i] == p[i];
      ChainJoined(ways, root, q);
      assert Touch(p[|p| - 2], p[|p| - 2 + 1]);
      TouchingJoined(ways, root, p[|p| - 2], p[|p| - 1]);
    } else {
      var w := p[0];
      assert Ends(w, w.Head()) > 0;
      TouchingJoined(ways, root, w, w);
    }
  }

  lemma {:induction false} JoinedIsExact(ways: seq<Way>, root: map<int, int>)
    requires Valid(ways) && Sound(ways, root)
    requires forall v :: Joined(Bucket(ways, v), root)
    ensures Exact(ways, root)
  {
    forall a, b | a in ways && b in ways && Connected(ways, a, b) ensures root[a.id] == root[b.id] {
      var p :| ChainFrom(ways, p, a, b);
      ChainJoined(ways, root, p);
    }
  }

  lemma MergeKeepsJoined(root: map<int, int>, ra: int, rb: int)
    ensures forall bucket :: Joined(bucket, root) ==> Joined(bucket, MergedRoot(root, ra, rb))
  {}

  /** Unions the ways that meet at one endpoint node. */
  method JoinBucket(f: Forest, ways: seq<Way>, v: int, wayIds: seq<int>)
    requires Valid(ways) && f.Valid() && Sound(ways, f.root) && wayIds == Bucket(ways, v) != []
    modifies f
    ensures f.Valid() && Sound(ways, f.root) && Joined(wayIds, f.root)
    ensures forall b :: old(Joined(b, f.root)) ==> Joined(b, f.root)
  {
    ghost var a0, b0 := BucketMates(ways, v, 0, 0);
    for i := 1 to |wayIds|
      invariant f.Valid() && Sound(ways, f.root) && Joined(wayIds[..i], f.root)
      invariant forall b :: old(Joined(b, f.root)) ==> Joined(b, f.root)
    {
      ghost var a, b := BucketMates(ways, v, 0, i);
      ghost var before := f.root;
      f.Union(wayIds[0], wayIds[i]);
      MergeSound(ways, before, f.root, a, b);
      MergeKeepsJoined(before, before[a.id], before[b.id]);
      assert wayIds[..i + 1] == wayIds[..i] + [wayIds[i]];
    }
    assert wayIds[..|wayIds|] == wayIds;
  }

  /** Unions the ways of every endpoint node. */
  method JoinWays(ways: seq<Way>) returns (f: Forest)
    requires Valid(ways)
    ensures fresh(f) && f.Valid() && Exact(ways, f.root)
  {
    f := new Forest(ways);
    StartsSound(ways, f.root);
    var index := EndpointIndex(ways);
    for k := 0 to |index.keys|
      invariant fresh(f) && f.Valid() && Sound(ways, f.root)
      invariant forall j :: 0 <= j < k ==> Joined(At(index, index.keys[j]), f.root)
    {
      var v := index.keys[k];
      assert At(index, v) == Bucket(ways, v);
      JoinBucket(f, ways, v, index.buckets[v]);
    }
    forall v ensures Joined(Bucket(ways, v), f.root) {
      assert At(index, v) == Bucket(ways, v);
      if v in index.buckets {
        var j :| 0 <= j < |index.keys| && index.keys[j] == v;
        assert Joined(At(index, index.keys[j]), f.root);
      }
    }
    JoinedIsExact(ways, f.root);
  }
}
