/** authority/lib/unionfind.js: a disjoint-set over keys with path compression and union by size.

    The two Maps `parent` and `size` are updated in place. Two ghost Maps describe them: `rep` names
    the root of every key, `dist` bounds the length of the parent chain from a key to its root, and
    `requests` records every union asked for. */
module UnionFinds {
  import opened Orders

  function Pow2(n: nat): nat {
    if n == 0 then 1 else 2 * Pow2(n - 1)
  }

  // ---------- what the union requests connect ----------

  ghost predicate Adjacent<K>(e: set<(K, K)>, x: K, y: K) {
    (x, y) in e || (y, x) in e
  }

  ghost predicate IsPath<K>(e: set<(K, K)>, p: seq<K>) {
    |p| >= 1 && forall i :: 0 <= i < |p| - 1 ==> Adjacent(e, p[i], p[i + 1])
  }

  /** The reflexive-symmetric-transitive closure of the union requests. */
  ghost predicate Linked<K(!new)>(e: set<(K, K)>, x: K, y: K) {
    exists p :: IsPath(e, p) && p[0] == x && p[|p| - 1] == y
  }

  lemma LinkedRefl<K(!new)>(e: set<(K, K)>, x: K)
    ensures Linked(e, x, x)
  {
    assert IsPath(e, [x]);
  }

  lemma LinkedEdge<K(!new)>(e: set<(K, K)>, x: K, y: K)
    requires Adjacent(e, x, y)
    ensures Linked(e, x, y)
  {
    assert IsPath(e, [x, y]) && [x, y][0] == x && [x, y][|[x, y]| - 1] == y;
  }

  lemma LinkedTrans<K(!new)>(e: set<(K, K)>, x: K, y: K, z: K)
    requires Linked(e, x, y) && Linked(e, y, z)
    ensures Linked(e, x, z)
  {
    var p :| IsPath(e, p) && p[0] == x && p[|p| - 1] == y;
    var q :| IsPath(e, q) && q[0] == y && q[|q| - 1] == z;
    var r := p + q[1..];
    forall i | 0 <= i < |r| - 1 ensures Adjacent(e, r[i], r[i + 1]) {
      if i < |p| - 1 {
      } else if i == |p| - 1 {
        assert r[i] == q[0] && r[i + 1] == q[1];
      } else {
        assert r[i] == q[i - |p| + 1] && r[i + 1] == q[i - |p| + 2];
      }
    }
    assert IsPath(e, r) && r[0] == x && r[|r| - 1] == z;
  }

  lemma LinkedMono<K(!new)>(e: set<(K, K)>, f: set<(K, K)>, x: K, y: K)
    requires e <= f && Linked(e, x, y)
    ensures Linked(f, x, y)
  {
    var p :| IsPath(e, p) && p[0] == x && p[|p| - 1] == y;
    assert IsPath(f, p);
  }

  /** A labelling that every request respects is constant along every path. */
  lemma {:induction false} LabelAlongPath<K(!new), L>(e: set<(K, K)>, mark: map<K, L>, p: seq<K>)
    requires IsPath(e, p) && p[0] in mark
    requires forall x, y :: (x, y) in e ==> x in mark && y in mark && mark[x] == mark[y]
    ensures p[|p| - 1] in mark && mark[p[|p| - 1]] == mark[p[0]]
    decreases |p|
  {
    if |p| == 1 {
    } else {
      assert Adjacent(e, p[0], p[0 + 1]);
      var q := p[1..];
      forall i | 0 <= i < |q| - 1 ensures Adjacent(e, q[i], q[i + 1]) {
        assert Adjacent(e, p[i + 1], p[i + 1 + 1]);
      }
      LabelAlongPath(e, mark, q);
    }
  }

  lemma LabelsRespectLinks<K(!new), L>(e: set<(K, K)>, mark: map<K, L>, x: K, y: K)
    requires Linked(e, x, y) && x in mark
    requires forall a, b :: (a, b) in e ==> a in mark && b in mark && mark[a] == mark[b]
    ensures y in mark && mark[x] == mark[y]
  {
    var p :| IsPath(e, p) && p[0] == x && p[|p| - 1] == y;
    LabelAlongPath(e, mark, p);
  }

  // ---------- the forest invariant ----------

  /** The two Maps of the class with the two ghost Maps that describe them. */
  datatype Shape<K> = Shape(parent: map<K, K>, size: map<K, nat>, rep: map<K, K>, dist: map<K, nat>)

  ghost function Class<K>(rep: map<K, K>, r: K): set<K> {
    set k | k in rep && rep[k] == r
  }

  ghost predicate SameKeys<K>(f: Shape<K>) {
    f.parent.Keys == f.size.Keys == f.rep.Keys == f.dist.Keys
  }

  ghost predicate NodeOk<K>(f: Shape<K>, k: K)
    requires SameKeys(f) && k in f.parent
  {
    && f.parent[k] in f.parent && f.rep[k] in f.parent
    && f.rep[f.parent[k]] == f.rep[k] && f.rep[f.rep[k]] == f.rep[k]
    && (f.parent[k] == k <==> f.rep[k] == k)
    && (f.rep[k] == k ==> f.dist[k] == 0 && f.size[k] == |Class(f.rep, k)|)
    && (f.parent[k] != k ==> f.dist[f.parent[k]] < f.dist[k])
    && Pow2(f.dist[k]) <= f.size[f.rep[k]]
  }

  /** An acyclic parent forest whose roots are `rep`, whose root sizes are class cardinalities and
      whose chains are logarithmic in the class size. */
  ghost predicate Forest<K(!new)>(f: Shape<K>) {
    SameKeys(f) && forall k {:trigger NodeOk(f, k)} :: k in f.parent ==> NodeOk(f, k)
  }

  /** Two keys have one root exactly when the requests connect them. */
  ghost predicate Justified<K(!new)>(rep: map<K, K>, requests: set<(K, K)>) {
    && (forall x, y :: (x, y) in requests ==> x in rep && y in rep)
    && (forall x, y {:trigger Linked(requests, x, y)} ::
          x in rep && y in rep ==> (rep[x] == rep[y] <==> Linked(requests, x, y)))
  }

  function WithNode<K>(f: Shape<K>, k: K): Shape<K> {
    Shape(f.parent[k := k], f.size[k := 1], f.rep[k := k], f.dist[k := 0])
  }

  lemma OldNodeStaysOk<K(!new)>(f: Shape<K>, key: K, k: K)
    requires SameKeys(f) && key !in f.parent && k in f.parent && NodeOk(f, k) && NodeOk(f, f.rep[k])
    ensures SameKeys(WithNode(f, key)) && NodeOk(WithNode(f, key), k)
  {
    var g := WithNode(f, key);
    assert Class(g.rep, k) == Class(f.rep, k);
    assert g.parent[k] == f.parent[k] && g.rep[k] == f.rep[k] && g.dist[k] == f.dist[k];
    assert g.size[k] == f.size[k] && g.size[f.rep[k]] == f.size[f.rep[k]];
  }

  lemma NewNodeIsOk<K(!new)>(f: Shape<K>, key: K)
    requires SameKeys(f) && key !in f.parent && key !in f.rep.Values
    ensures SameKeys(WithNode(f, key)) && NodeOk(WithNode(f, key), key)
  {
    var g := WithNode(f, key);
    forall x ensures x in Class(g.rep, key) <==> x == key {
      assert x in f.rep ==> f.rep[x] in f.rep.Values;
    }
    assert Class(g.rep, key) == {key};
  }

  lemma AddKeepsForest<K(!new)>(f: Shape<K>, key: K)
    requires Forest(f) && key !in f.parent
    ensures Forest(WithNode(f, key))
  {
    var g := WithNode(f, key);
    NotYetARoot(f, key);
    NewNodeIsOk(f, key);
    forall k | k in g.parent ensures NodeOk(g, k) {
      if k != key {
        assert NodeOk(f, k);
        assert NodeOk(f, f.rep[k]);
        OldNodeStaysOk(f, key, k);
      }
    }
  }

  lemma AddKeepsJustified<K(!new)>(rep: map<K, K>, requests: set<(K, K)>, key: K)
    requires Justified(rep, requests) && key !in rep && key !in rep.Values
    ensures Justified(rep[key := key], requests)
  {
    var rep' := rep[key := key];
    forall x, y | (x, y) in requests ensures x in rep' && y in rep' && rep'[x] == rep'[y] {
      assert Adjacent(requests, x, y);
      LinkedEdge(requests, x, y);
    }
    forall x, y | x in rep' && y in rep' ensures rep'[x] == rep'[y] <==> Linked(requests, x, y) {
      if x == y {
        LinkedRefl(requests, x);
      } else {
        if Linked(requests, x, y) {
          LabelsRespectLinks(requests, rep', x, y);
        }
        if rep'[x] == rep'[y] {
          assert x in rep && y in rep && rep[x] == rep[y];
        }
      }
    }
  }

  ghost function Compressed<K>(f: Shape<K>, k: K): Shape<K>
    requires k in f.rep
  {
    f.(parent := f.parent[k := f.rep[k]])
  }

  lemma CompressNode<K(!new)>(f: Shape<K>, k: K, x: K)
    requires SameKeys(f) && k in f.parent && NodeOk(f, k) && f.rep[k] != k
    requires NodeOk(f, f.rep[k]) && x in f.parent && NodeOk(f, x)
    ensures NodeOk(Compressed(f, k), x)
  {
    var g := Compressed(f, k);
    assert g.rep == f.rep && g.size == f.size && g.dist == f.dist;
    if x != k { assert g.parent[x] == f.parent[x]; }
  }

  lemma CompressKeepsForest<K(!new)>(f: Shape<K>, k: K)
    requires Forest(f) && k in f.parent && f.rep[k] != k
    ensures Forest(Compressed(f, k))
  {
    var g := Compressed(f, k);
    assert NodeOk(f, k);
    assert NodeOk(f, f.rep[k]);
    assert g.parent.Keys == f.parent.Keys;
    forall x | x in g.parent ensures NodeOk(g, x) {
      CompressNode(f, k, x);
    }
  }

  function Redirect<K(==)>(rep: map<K, K>, winner: K, loser: K): map<K, K> {
    map k | k in rep :: if rep[k] == loser then winner else rep[k]
  }

  ghost function Deepen<K>(dist: map<K, nat>, rep: map<K, K>, loser: K): map<K, nat>
    requires dist.Keys == rep.Keys
  {
    map k | k in dist :: if rep[k] == loser then dist[k] + 1 else dist[k]
  }

  ghost function Joined<K>(f: Shape<K>, winner: K, loser: K): Shape<K>
    requires SameKeys(f) && winner in f.size && loser in f.size
  {
    Shape(f.parent[loser := winner], f.size[winner := f.size[winner] + f.size[loser]],
          Redirect(f.rep, winner, loser), Deepen(f.dist, f.rep, loser))
  }

  lemma LinkKeepsForest<K(!new)>(f: Shape<K>, winner: K, loser: K)
    requires Forest(f)
    requires winner in f.rep && loser in f.rep && f.rep[winner] == winner && f.rep[loser] == loser && winner != loser
    requires f.size[loser] <= f.size[winner]
    ensures Forest(Joined(f, winner, loser))
  {
    var g := Joined(f, winner, loser);
    assert NodeOk(f, winner) && NodeOk(f, loser);
    assert SameKeys(g);
    assert Class(g.rep, winner) == Class(f.rep, winner) + Class(f.rep, loser);
    assert Class(f.rep, winner) !! Class(f.rep, loser);
    forall k | k in g.parent ensures NodeOk(g, k) {
      assert NodeOk(f, k);
      if k != winner && k != loser && f.rep[k] == k {
        assert Class(g.rep, k) == Class(f.rep, k);
      }
      if f.rep[k] == loser {
        assert Pow2(g.dist[k]) == 2 * Pow2(f.dist[k]);
      }
    }
  }

  lemma {:induction false} LinkKeepsJustified<K(!new)>(rep: map<K, K>, requests: set<(K, K)>, a: K, b: K, winner: K,
      loser: K)
    requires Justified(rep, requests) && a in rep && b in rep
    requires (winner == rep[a] && loser == rep[b]) || (winner == rep[b] && loser == rep[a])
    ensures Justified(Redirect(rep, winner, loser), requests + {(a, b)})
  {
    var rep' := Redirect(rep, winner, loser);
    var more := requests + {(a, b)};
    forall x, y | (x, y) in more ensures x in rep' && y in rep' && rep'[x] == rep'[y] {
      if (x, y) in requests {
        assert Adjacent(requests, x, y);
        LinkedEdge(requests, x, y);
      }
    }
    forall x, y | x in rep' && y in rep' ensures rep'[x] == rep'[y] <==> Linked(more, x, y) {
      if Linked(more, x, y) {
        LabelsRespectLinks(more, rep', x, y);
      }
      if rep'[x] == rep'[y] {
        JoinedAreLinked(rep, requests, a, b, x, y);
      }
    }
  }

  lemma JoinedAreLinked<K(!new)>(rep: map<K, K>, requests: set<(K, K)>, a: K, b: K, x: K, y: K)
    requires Justified(rep, requests) && a in rep && b in rep && x in rep && y in rep
    requires rep[x] == rep[y] || (rep[x] == rep[a] && rep[y] == rep[b]) || (rep[x] == rep[b] && rep[y] == rep[a])
    ensures Linked(requests + {(a, b)}, x, y)
  {
    var more := requests + {(a, b)};
    assert Adjacent(more, a, b) && Adjacent(more, b, a);
    LinkedEdge(more, a, b);
    LinkedEdge(more, b, a);
    if rep[x] == rep[y] {
      assert Linked(requests, x, y);
      LinkedMono(requests, more, x, y);
    } else if rep[x] == rep[a] {
      assert Linked(requests, x, a) && Linked(requests, b, y);
      LinkedMono(requests, more, x, a);
      LinkedMono(requests, more, b, y);
      LinkedTrans(more, x, a, b);
      LinkedTrans(more, x, b, y);
    } else {
      assert Linked(requests, x, b) && Linked(requests, a, y);
      LinkedMono(requests, more, x, b);
      LinkedMono(requests, more, a, y);
      LinkedTrans(more, x, b, a);
      LinkedTrans(more, x, a, y);
    }
  }

  // ---------- the parent chain ----------

  /** How many parent steps separate a key from its root. */
  ghost function ChainLength<K(!new)>(f: Shape<K>, k: K): nat
    requires Forest(f) && k in f.parent
    decreases (assert NodeOk(f, k); f.dist[k])
  {
    assert NodeOk(f, k);
    if f.parent[k] == k then 0 else assert NodeOk(f, f.parent[k]); 1 + ChainLength(f, f.parent[k])
  }

  lemma {:induction false} ChainWithinDist<K(!new)>(f: Shape<K>, k: K)
    requires Forest(f) && k in f.parent
    ensures ChainLength(f, k) <= f.dist[k]
    decreases f.dist[k]
  {
    assert NodeOk(f, k);
    if f.parent[k] != k {
      ChainWithinDist(f, f.parent[k]);
    }
  }

  lemma {:induction false} Pow2Mono(a: nat, b: nat)
    requires a <= b
    ensures Pow2(a) <= Pow2(b)
    decreases b
  {
    if a == b {
    } else {
      Pow2Mono(a, b - 1);
    }
  }

  /** Every chain is at most log2 of its class: 2^length <= |class|. */
  lemma ChainIsLogarithmic<K(!new)>(f: Shape<K>, k: K)
    requires Forest(f) && k in f.parent
    ensures Pow2(ChainLength(f, k)) <= |Class(f.rep, f.rep[k])|
  {
    assert NodeOk(f, k);
    assert NodeOk(f, f.rep[k]);
    ChainWithinDist(f, k);
    Pow2Mono(ChainLength(f, k), f.dist[k]);
  }

  // ---------- choosing the root of a union ----------

  /** The root kept by `union`: the root of the larger class, the smaller key between equals. */
  function Winner<K(==)>(less: (K, K) -> bool, size: map<K, nat>, ra: K, rb: K): (w: K)
    requires ra in size && rb in size
    ensures w == ra || w == rb
    ensures size[w] >= size[ra] && size[w] >= size[rb]
  {
    if size[ra] < size[rb] || (size[ra] == size[rb] && less(rb, ra)) then rb else ra
  }

  /** The order of the arguments of a union never decides its root. */
  lemma WinnerIgnoresArgumentOrder<K(!new)>(less: (K, K) -> bool, size: map<K, nat>, ra: K, rb: K)
    requires StrictTotal(less) && ra in size && rb in size
    ensures Winner(less, size, ra, rb) == Winner(less, size, rb, ra)
  {
    assert ra == rb || less(ra, rb) || less(rb, ra);
    assert less(ra, rb) && less(rb, ra) ==> less(ra, ra);
  }

  // ---------- the class ----------

  function WithKey<K>(rep: map<K, K>, k: K): map<K, K> {
    if k in rep then rep else rep[k := k]
  }

  function WithSize<K>(size: map<K, nat>, k: K): map<K, nat> {
    if k in size then size else size[k := 1]
  }

  /** What a union does to the representatives and the sizes. */
  ghost predicate UnionEffect<K>(less: (K, K) -> bool, rep: map<K, K>, size: map<K, nat>, a: K, b: K,
                                 rep': map<K, K>, size': map<K, nat>, root: K)
  {
    && a in rep && b in rep && rep[a] in size && rep[b] in size
    && var ra, rb := rep[a], rep[b];
    && root == Winner(less, size, ra, rb)
    && rep' == Redirect(rep, root, if root == ra then rb else ra)
    && size' == if ra == rb then size else size[root := size[ra] + size[rb]]
  }

  lemma AttachHasUnionEffect<K(!new)>(less: (K, K) -> bool, rep: map<K, K>, size: map<K, nat>, a: K, b: K, winner: K,
      loser: K)
    requires a in rep && b in rep && rep[a] in size && rep[b] in size && rep[a] != rep[b]
    requires winner == Winner(less, size, rep[a], rep[b])
    requires loser == if winner == rep[a] then rep[b] else rep[a]
    ensures UnionEffect(less, rep, size, a, b, Redirect(rep, winner, loser),
            size[winner := size[winner] + size[loser]], winner)
  {
  }

  lemma RepeatHasUnionEffect<K(!new)>(less: (K, K) -> bool, rep: map<K, K>, size: map<K, nat>, a: K, b: K)
    requires a in rep && b in rep && rep[a] == rep[b] && rep[a] in size
    ensures UnionEffect(less, rep, size, a, b, rep, size, rep[a])
  {
    assert Redirect(rep, rep[a], rep[a]) == rep;
  }

  /** After a union its two arguments share the returned root, and no key but they is new. */
  lemma UnionEffectJoins<K(!new)>(less: (K, K) -> bool, rep: map<K, K>, size: map<K, nat>, a: K, b: K,
                                  rep': map<K, K>, size': map<K, nat>, root: K)
    requires UnionEffect(less, WithKey(WithKey(rep, a), b), size, a, b, rep', size', root)
    ensures rep'.Keys == rep.Keys + {a, b} && rep'[a] == rep'[b] == root
  {
    assert WithKey(WithKey(rep, a), b).Keys == rep.Keys + {a, b};
  }

  lemma RootsAreRoots<K(!new)>(f: Shape<K>, a: K, b: K)
    requires Forest(f) && a in f.parent && b in f.parent
    ensures f.rep[a] in f.parent && f.rep[b] in f.parent && f.rep[f.rep[a]] == f.rep[a] && f.rep[f.rep[b]] == f.rep[b]
  {
    assert NodeOk(f, a) && NodeOk(f, b);
  }

  /** Hanging one root below another keeps everything. */
  lemma LinkedShape<K(!new)>(f: Shape<K>, requests: set<(K, K)>, a: K, b: K, winner: K, loser: K) returns (g: Shape<K>)
    requires Forest(f) && Justified(f.rep, requests) && a in f.rep && b in f.rep && winner != loser
    requires (winner == f.rep[a] && loser == f.rep[b]) || (winner == f.rep[b] && loser == f.rep[a])
    requires winner in f.size && loser in f.size && f.size[loser] <= f.size[winner]
    ensures g.parent == f.parent[loser := winner] && g.size == f.size[winner := f.size[winner] + f.size[loser]]
    ensures g.rep == Redirect(f.rep, winner, loser) && Forest(g) && Justified(g.rep, requests + {(a, b)})
  {
    RootsAreRoots(f, a, b);
    LinkKeepsForest(f, winner, loser);
    LinkKeepsJustified(f.rep, requests, a, b, winner, loser);
    g := Joined(f, winner, loser);
  }

  lemma NotYetARoot<K(!new)>(f: Shape<K>, key: K)
    requires Forest(f) && key !in f.parent
    ensures key !in f.rep.Values
  {
    forall k | k in f.rep ensures f.rep[k] != key {
      assert NodeOk(f, k);
    }
  }

  lemma RepeatedRequest<K(!new)>(rep: map<K, K>, requests: set<(K, K)>, a: K, b: K)
    requires Justified(rep, requests) && a in rep && b in rep && rep[a] == rep[b]
    ensures Justified(rep, requests + {(a, b)}) && Redirect(rep, rep[a], rep[b]) == rep
  {
    LinkKeepsJustified(rep, requests, a, b, rep[a], rep[b]);
    assert Redirect(rep, rep[a], rep[b]) == rep;
  }

  class UnionFind<K(==, !new)> {
    const less: (K, K) -> bool
    var parent: map<K, K>
    var size: map<K, nat>
    ghost var shape: Shape<K>
    ghost var requests: set<(K, K)>

    ghost predicate Valid()
      reads this
    {
      shape.parent == parent && shape.size == size && Forest(shape) && Justified(shape.rep, requests)
    }

    constructor (less: (K, K) -> bool)
      ensures Valid() && shape.rep == map[] && size == map[] && requests == {} && this.less == less
    {
      this.less := less;
      parent, size, requests := map[], map[], {};
      shape := Shape(map[], map[], map[], map[]);
    }

    method Add(key: K)
      requires Valid()
      modifies this
      ensures Valid() && requests == old(requests)
      ensures shape == if key in old(parent) then old(shape) else WithNode(old(shape), key)
    {
      if key !in parent {
        AddKeepsForest(shape, key);
        NotYetARoot(shape, key);
        AddKeepsJustified(shape.rep, requests, key);
        parent := parent[key := key];
        size := size[key := 1];
        shape := WithNode(shape, key);
      }
    }

    /** Returns the root of the class of `key`; compression changes no representative and no size,
        and the walk took at most log2 of the class size. */
    method Find(key: K) returns (root: K, ghost steps: nat)
      requires Valid()
      modifies this
      ensures Valid() && requests == old(requests)
      ensures shape.rep == WithKey(old(shape.rep), key) && size == WithSize(old(size), key)
      ensures key in shape.rep && root in shape.rep && root == shape.rep[key] == shape.rep[root]
      ensures root in parent && parent[root] == root && parent[key] == root
      ensures Pow2(steps) <= |Class(shape.rep, root)|
    {
      Add(key);
      root := key;
      steps := 0;
      while parent[root] != root
        invariant root in parent && shape.rep[root] == shape.rep[key]
        invariant steps + ChainLength(shape, root) == ChainLength(shape, key)
        decreases shape.dist[root]
      {
        assert NodeOk(shape, root);
        root := parent[root];
        steps := steps + 1;
      }
      assert NodeOk(shape, root);
      ChainIsLogarithmic(shape, key);
      Compress(key, root);
    }

    /** The second loop of `find`: every node on the way is redirected to the root. */
    method Compress(key: K, root: K)
      requires Valid() && key in parent && root in parent && shape.rep[key] == root && parent[root] == root
      modifies this
      ensures Valid() && requests == old(requests) && parent.Keys == old(parent.Keys)
      ensures shape.rep == old(shape.rep) && size == old(size)
      ensures root in parent && parent[root] == root && parent[key] == root
    {
      var cur := key;
      while parent[cur] != root
        invariant Valid() && shape.rep == old(shape.rep) && size == old(size) && requests == old(requests)
        invariant parent.Keys == old(parent.Keys)
        invariant cur in parent && root in parent && shape.rep[cur] == root && parent[root] == root
        invariant cur == key || parent[key] == root
        decreases shape.dist[cur]
      {
        var next := parent[cur];
        assert NodeOk(shape, cur);
        CompressKeepsForest(shape, cur);
        parent := parent[cur := root];
        shape := Compressed(shape, cur);
        cur := next;
      }
    }

    method Store(parent': map<K, K>, size': map<K, nat>, ghost shape': Shape<K>, ghost requests': set<(K, K)>)
      modifies this
      ensures parent == parent' && size == size' && shape == shape' && requests == requests'
    {
      parent, size, shape, requests := parent', size', shape', requests';
    }

    /** The last three statements of `union`, for two different roots. */
    method Attach(winner: K, loser: K, ghost a: K, ghost b: K)
      requires Valid() && a in shape.rep && b in shape.rep && winner != loser
      requires (winner == shape.rep[a] && loser == shape.rep[b]) || (winner == shape.rep[b] && loser == shape.rep[a])
      requires winner in size && loser in size && size[loser] <= size[winner]
      modifies this
      ensures Valid() && requests == old(requests) + {(a, b)}
      ensures shape.rep == Redirect(old(shape.rep), winner, loser)
      ensures size == old(size)[winner := old(size)[winner] + old(size)[loser]]
    {
      ghost var next := LinkedShape(shape, requests, a, b, winner, loser);
      Store(parent[loser := winner], size[winner := size[winner] + size[loser]], next, requests + {(a, b)});
    }

    /** The first two statements of `union`. */
    method FindPair(a: K, b: K) returns (ra: K, rb: K)
      requires Valid()
      modifies this
      ensures Valid() && requests == old(requests)
      ensures shape.rep == WithKey(WithKey(old(shape.rep), a), b) && size == WithSize(WithSize(old(size), a), b)
      ensures a in shape.rep && b in shape.rep && ra == shape.rep[a] && rb == shape.rep[b] && ra in size && rb in size
    {
      ghost var steps;
      ra, steps := Find(a);
      rb, steps := Find(b);
      assert NodeOk(shape, a);
    }

    /** A request for two keys that share a root already. */
    ghost method Repeat(a: K, b: K)
      requires Valid() && a in shape.rep && b in shape.rep && shape.rep[a] == shape.rep[b]
      modifies this`requests
      ensures Valid() && requests == old(requests) + {(a, b)}
    {
      RepeatedRequest(shape.rep, requests, a, b);
      requests := requests + {(a, b)};
    }

    /** The rest of `union` for two different roots: the smaller class goes below the larger one. */
    method JoinRoots(ra: K, rb: K, ghost a: K, ghost b: K) returns (root: K)
      requires Valid() && a in shape.rep && b in shape.rep && ra == shape.rep[a] && rb == shape.rep[b] && ra != rb
      requires ra in size && rb in size
      modifies this
      ensures Valid() && requests == old(requests) + {(a, b)}
      ensures UnionEffect(less, old(shape.rep), old(size), a, b, shape.rep, size, root)
    {
      var loser := rb;
      root := ra;
      if size[ra] < size[rb] || (size[ra] == size[rb] && less(rb, ra)) {
        root, loser := rb, ra;
      }
      AttachHasUnionEffect(less, shape.rep, size, a, b, root, loser);
      Attach(root, loser, a, b);
    }

    /** Unites the classes of `a` and `b` and returns the root they share from then on. */
    method Union(a: K, b: K) returns (root: K)
      requires Valid()
      modifies this
      ensures Valid() && requests == old(requests) + {(a, b)}
      ensures UnionEffect(less, WithKey(WithKey(old(shape.rep), a), b), WithSize(WithSize(old(size), a), b), a, b,
              shape.rep, size, root)
    {
      var ra, rb := FindPair(a, b);
      if ra == rb {
        RepeatHasUnionEffect(less, shape.rep, size, a, b);
        Repeat(a, b);
        return ra;
      }
      root := JoinRoots(ra, rb, a, b);
    }
  }

  // ---------- whole runs ----------

  datatype Op<K> = AddOp(key: K) | FindOp(key: K) | UnionOp(a: K, b: K)

  /** The pairs that a sequence of calls asks to unite. */
  ghost function UnionsOf<K>(ops: seq<Op<K>>): set<(K, K)> {
    set i | 0 <= i < |ops| && ops[i].UnionOp? :: (ops[i].a, ops[i].b)
  }

  lemma UnionsOfOneMore<K>(ops: seq<Op<K>>, n: nat)
    requires n < |ops|
    ensures UnionsOf(ops[..n + 1]) == UnionsOf(ops[..n]) + if ops[n].UnionOp? then {(ops[n].a, ops[n].b)} else {}
  {
    var more, less := UnionsOf(ops[..n + 1]), UnionsOf(ops[..n]);
    forall p | p in more ensures p in less || (ops[n].UnionOp? && p == (ops[n].a, ops[n].b)) {
      var i :| 0 <= i < n + 1 && ops[..n + 1][i].UnionOp? && p == (ops[..n + 1][i].a, ops[..n + 1][i].b);
      if i < n { assert ops[..n][i] == ops[i]; }
    }
    forall p | p in less ensures p in more {
      var i :| 0 <= i < n && ops[..n][i].UnionOp? && p == (ops[..n][i].a, ops[..n][i].b);
      assert ops[..n + 1][i] == ops[i];
    }
    if ops[n].UnionOp? { assert ops[..n + 1][n] == ops[n]; }
  }

  /** The representatives and the sizes, which decide everything that `union` does. */
  datatype Partition<!K> = Partition(rep: map<K, K>, size: map<K, nat>)

  function WithMember<K>(p: Partition<K>, k: K): Partition<K> {
    Partition(WithKey(p.rep, k), WithSize(p.size, k))
  }

  ghost predicate RootOk<K>(rep: map<K, K>, k: K) {
    k in rep ==> rep[k] in rep && rep[rep[k]] == rep[k]
  }

  ghost predicate RootsOk<K(!new)>(rep: map<K, K>) {
    forall k {:trigger RootOk(rep, k)} :: RootOk(rep, k)
  }

  ghost predicate PartitionOk<K(!new)>(p: Partition<K>) {
    p.rep.Keys == p.size.Keys && RootsOk(p.rep)
  }

  lemma WithMemberIsOk<K(!new)>(p: Partition<K>, k: K)
    requires PartitionOk(p)
    ensures PartitionOk(WithMember(p, k)) && k in WithMember(p, k).rep
  {
    var q := WithMember(p, k);
    forall x ensures RootOk(q.rep, x) {
      assert RootOk(p.rep, x);
    }
  }

  lemma RedirectIsOk<K(!new)>(rep: map<K, K>, winner: K, loser: K)
    requires RootsOk(rep) && winner in rep && loser in rep && rep[winner] == winner && rep[loser] == loser
    ensures RootsOk(Redirect(rep, winner, loser))
  {
    var rep' := Redirect(rep, winner, loser);
    forall x ensures RootOk(rep', x) {
      assert RootOk(rep, x);
    }
  }

  /** The partition after one call. */
  ghost function AfterOp<K(!new)>(less: (K, K) -> bool, p: Partition<K>, op: Op<K>): (q: Partition<K>)
    requires PartitionOk(p)
    ensures PartitionOk(q)
  {
    match op
    case AddOp(k) => WithMemberIsOk(p, k); WithMember(p, k)
    case FindOp(k) => WithMemberIsOk(p, k); WithMember(p, k)
    case UnionOp(a, b) => WithPairIsOk(p, a, b); Merged(less, WithMember(WithMember(p, a), b), a, b)
  }

  lemma WithPairIsOk<K(!new)>(p: Partition<K>, a: K, b: K)
    requires PartitionOk(p)
    ensures var q := WithMember(WithMember(p, a), b); PartitionOk(q) && a in q.rep && b in q.rep
  {
    WithMemberIsOk(p, a);
    WithMemberIsOk(WithMember(p, a), b);
  }

  function Other<K(==)>(x: K, y: K, chosen: K): K {
    if chosen == x then y else x
  }

  ghost function Merged<K(!new)>(less: (K, K) -> bool, p: Partition<K>, a: K, b: K): (q: Partition<K>)
    requires PartitionOk(p) && a in p.rep && b in p.rep
    ensures PartitionOk(q)
  {
    assert RootOk(p.rep, a) && RootOk(p.rep, b);
    var ra, rb := p.rep[a], p.rep[b];
    var root := Winner(less, p.size, ra, rb);
    RedirectIsOk(p.rep, root, Other(ra, rb, root));
    Partition(Redirect(p.rep, root, Other(ra, rb, root)),
        if ra == rb then p.size else p.size[root := p.size[ra] + p.size[rb]])
  }

  /** The partition after the first `n` calls on a fresh structure. */
  ghost function PartitionAt<K(!new)>(less: (K, K) -> bool, ops: seq<Op<K>>, n: nat): (p: Partition<K>)
    requires n <= |ops|
    ensures PartitionOk(p)
  {
    if n == 0 then Partition(map[], map[]) else AfterOp(less, PartitionAt(less, ops, n - 1), ops[n - 1])
  }

  /** A union as the object performs it has the effect of the abstract call. */
  lemma UnionIsMerged<K(!new)>(less: (K, K) -> bool, p: Partition<K>, a: K, b: K, rep: map<K, K>, size: map<K, nat>,
      root: K)
    requires PartitionOk(p) && UnionEffect(less, WithKey(WithKey(p.rep, a), b), WithSize(WithSize(p.size, a), b), a,
             b, rep, size, root)
    ensures Partition(rep, size) == AfterOp(less, p, UnionOp(a, b))
  {
  }

  /** Any calls in any order, on a fresh structure: it is valid, its requests are the unions, and its
      representatives and sizes are those that the calls determine. */
  method Replay<K(==, !new)>(less: (K, K) -> bool, ops: seq<Op<K>>) returns (uf: UnionFind<K>)
    ensures fresh(uf) && uf.Valid() && uf.requests == UnionsOf(ops)
    ensures Partition(uf.shape.rep, uf.size) == PartitionAt(less, ops, |ops|)
  {
    uf := new UnionFind(less);
    for n := 0 to |ops|
      invariant fresh(uf) && uf.Valid() && uf.requests == UnionsOf(ops[..n]) && uf.less == less
      invariant Partition(uf.shape.rep, uf.size) == PartitionAt(less, ops, n)
    {
      UnionsOfOneMore(ops, n);
      Perform(uf, ops[n], PartitionAt(less, ops, n));
    }
    assert ops[..|ops|] == ops;
  }

  method Perform<K(==, !new)>(uf: UnionFind<K>, op: Op<K>, ghost p: Partition<K>)
    requires uf.Valid() && PartitionOk(p) && p == Partition(uf.shape.rep, uf.size)
    modifies uf
    ensures uf.Valid() && uf.requests == old(uf.requests) + if op.UnionOp? then {(op.a, op.b)} else {}
    ensures Partition(uf.shape.rep, uf.size) == AfterOp(uf.less, p, op)
  {
    match op {
      case AddOp(k) => uf.Add(k);
      case FindOp(k) =>
        var root;
        ghost var steps;
        root, steps := uf.Find(k);
      case UnionOp(a, b) =>
        var root := uf.Union(a, b);
        UnionIsMerged(uf.less, p, a, b, uf.shape.rep, uf.size, root);
    }
  }

  // ---------- the promise of the header comment ----------

  /** Every representative is the least key of its set. */
  ghost predicate LeastRoots<K(!new)>(less: (K, K) -> bool, rep: map<K, K>) {
    forall k :: k in rep ==> IsLeast(less, rep[k], Class(rep, rep[k]))
  }

  /** The same, key by key. */
  ghost predicate NotBelowRoot<K>(less: (K, K) -> bool, rep: map<K, K>, k: K) {
    k in rep ==> k == rep[k] || less(rep[k], k)
  }

  lemma LeastRootsElementwise<K(!new)>(less: (K, K) -> bool, rep: map<K, K>)
    requires RootsOk(rep)
    ensures LeastRoots(less, rep) <==> forall k {:trigger NotBelowRoot(less, rep, k)} :: NotBelowRoot(less, rep, k)
  {
    if LeastRoots(less, rep) {
      forall k ensures NotBelowRoot(less, rep, k) {
        assert k in rep ==> k in Class(rep, rep[k]);
      }
    }
    if forall k {:trigger NotBelowRoot(less, rep, k)} :: NotBelowRoot(less, rep, k) {
      forall k | k in rep ensures IsLeast(less, rep[k], Class(rep, rep[k])) {
        assert RootOk(rep, k);
        forall x | x in Class(rep, rep[k]) && x != rep[k] ensures less(rep[k], x) {
          assert NotBelowRoot(less, rep, x);
        }
      }
    }
  }

  lemma NewKeyKeepsLeastRootsIff<K(!new)>(less: (K, K) -> bool, p: Partition<K>, key: K)
    requires PartitionOk(p)
    ensures PartitionOk(WithMember(p, key)) && (LeastRoots(less, WithMember(p, key).rep) <==> LeastRoots(less, p.rep))
  {
    WithMemberIsOk(p, key);
    var rep := WithMember(p, key).rep;
    LeastRootsElementwise(less, p.rep);
    LeastRootsElementwise(less, rep);
    forall k ensures NotBelowRoot(less, rep, k) <==> NotBelowRoot(less, p.rep, k) {
    }
  }

  /** Merging two classes keeps every root least exactly when the root that stays is the lesser one. */
  lemma RedirectKeepsLeastRootsIff<K(!new)>(less: (K, K) -> bool, rep: map<K, K>, winner: K, loser: K)
    requires StrictTotal(less) && RootsOk(rep) && LeastRoots(less, rep)
    requires winner in rep && loser in rep && rep[winner] == winner && rep[loser] == loser
    ensures LeastRoots(less, Redirect(rep, winner, loser)) <==> winner == loser || less(winner, loser)
  {
    var rep' := Redirect(rep, winner, loser);
    RedirectIsOk(rep, winner, loser);
    LeastRootsElementwise(less, rep);
    LeastRootsElementwise(less, rep');
    if LeastRoots(less, rep') {
      assert NotBelowRoot(less, rep', loser);
    }
    if winner == loser || less(winner, loser) {
      forall k ensures NotBelowRoot(less, rep', k) {
        assert NotBelowRoot(less, rep, k);
      }
    }
  }

  lemma LesserRootWinsIff<K(!new)>(less: (K, K) -> bool, size: map<K, nat>, ra: K, rb: K)
    requires StrictTotal(less) && ra in size && rb in size
    ensures var root := Winner(less, size, ra, rb);
            var other := Other(ra, rb, root);
            (root == other || less(root, other)) <==> !LargerWins(less, size, ra, rb)
  {
    assert ra == rb || less(ra, rb) || less(rb, ra);
    assert less(ra, rb) && less(rb, ra) ==> less(ra, ra);
  }

  /** The greater of two roots stays because its class is strictly larger. */
  ghost predicate LargerWins<K>(less: (K, K) -> bool, size: map<K, nat>, ra: K, rb: K)
    requires ra in size && rb in size
  {
    (less(ra, rb) && size[ra] < size[rb]) || (less(rb, ra) && size[rb] < size[ra])
  }

  /** The call is a union that hangs the lesser root below the root of a strictly larger class. */
  ghost predicate HangsLesserRoot<K(!new)>(less: (K, K) -> bool, p: Partition<K>, op: Op<K>)
    requires PartitionOk(p)
  {
    op.UnionOp? && PairHangs(less, p, op.a, op.b)
  }

  ghost predicate PairHangs<K(!new)>(less: (K, K) -> bool, p: Partition<K>, a: K, b: K)
    requires PartitionOk(p)
  {
    WithPairIsOk(p, a, b);
    var q := WithMember(WithMember(p, a), b);
    assert RootOk(q.rep, a) && RootOk(q.rep, b);
    LargerWins(less, q.size, q.rep[a], q.rep[b])
  }

  lemma MergeKeepsLeastRootsIff<K(!new)>(less: (K, K) -> bool, p: Partition<K>, a: K, b: K)
    requires StrictTotal(less) && PartitionOk(p) && LeastRoots(less, p.rep) && a in p.rep && b in p.rep
    ensures p.rep[a] in p.size && p.rep[b] in p.size
    ensures LeastRoots(less, Merged(less, p, a, b).rep) <==> !LargerWins(less, p.size, p.rep[a], p.rep[b])
  {
    assert RootOk(p.rep, a) && RootOk(p.rep, b);
    var ra, rb := p.rep[a], p.rep[b];
    var root := Winner(less, p.size, ra, rb);
    RedirectKeepsLeastRootsIff(less, p.rep, root, Other(ra, rb, root));
    LesserRootWinsIff(less, p.size, ra, rb);
  }

  /** When every set has its least key as representative, a call keeps this so exactly when it does not
      hang a lesser root below the root of a strictly larger class. */
  lemma OpKeepsLeastRootsIff<K(!new)>(less: (K, K) -> bool, p: Partition<K>, op: Op<K>)
    requires StrictTotal(less) && PartitionOk(p) && LeastRoots(less, p.rep)
    ensures LeastRoots(less, AfterOp(less, p, op).rep) <==> !HangsLesserRoot(less, p, op)
  {
    match op {
      case AddOp(k) => NewKeyKeepsLeastRootsIff(less, p, k);
      case FindOp(k) => NewKeyKeepsLeastRootsIff(less, p, k);
      case UnionOp(a, b) =>
        WithPairIsOk(p, a, b);
        NewKeyKeepsLeastRootsIff(less, p, a);
        NewKeyKeepsLeastRootsIff(less, WithMember(p, a), b);
        MergeKeepsLeastRootsIff(less, WithMember(WithMember(p, a), b), a, b);
    }
  }

  /** After the first `n` calls every set has its least key as representative. */
  ghost predicate LeastAt<K(!new)>(less: (K, K) -> bool, ops: seq<Op<K>>, n: nat) {
    n <= |ops| && LeastRoots(less, PartitionAt(less, ops, n).rep)
  }

  /** The call after the first `n` hangs a lesser root below the root of a strictly larger class. */
  ghost predicate HangsAt<K(!new)>(less: (K, K) -> bool, ops: seq<Op<K>>, n: nat) {
    n < |ops| && HangsLesserRoot(less, PartitionAt(less, ops, n), ops[n])
  }

  lemma LeastAtNextIff<K(!new)>(less: (K, K) -> bool, ops: seq<Op<K>>, n: nat)
    requires StrictTotal(less) && n < |ops| && LeastAt(less, ops, n)
    ensures LeastAt(less, ops, n + 1) <==> !HangsAt(less, ops, n)
  {
    OpKeepsLeastRootsIff(less, PartitionAt(less, ops, n), ops[n]);
  }

  lemma {:induction false} LeastUntilHung<K(!new)>(less: (K, K) -> bool, ops: seq<Op<K>>, n: nat)
    requires StrictTotal(less) && n <= |ops| && forall m: nat :: m < n ==> !HangsAt(less, ops, m)
    ensures LeastAt(less, ops, n)
  {
    if n == 0 {
    } else {
      LeastUntilHung(less, ops, n - 1);
      LeastAtNextIff(less, ops, n - 1);
    }
  }

  /** The header comment promises the least key of every set as its representative, whatever the calls.
      Over a run that holds at all times exactly when no union hangs a lesser root below the root of a
      strictly larger class. */
  lemma LeastRootsAlwaysIff<K(!new)>(less: (K, K) -> bool, ops: seq<Op<K>>)
    requires StrictTotal(less)
    ensures (forall n: nat :: n <= |ops| ==> LeastAt(less, ops, n))
            <==> (forall n: nat :: n < |ops| ==> !HangsAt(less, ops, n))
  {
    if forall n: nat :: n <= |ops| ==> LeastAt(less, ops, n) {
      forall n: nat | n < |ops| ensures !HangsAt(less, ops, n) {
        assert LeastAt(less, ops, n) && LeastAt(less, ops, n + 1);
        LeastAtNextIff(less, ops, n);
      }
    }
    if forall n: nat :: n < |ops| ==> !HangsAt(less, ops, n) {
      forall n: nat | n <= |ops| ensures LeastAt(less, ops, n) {
        LeastUntilHung(less, ops, n);
      }
    }
  }

  /** After any calls whatsoever, two keys, known or not, have one root exactly when the calls link them. */
  method SameRoot<K(==, !new)>(less: (K, K) -> bool, ops: seq<Op<K>>, a: K, b: K) returns (same: bool)
    ensures same <==> Linked(UnionsOf(ops), a, b)
  {
    var uf := Replay(less, ops);
    var ra, rb;
    ghost var m, n;
    ra, m := uf.Find(a);
    rb, n := uf.Find(b);
    same := ra == rb;
  }

  /** A run of the code that breaks the header comment: uniting 1 with 2 and then 0 with 1 keeps
      the root 1 although 0 is the least key of the set. */
  method RepresentativeNeedNotBeLeast() returns (root: int, members: set<int>)
    ensures members == {0, 1, 2} && root == 1
  {
    var uf := new UnionFind<int>((x, y) => x < y);
    root := uf.Union(1, 2);
    root := uf.Union(0, 1);
    members := uf.parent.Keys;
  }
}
