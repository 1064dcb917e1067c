/** authority/build.js sections 2 and 3: union-find over shared strong identifiers, and the grouping
    of records by root. */
module Merge {
  import opened Orders
  import opened Records
  import opened UnionFinds

  /** A union-find key: the record `rec:<source>:<i>` or the identifier `<scheme>:<value>`. */
  datatype Node = RecNode(i: nat) | IdNode(s: Scheme, v: string)

  // ---------- the specification: chains of shared identifiers ----------

  ghost predicate Shares(records: seq<SourceRecord>, i: nat, j: nat) {
    i < |records| && j < |records| &&
    exists s: Scheme :: s in records[i].ids && s in records[j].ids && records[i].ids[s] == records[j].ids[s]
  }

  ghost predicate IsChain(records: seq<SourceRecord>, c: seq<nat>) {
    |c| >= 1 && forall k :: 0 <= k < |c| - 1 ==> Shares(records, c[k], c[k + 1])
  }

  /** Some chain of records, each sharing a strong identifier with the next, joins `i` to `j`. */
  ghost predicate SameOrganisation(records: seq<SourceRecord>, i: nat, j: nat) {
    exists c :: IsChain(records, c) && c[0] == i && c[|c| - 1] == j
  }

  lemma SameOrganisationRefl(records: seq<SourceRecord>, i: nat)
    ensures SameOrganisation(records, i, i)
  {
    assert IsChain(records, [i]);
  }

  lemma SameOrganisationStep(records: seq<SourceRecord>, i: nat, j: nat, k: nat)
    requires SameOrganisation(records, i, j) && Shares(records, j, k)
    ensures SameOrganisation(records, i, k)
  {
    var c :| IsChain(records, c) && c[0] == i && c[|c| - 1] == j;
    var d := c + [k];
    forall t | 0 <= t < |d| - 1 ensures Shares(records, d[t], d[t + 1]) {
      if t < |c| - 1 { assert d[t + 1] == c[t + 1]; }
    }
    assert IsChain(records, d) && d[0] == i && d[|d| - 1] == k;
  }

  // ---------- the union requests of the merge loop ----------

  ghost function Requests(records: seq<SourceRecord>, n: nat): set<(Node, Node)>
    requires n <= |records|
  {
    set i, s | 0 <= i < n && s in records[i].ids :: (RecNode(i), IdNode(s, records[i].ids[s]))
  }

  lemma RequestIs(records: seq<SourceRecord>, i: nat, s: Scheme)
    requires i < |records| && s in records[i].ids
    ensures (RecNode(i), IdNode(s, records[i].ids[s])) in Requests(records, |records|)
  {
  }

  lemma ShareLinksNodes(records: seq<SourceRecord>, i: nat, j: nat)
    requires Shares(records, i, j)
    ensures Linked(Requests(records, |records|), RecNode(i), RecNode(j))
  {
    var e := Requests(records, |records|);
    var s: Scheme :| s in records[i].ids && s in records[j].ids && records[i].ids[s] == records[j].ids[s];
    var id := IdNode(s, records[i].ids[s]);
    RequestIs(records, i, s);
    RequestIs(records, j, s);
    LinkedEdge(e, RecNode(i), id);
    LinkedEdge(e, id, RecNode(j));
    LinkedTrans(e, RecNode(i), id, RecNode(j));
  }

  lemma {:induction false} ChainLinksNodes(records: seq<SourceRecord>, c: seq<nat>)
    requires IsChain(records, c)
    ensures Linked(Requests(records, |records|), RecNode(c[0]), RecNode(c[|c| - 1]))
    decreases |c|
  {
    var e := Requests(records, |records|);
    if |c| == 1 {
      LinkedRefl(e, RecNode(c[0]));
    } else {
      var d := c[..|c| - 1];
      forall k | 0 <= k < |d| - 1 ensures Shares(records, d[k], d[k + 1]) {
        assert Shares(records, c[k], c[k + 1]);
      }
      ChainLinksNodes(records, d);
      assert Shares(records, c[|c| - 2], c[|c| - 2 + 1]);
      ShareLinksNodes(records, c[|c| - 2], c[|c| - 1]);
      LinkedTrans(e, RecNode(c[0]), RecNode(c[|c| - 2]), RecNode(c[|c| - 1]));
    }
  }

  /** A node that a path of requests from record `i` can reach. */
  ghost predicate ReachedFrom(records: seq<SourceRecord>, i: nat, x: Node) {
    match x
    case RecNode(j) => j < |records| && SameOrganisation(records, i, j)
    case IdNode(s, v) => exists j: nat ::
        j < |records| && s in records[j].ids && records[j].ids[s] == v && SameOrganisation(records, i, j)
  }

  lemma ReachedStep(records: seq<SourceRecord>, i: nat, x: Node, y: Node)
    requires ReachedFrom(records, i, x) && Adjacent(Requests(records, |records|), x, y)
    ensures ReachedFrom(records, i, y)
  {
    if (y, x) in Requests(records, |records|) {
      var j: nat :| j < |records| && x.s in records[j].ids && records[j].ids[x.s] == x.v
          && SameOrganisation(records, i, j);
      assert Shares(records, j, y.i);
      SameOrganisationStep(records, i, j, y.i);
    } else {
      assert (x, y) in Requests(records, |records|);
    }
  }

  lemma {:induction false} PathReaches(records: seq<SourceRecord>, i: nat, p: seq<Node>)
    requires i < |records| && IsPath(Requests(records, |records|), p) && p[0] == RecNode(i)
    ensures ReachedFrom(records, i, p[|p| - 1])
    decreases |p|
  {
    if |p| == 1 {
      SameOrganisationRefl(records, i);
    } else {
      var q := p[..|p| - 1];
      forall k | 0 <= k < |q| - 1 ensures Adjacent(Requests(records, |records|), q[k], q[k + 1]) {
        assert Adjacent(Requests(records, |records|), p[k], p[k + 1]);
      }
      PathReaches(records, i, q);
      assert Adjacent(Requests(records, |records|), p[|p| - 2], p[|p| - 2 + 1]);
      ReachedStep(records, i, p[|p| - 2], p[|p| - 1]);
    }
  }

  /** Two records are linked by union requests exactly when identifiers chain them together. */
  lemma RequestsLinkOrganisations(records: seq<SourceRecord>, i: nat, j: nat)
    requires i < |records| && j < |records|
    ensures Linked(Requests(records, |records|), RecNode(i), RecNode(j)) <==> SameOrganisation(records, i, j)
  {
    var e := Requests(records, |records|);
    if Linked(e, RecNode(i), RecNode(j)) {
      var p :| IsPath(e, p) && p[0] == RecNode(i) && p[|p| - 1] == RecNode(j);
      PathReaches(records, i, p);
    }
    if SameOrganisation(records, i, j) {
      var c :| IsChain(records, c) && c[0] == i && c[|c| - 1] == j;
      ChainLinksNodes(records, c);
    }
  }

  // ---------- the merge loop ----------

  ghost function RecordRequests(i: nat, ids: map<Scheme, string>, schemes: seq<Scheme>): set<(Node, Node)> {
    set s | s in schemes && s in ids :: (RecNode(i), IdNode(s, ids[s]))
  }

  method RequestUnion(uf: UnionFind<Node>, a: Node, b: Node)
    requires uf.Valid()
    modifies uf
    ensures uf.Valid() && uf.requests == old(uf.requests) + {(a, b)}
    ensures uf.shape.rep.Keys == old(uf.shape.rep).Keys + {a, b}
  {
    ghost var rep0, size0 := uf.shape.rep, WithSize(WithSize(uf.size, a), b);
    var root := uf.Union(a, b);
    UnionEffectJoins(uf.less, rep0, size0, a, b, uf.shape.rep, uf.size, root);
  }

  /** One iteration of the merge loop; `schemes` is the order in which the keys are tried. */
  method MergeRecord(uf: UnionFind<Node>, i: nat, ids: map<Scheme, string>, schemes: seq<Scheme>)
    requires uf.Valid()
    modifies uf
    ensures uf.Valid() && uf.requests == old(uf.requests) + RecordRequests(i, ids, schemes)
    ensures old(uf.shape.rep).Keys <= uf.shape.rep.Keys && RecNode(i) in uf.shape.rep.Keys
  {
    uf.Add(RecNode(i));
    for t := 0 to |schemes|
      invariant uf.Valid() && uf.requests == old(uf.requests) + RecordRequests(i, ids, schemes[..t])
      invariant old(uf.shape.rep).Keys <= uf.shape.rep.Keys && RecNode(i) in uf.shape.rep.Keys
    {
      var s := schemes[t];
      RequestsGrow(old(uf.requests), i, ids, schemes, t);
      if s in ids {
        RequestUnion(uf, RecNode(i), IdNode(s, ids[s]));
      }
    }
    assert schemes[..|schemes|] == schemes;
  }

  lemma RequestsGrow(earlier: set<(Node, Node)>, i: nat, ids: map<Scheme, string>, schemes: seq<Scheme>, t: nat)
    requires t < |schemes|
    ensures earlier + RecordRequests(i, ids, schemes[..t + 1]) ==
            earlier + RecordRequests(i, ids, schemes[..t]) +
            if schemes[t] in ids then {(RecNode(i), IdNode(schemes[t], ids[schemes[t]]))} else {}
  {
    assert schemes[..t + 1] == schemes[..t] + [schemes[t]];
  }

  lemma RecordRequestsCoverRecord(records: seq<SourceRecord>, i: nat)
    requires i < |records|
    ensures Requests(records, i + 1) == Requests(records, i) + RecordRequests(i, records[i].ids, SCHEMES)
  {
    forall s: Scheme ensures s in SCHEMES {
      EverySchemeIsListed(s);
    }
  }

  method MergeRecords(records: seq<SourceRecord>, less: (Node, Node) -> bool) returns (uf: UnionFind<Node>)
    ensures fresh(uf) && uf.Valid() && uf.requests == Requests(records, |records|)
    ensures forall i: nat :: i < |records| ==> RecNode(i) in uf.shape.rep.Keys
  {
    uf := new UnionFind<Node>(less);
    for i := 0 to |records|
      invariant fresh(uf) && uf.Valid() && uf.requests == Requests(records, i)
      invariant forall j: nat :: j < i ==> RecNode(j) in uf.shape.rep.Keys
    {
      MergeRecord(uf, i, records[i].ids, SCHEMES);
      RecordRequestsCoverRecord(records, i);
    }
  }

  // ---------- the grouping loop ----------

  /** The records below `n` whose root is `r`, in source order. */
  function Members(rep: map<Node, Node>, n: nat, r: Node): seq<nat>
    requires forall i: nat :: i < n ==> RecNode(i) in rep
  {
    if n == 0 then []
    else if rep[RecNode(n - 1)] == r then Members(rep, n - 1, r) + [n - 1]
    else Members(rep, n - 1, r)
  }

  lemma {:induction false} MembersAre(rep: map<Node, Node>, n: nat, r: Node, i: nat)
    requires forall k: nat :: k < n ==> RecNode(k) in rep
    ensures i in Members(rep, n, r) <==> i < n && rep[RecNode(i)] == r
  {
    if n == 0 {
    } else {
      MembersAre(rep, n - 1, r, i);
    }
  }

  lemma {:induction false} MembersAscend(rep: map<Node, Node>, n: nat, r: Node)
    requires forall k: nat :: k < n ==> RecNode(k) in rep
    ensures Ascending(Members(rep, n, r))
  {
    if n == 0 {
    } else {
      MembersAscend(rep, n - 1, r);
      var m := Members(rep, n - 1, r);
      forall a | 0 <= a < |m| ensures m[a] < n - 1 {
        MembersAre(rep, n - 1, r, m[a]);
      }
    }
  }

  ghost predicate Ascending(g: seq<nat>) {
    forall a, b :: 0 <= a < b < |g| ==> g[a] < g[b]
  }

  ghost predicate InSomeGroup(groups: seq<seq<nat>>, i: nat) {
    exists g :: 0 <= g < |groups| && i in groups[g]
  }

  /** The groups hold every record once, and a group is a whole class of `SameOrganisation`. */
  ghost predicate IsGrouping(records: seq<SourceRecord>, groups: seq<seq<nat>>) {
    && (forall g :: 0 <= g < |groups| ==> groups[g] != [] && Ascending(groups[g]))
    && (forall g, i :: 0 <= g < |groups| && i in groups[g] ==> i < |records|)
    && (forall i: nat :: i < |records| ==> InSomeGroup(groups, i))
    && (forall g, h, i, j :: 0 <= g < |groups| && 0 <= h < |groups| && i in groups[g] && j in groups[h] ==>
          (g == h <==> SameOrganisation(records, i, j)))
  }

  ghost predicate RootsListed(rep: map<Node, Node>, n: nat, order: seq<Node>, groups: map<Node, seq<nat>>)
    requires forall i: nat :: i < n ==> RecNode(i) in rep
  {
    && (forall a, b :: 0 <= a < b < |order| ==> order[a] != order[b])
    && (forall r :: r in order <==> r in groups)
    && (forall r :: r in groups ==> groups[r] == Members(rep, n, r) && groups[r] != [])
    && (forall i: nat :: i < n ==> rep[RecNode(i)] in groups)
  }

  /** Each group starts with a later record than the group listed before it. */
  ghost predicate ListedAscend(order: seq<Node>, groups: map<Node, seq<nat>>)
    requires forall r :: r in order ==> r in groups && groups[r] != []
  {
    forall a, b :: 0 <= a < b < |order| ==> groups[order[a]][0] < groups[order[b]][0]
  }

  ghost predicate FirstsAscend(groups: seq<seq<nat>>) {
    && (forall g :: 0 <= g < |groups| ==> groups[g] != [])
    && (forall g, h :: 0 <= g < h < |groups| ==> groups[g][0] < groups[h][0])
  }

  lemma FirstsStay(rep: map<Node, Node>, i: nat, order: seq<Node>, groups: map<Node, seq<nat>>)
    requires forall k: nat :: k <= i ==> RecNode(k) in rep
    requires RootsListed(rep, i, order, groups) && ListedAscend(order, groups)
    ensures var root := rep[RecNode(i)];
            && (root in groups ==> ListedAscend(order, groups[root := groups[root] + [i]]))
            && (root !in groups ==> ListedAscend(order + [root], groups[root := [i]]))
  {
    var root := rep[RecNode(i)];
    if root !in groups {
      forall a | 0 <= a < |order| ensures groups[order[a]][0] < i {
        MembersAre(rep, i, order[a], groups[order[a]][0]);
        assert groups[order[a]][0] in groups[order[a]];
      }
    }
  }

  /** The grouping loop: a Map from root to records, with its keys in insertion order. */
  method GroupByRoot(uf: UnionFind<Node>, n: nat) returns (order: seq<Node>, groups: map<Node, seq<nat>>)
    requires uf.Valid() && forall i: nat :: i < n ==> RecNode(i) in uf.shape.rep.Keys
    modifies uf
    ensures uf.Valid() && uf.shape.rep == old(uf.shape.rep) && uf.requests == old(uf.requests)
    ensures RootsListed(uf.shape.rep, n, order, groups) && ListedAscend(order, groups)
  {
    order, groups := [], map[];
    for i := 0 to n
      invariant uf.Valid() && uf.shape.rep == old(uf.shape.rep) && uf.requests == old(uf.requests)
      invariant RootsListed(uf.shape.rep, i, order, groups) && ListedAscend(order, groups)
    {
      var root, _ := uf.Find(RecNode(i));
      FirstsStay(uf.shape.rep, i, order, groups);
      GroupStep(uf.shape.rep, i, order, groups);
      order, groups := PushMember(order, groups, root, i);
    }
  }

  method PushMember(order: seq<Node>, groups: map<Node, seq<nat>>, root: Node, i: nat)
      returns (order': seq<Node>, groups': map<Node, seq<nat>>)
    ensures root in groups ==> order' == order && groups' == groups[root := groups[root] + [i]]
    ensures root !in groups ==> order' == order + [root] && groups' == groups[root := [i]]
  {
    order', groups' := order, groups;
    if root !in groups' {
      groups' := groups'[root := []];
      order' := order' + [root];
    }
    assert groups'[root] + [i] == if root in groups then groups[root] + [i] else [i];
    groups' := groups'[root := groups'[root] + [i]];
  }

  function Listed(order: seq<Node>, groups: map<Node, seq<nat>>): (grouped: seq<seq<nat>>)
    requires forall r :: r in order ==> r in groups
    ensures |grouped| == |order| && forall k :: 0 <= k < |order| ==>
            order[k] in groups && grouped[k] == groups[order[k]]
  {
    seq(|order|, k requires 0 <= k < |order| => assert order[k] in order; groups[order[k]])
  }

  method GroupRecords(records: seq<SourceRecord>, uf: UnionFind<Node>) returns (grouped: seq<seq<nat>>)
    requires uf.Valid() && uf.requests == Requests(records, |records|)
    requires forall i: nat :: i < |records| ==> RecNode(i) in uf.shape.rep.Keys
    modifies uf
    ensures uf.Valid() && uf.shape.rep == old(uf.shape.rep)
    ensures IsGrouping(records, grouped) && FirstsAscend(grouped)
  {
    var order, groups := GroupByRoot(uf, |records|);
    grouped := Listed(order, groups);
    GroupingFollows(records, uf.shape.rep, order, groups, grouped);
  }

  lemma GroupStep(rep: map<Node, Node>, i: nat, order: seq<Node>, groups: map<Node, seq<nat>>)
    requires forall k: nat :: k <= i ==> RecNode(k) in rep
    requires RootsListed(rep, i, order, groups)
    ensures var root := rep[RecNode(i)];
            && (root in groups ==> RootsListed(rep, i + 1, order, groups[root := groups[root] + [i]]))
            && (root !in groups ==> RootsListed(rep, i + 1, order + [root], groups[root := [i]]))
  {
    var root := rep[RecNode(i)];
    if root !in groups {
      NoEarlierMember(rep, i, root, groups);
    }
  }

  lemma NoEarlierMember(rep: map<Node, Node>, n: nat, r: Node, groups: map<Node, seq<nat>>)
    requires forall i: nat :: i < n ==> RecNode(i) in rep && rep[RecNode(i)] in groups
    requires r !in groups
    ensures Members(rep, n, r) == []
  {
    if Members(rep, n, r) != [] {
      MembersAre(rep, n, r, Members(rep, n, r)[0]);
      assert false;
    }
  }

  lemma GroupingFollows(records: seq<SourceRecord>, rep: map<Node, Node>, order: seq<Node>,
                        groups: map<Node, seq<nat>>, grouped: seq<seq<nat>>)
    requires forall i: nat :: i < |records| ==> RecNode(i) in rep
    requires RootsListed(rep, |records|, order, groups) && Justified(rep, Requests(records, |records|))
    requires |grouped| == |order| && forall k :: 0 <= k < |order| ==>
             order[k] in groups && grouped[k] == groups[order[k]]
    ensures IsGrouping(records, grouped)
  {
    forall g | 0 <= g < |grouped| ensures grouped[g] != [] && Ascending(grouped[g]) {
      MembersAscend(rep, |records|, order[g]);
    }
    forall g, i | 0 <= g < |grouped| && i in grouped[g] ensures i < |records| {
      MembersAre(rep, |records|, order[g], i);
    }
    forall i: nat | i < |records| ensures InSomeGroup(grouped, i) {
      RootIsAGroup(rep, |records|, order, groups, grouped, i);
    }
    forall g, h, i, j | 0 <= g < |grouped| && 0 <= h < |grouped| && i in grouped[g] && j in grouped[h]
      ensures g == h <==> SameOrganisation(records, i, j)
    {
      MembersAre(rep, |records|, order[g], i);
      MembersAre(rep, |records|, order[h], j);
      SameRootSameOrganisation(records, rep, i, j);
    }
  }

  lemma RootIsAGroup(rep: map<Node, Node>, n: nat, order: seq<Node>, groups: map<Node, seq<nat>>,
                     grouped: seq<seq<nat>>, i: nat)
    requires forall i: nat :: i < n ==> RecNode(i) in rep
    requires RootsListed(rep, n, order, groups) && i < n
    requires |grouped| == |order| && forall k :: 0 <= k < |order| ==>
             order[k] in groups && grouped[k] == groups[order[k]]
    ensures InSomeGroup(grouped, i)
  {
    var r := rep[RecNode(i)];
    assert r in order;
    var g :| 0 <= g < |order| && order[g] == r;
    MembersAre(rep, n, r, i);
    assert i in grouped[g];
  }

  lemma SameRootSameOrganisation(records: seq<SourceRecord>, rep: map<Node, Node>, i: nat, j: nat)
    requires i < |records| && j < |records| && RecNode(i) in rep && RecNode(j) in rep
    requires Justified(rep, Requests(records, |records|))
    ensures rep[RecNode(i)] == rep[RecNode(j)] <==> SameOrganisation(records, i, j)
  {
    RequestsLinkOrganisations(records, i, j);
    assert Linked(Requests(records, |records|), RecNode(i), RecNode(j)) <==> rep[RecNode(i)] == rep[RecNode(j)];
  }

  /** Re-sorting the list of organisations keeps it a grouping. */
  lemma ReorderedGrouping(records: seq<SourceRecord>, a: seq<seq<nat>>, b: seq<seq<nat>>)
    requires IsGrouping(records, a) && multiset(a) == multiset(b)
    ensures IsGrouping(records, b)
  {
    SameMembers(a, b);
    forall g, h | 0 <= g < h < |a| ensures a[g] != a[h] {
      SameOrganisationRefl(records, a[g][0]);
      assert a[g][0] in a[g];
    }
    NoDuplicatesTransfers(a, b);
    forall g | 0 <= g < |b| ensures b[g] in a {
      assert b[g] in b;
    }
    forall i: nat | i < |records| ensures InSomeGroup(b, i) {
      assert InSomeGroup(a, i);
      var g :| 0 <= g < |a| && i in a[g];
      assert a[g] in b;
    }
    forall g, h, i, j | 0 <= g < |b| && 0 <= h < |b| && i in b[g] && j in b[h]
      ensures g == h <==> SameOrganisation(records, i, j)
    {
      var g' :| 0 <= g' < |a| && a[g'] == b[g];
      var h' :| 0 <= h' < |a| && a[h'] == b[h];
      assert g' == h' <==> SameOrganisation(records, i, j);
    }
  }

  /** Every group of two different lists for the same records is a class of the same relation. */
  lemma MembersOfAGroup(records: seq<SourceRecord>, groups: seq<seq<nat>>, g: nat, i: nat, j: nat)
    requires IsGrouping(records, groups) && g < |groups| && i in groups[g] && j < |records|
    ensures j in groups[g] <==> SameOrganisation(records, i, j)
  {
    assert InSomeGroup(groups, j);
    var h :| 0 <= h < |groups| && j in groups[h];
  }
}
