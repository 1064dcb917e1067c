/** Strict total orders, least elements and a stable sort, shared by the other modules.
    The source sorts with JavaScript comparators; here a comparator is a strict total order. */
module Orders {

  ghost predicate StrictTotal<T(!new)>(less: (T, T) -> bool) {
    && (forall x :: !less(x, x))
    && (forall x, y :: x == y || less(x, y) || less(y, x))
    && (forall x, y, z :: less(x, y) && less(y, z) ==> less(x, z))
  }

  ghost predicate IsLeast<T>(less: (T, T) -> bool, m: T, s: set<T>) {
    m in s && forall x :: x in s && x != m ==> less(m, x)
  }

  lemma {:induction false} LeastExists<T(!new)>(less: (T, T) -> bool, s: set<T>) returns (m: T)
    requires StrictTotal(less) && s != {}
    ensures IsLeast(less, m, s)
    decreases |s|
  {
    var x :| x in s;
    m := x;
    if s != {x} {
      assert s == {x} + (s - {x});
      var r := LeastExists(less, s - {x});
      if less(r, x) { m := r; }
      forall y | y in s && y != m ensures less(m, y) {
        if y != x { assert y in s - {x}; }
      }
    }
  }

  /** The first element of the sorted list of distinct members: `[...new Set(a)].sort()[0]`. */
  ghost function Least<T(!new)>(less: (T, T) -> bool, s: set<T>): (m: T)
    requires StrictTotal(less) && s != {}
    ensures IsLeast(less, m, s)
  {
    assert exists m :: IsLeast(less, m, s) by {
      var m := LeastExists(less, s);
    }
    var m :| IsLeast(less, m, s);
    m
  }

  // ---------- stable sorting ----------

  /** The comparators passed to Array.prototype.sort: ties are allowed. */
  ghost predicate StrictWeak<T(!new)>(less: (T, T) -> bool) {
    && (forall x :: !less(x, x))
    && (forall x, y, z :: less(x, y) && less(y, z) ==> less(x, z))
    && (forall x, y, z :: less(x, z) ==> less(x, y) || less(y, z))
  }

  ghost predicate Sorted<T>(less: (T, T) -> bool, s: seq<T>) {
    forall i, j :: 0 <= i < j < |s| ==> !less(s[j], s[i])
  }

  ghost predicate NoDuplicates<T>(s: seq<T>) {
    forall i, j :: 0 <= i < j < |s| ==> s[i] != s[j]
  }

  /** Inserts behind every element that is not greater, which keeps the sort stable. */
  function Insert<T>(less: (T, T) -> bool, s: seq<T>, x: T): seq<T> {
    if s == [] then [x]
    else if less(x, s[|s| - 1]) then Insert(less, s[..|s| - 1], x) + [s[|s| - 1]]
    else s + [x]
  }

  function SortBy<T>(less: (T, T) -> bool, s: seq<T>): seq<T> {
    if s == [] then [] else Insert(less, SortBy(less, s[..|s| - 1]), s[|s| - 1])
  }

  lemma {:induction false} InsertIsPermutation<T>(less: (T, T) -> bool, s: seq<T>, x: T)
    ensures multiset(Insert(less, s, x)) == multiset(s + [x])
  {
    if s == [] {
    } else {
      assert s == s[..|s| - 1] + [s[|s| - 1]];
      InsertIsPermutation(less, s[..|s| - 1], x);
    }
  }

  lemma {:induction false} SortIsPermutation<T>(less: (T, T) -> bool, s: seq<T>)
    ensures multiset(SortBy(less, s)) == multiset(s)
  {
    if s == [] {
    } else {
      assert s == s[..|s| - 1] + [s[|s| - 1]];
      SortIsPermutation(less, s[..|s| - 1]);
      InsertIsPermutation(less, SortBy(less, s[..|s| - 1]), s[|s| - 1]);
    }
  }

  lemma {:induction false} InsertIsSorted<T(!new)>(less: (T, T) -> bool, s: seq<T>, x: T)
    requires StrictWeak(less) && Sorted(less, s)
    ensures Sorted(less, Insert(less, s, x))
  {
    var r := Insert(less, s, x);
    if s != [] {
      var last := s[|s| - 1];
      var front := s[..|s| - 1];
      if less(x, last) {
        InsertIsSorted(less, front, x);
        InsertIsPermutation(less, front, x);
        var q := Insert(less, front, x);
        forall i | 0 <= i < |q| ensures !less(last, q[i]) {
          assert q[i] in multiset(q);
          assert q[i] in multiset(front + [x]);
          assert q[i] in front + [x];
        }
      } else {
        forall i | 0 <= i < |s| ensures !less(x, s[i]) {
          if i < |s| - 1 { assert !less(last, s[i]); }
        }
      }
    }
  }

  lemma {:induction false} SortIsSorted<T(!new)>(less: (T, T) -> bool, s: seq<T>)
    requires StrictWeak(less)
    ensures Sorted(less, SortBy(less, s))
  {
    if s == [] {
    } else {
      SortIsSorted(less, s[..|s| - 1]);
      InsertIsSorted(less, SortBy(less, s[..|s| - 1]), s[|s| - 1]);
    }
  }

  /** Elements that tie stand in ascending rank. */
  ghost predicate Stable<T>(less: (T, T) -> bool, rank: T -> int, s: seq<T>) {
    forall i, j :: 0 <= i < j < |s| && !less(s[i], s[j]) ==> rank(s[i]) < rank(s[j])
  }

  lemma MembersOfInsert<T>(less: (T, T) -> bool, s: seq<T>, x: T, y: T)
    ensures y in Insert(less, s, x) <==> y in s || y == x
  {
    InsertIsPermutation(less, s, x);
    assert y in multiset(Insert(less, s, x)) <==> y in multiset(s + [x]);
  }

  lemma {:induction false} InsertIsStable<T(!new)>(less: (T, T) -> bool, rank: T -> int, s: seq<T>, x: T)
    requires Stable(less, rank, s) && forall y :: y in s ==> rank(y) < rank(x)
    ensures Stable(less, rank, Insert(less, s, x))
  {
    if s == [] {
    } else {
      var front, last := s[..|s| - 1], s[|s| - 1];
      if less(x, last) {
        InsertIsStable(less, rank, front, x);
        var q := Insert(less, front, x);
        forall i | 0 <= i < |q| && !less(q[i], last) ensures rank(q[i]) < rank(last) {
          MembersOfInsert(less, front, x, q[i]);
          var k :| 0 <= k < |front| && front[k] == q[i];
          assert s[k] == q[i];
        }
      }
    }
  }

  /** The sort is stable: elements that tie keep their order. */
  lemma {:induction false} SortIsStable<T(!new)>(less: (T, T) -> bool, rank: T -> int, s: seq<T>)
    requires forall i, j :: 0 <= i < j < |s| ==> rank(s[i]) < rank(s[j])
    ensures Stable(less, rank, SortBy(less, s))
  {
    if s == [] {
    } else {
      var front, last := s[..|s| - 1], s[|s| - 1];
      SortIsStable(less, rank, front);
      SortIsPermutation(less, front);
      SameMembers(SortBy(less, front), front);
      forall y | y in SortBy(less, front) ensures rank(y) < rank(last) {
        assert y in front;
        var k :| 0 <= k < |front| && front[k] == y;
        assert s[k] == y;
      }
      InsertIsStable(less, rank, SortBy(less, front), last);
    }
  }

  lemma SameMembers<T>(s: seq<T>, t: seq<T>)
    requires multiset(s) == multiset(t)
    ensures |s| == |t| && forall x :: x in s <==> x in t
  {
    assert |s| == |multiset(s)| == |multiset(t)| == |t|;
    forall x ensures x in s <==> x in t {
      assert x in multiset(s) <==> x in multiset(t);
    }
  }

  lemma OccursOnce<T>(s: seq<T>, x: T)
    requires NoDuplicates(s) && x in s
    ensures multiset(s)[x] == 1
  {
    var i :| 0 <= i < |s| && s[i] == x;
    assert s == s[..i] + [x] + s[i + 1..];
    assert x !in s[..i] && x !in s[i + 1..];
  }

  lemma NoDuplicatesTransfers<T>(s: seq<T>, t: seq<T>)
    requires multiset(s) == multiset(t) && NoDuplicates(s)
    ensures NoDuplicates(t)
  {
    forall i, j | 0 <= i < j < |t| ensures t[i] != t[j] {
      SameMembers(s, t);
      OccursOnce(s, t[i]);
      assert t == t[..i] + [t[i]] + t[i + 1..j] + [t[j]] + t[j + 1..];
    }
  }

  lemma StrictTotalIsWeak<T(!new)>(less: (T, T) -> bool)
    requires StrictTotal(less)
    ensures StrictWeak(less)
  {
    forall x, y, z | less(x, z) ensures less(x, y) || less(y, z) {
      assert x == y || less(x, y) || less(y, x);
    }
  }

  lemma Counterpart<T>(a: seq<T>, b: seq<T>, y: nat) returns (x: nat)
    requires multiset(a) == multiset(b) && y < |b|
    ensures x < |a| && a[x] == b[y]
  {
    SameMembers(a, b);
    assert b[y] in b;
    x :| x < |a| && a[x] == b[y];
  }

  /** The first element of a sorted list is minimal. */
  lemma SortedHeadIsMinimal<T(!new)>(less: (T, T) -> bool, s: seq<T>)
    requires StrictWeak(less) && s != []
    ensures SortBy(less, s) != [] && SortBy(less, s)[0] in s
    ensures forall y :: y in s ==> !less(y, SortBy(less, s)[0])
  {
    var t := SortBy(less, s);
    SortIsPermutation(less, s);
    SameMembers(t, s);
    SortIsSorted(less, s);
    assert t[0] in t;
    forall y | y in s ensures !less(y, t[0]) {
      assert y in t;
      var k :| 0 <= k < |t| && t[k] == y;
      if k == 0 { assert !less(y, y); }
    }
  }

  /** The rest of a sorted list of distinct elements is everything but the first. */
  lemma SortedTailIsTheRest<T>(less: (T, T) -> bool, s: seq<T>, y: T)
    requires NoDuplicates(s) && s != []
    ensures SortBy(less, s) != [] && |SortBy(less, s)| == |s|
    ensures y in SortBy(less, s)[1..] <==> y in s && y != SortBy(less, s)[0]
  {
    var t := SortBy(less, s);
    SortIsPermutation(less, s);
    SameMembers(t, s);
    NoDuplicatesTransfers(s, t);
    if y in t[1..] {
      var k :| 0 <= k < |t[1..]| && t[1..][k] == y;
      assert t[k + 1] == y && t[k + 1] in t;
    }
    if y in s && y != t[0] {
      assert y in t;
      var k :| 0 <= k < |t| && t[k] == y;
      assert t[1..][k - 1] == y;
    }
  }

  // ---------- strictly sorted lists ----------

  ghost predicate StrictlySorted<T>(before: (T, T) -> bool, s: seq<T>) {
    forall i, j :: 0 <= i < j < |s| ==> before(s[i], s[j])
  }

  ghost predicate Asymmetric<T(!new)>(before: (T, T) -> bool) {
    forall x, y :: before(x, y) ==> !before(y, x)
  }

  lemma NotTheHead<T(!new)>(before: (T, T) -> bool, s: seq<T>, x: T)
    requires Asymmetric(before) && s != [] && StrictlySorted(before, s)
    ensures x in s[1..] <==> x in s && x != s[0]
  {
    assert s == [s[0]] + s[1..];
    if x in s[1..] {
      var i :| 0 <= i < |s[1..]| && s[1..][i] == x;
      assert s[i + 1] == x;
    }
  }

  lemma SomeMember<T>(s: seq<T>)
    ensures s == [] || exists x :: x in s
  {
    assert s != [] ==> s[0] in s;
  }

  /** A set of elements can be listed in strictly ascending order in only one way. */
  lemma {:induction false} StrictlySortedIsUnique<T(!new)>(before: (T, T) -> bool, a: seq<T>, b: seq<T>)
    requires Asymmetric(before) && StrictlySorted(before, a) && StrictlySorted(before, b)
    requires forall x :: x in a <==> x in b
    ensures a == b
    decreases |a|
  {
    if a == [] {
      SomeMember(b);
    } else {
      assert a[0] in b && b[0] in a;
      assert a[0] == b[0];
      forall x ensures x in a[1..] <==> x in b[1..] {
        NotTheHead(before, a, x);
        NotTheHead(before, b, x);
      }
      StrictlySortedIsUnique(before, a[1..], b[1..]);
      assert a == [a[0]] + a[1..] && b == [b[0]] + b[1..];
    }
  }

  // ---------- cardinalities ----------

  lemma SubsetIsSmaller<T>(a: set<T>, b: set<T>)
    requires a <= b
    ensures |a| <= |b| && (|a| == |b| ==> a == b)
  {
    assert b == a + (b - a);
  }
}
