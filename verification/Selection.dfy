/** `selectSample` of sample-candidates.js: the floor pass and the category fill, both drawing on the
    same category capacities. */
module Selection {
  import opened Orders
  import opened Apportionment
  import Identity

  datatype Dimension = PostcodeCompleteness | NameDivergence | NameAmbiguity | EntityForm | UrbanRural | Region

  type Classes = m: map<Dimension, string> | forall d: Dimension :: d in m
    witness map d: Dimension | true :: ""

  /** A classified candidate; `regNo` is its normalised registration number, empty if it has none, and
      `index` its place in the pool. */
  datatype Candidate = Candidate(index: nat, regNo: string, category: Category, classes: Classes)

  datatype Spec = Spec(name: string, dimension: Dimension, states: seq<string>, target: nat)

  const FLOOR_SPECS: seq<Spec> := [
    Spec("POSTCODE_MISSING_OR_PARTIAL", PostcodeCompleteness, ["POSTCODE_MISSING", "POSTCODE_PARTIAL"], 10),
    Spec("NAME_DIVERGENT", NameDivergence, ["NAME_DIVERGENT"], 20),
    Spec("HIGHLY_GENERIC", NameAmbiguity, ["HIGHLY_GENERIC"], 15),
    Spec("MODERATELY_AMBIGUOUS", NameAmbiguity, ["MODERATELY_AMBIGUOUS"], 15),
    Spec("DISTINCTIVE", NameAmbiguity, ["DISTINCTIVE"], 15),
    Spec("CORPORATE_FORM", EntityForm, ["CORPORATE_FORM"], 15),
    Spec("SOLE_TRADER_OR_OTHER", EntityForm, ["SOLE_TRADER_OR_OTHER"], 15),
    Spec("RURAL", UrbanRural, ["RURAL"], 10)]

  /** The key under which a candidate is selected. */
  function SelectedKey(r: Candidate): string {
    r.regNo + "#" + Identity.Decimal(r.index)
  }

  /** The last '#' separates the parts. */
  lemma NotShorter(a: string, da: string, b: string, db: string)
    requires a + "#" + da == b + "#" + db && forall i :: 0 <= i < |da| ==> da[i] != '#'
    ensures |a| >= |b|
  {
    var key := a + "#" + da;
    forall i | |a| < i < |key| ensures key[i] != '#' {
      assert key[i] == da[i - |a| - 1];
    }
    assert (b + "#" + db)[|b|] == '#';
  }

  /** Two candidates share a key only if they share the registration number and the place in the pool,
      whatever characters the number contains. */
  lemma SelectedKeyIsInjective(a: Candidate, b: Candidate)
    requires SelectedKey(a) == SelectedKey(b)
    ensures a.regNo == b.regNo && a.index == b.index
  {
    var da, db := Identity.Decimal(a.index), Identity.Decimal(b.index);
    Identity.DecimalIsDigits(a.index);
    Identity.DecimalIsDigits(b.index);
    NotShorter(a.regNo, da, b.regNo, db);
    NotShorter(b.regNo, db, a.regNo, da);
    var key := SelectedKey(a);
    assert a.regNo == key[..|a.regNo|] && b.regNo == key[..|b.regNo|];
    assert da == key[|a.regNo| + 1..] && db == key[|b.regNo| + 1..];
    Identity.DecimalIsInjective(a.index, b.index);
  }

  // ---------- counting ----------

  datatype Test = OfCategory(c: Category) | OfSpec(s: Spec)

  predicate Meets(t: Test, r: Candidate) {
    match t
    case OfCategory(c) => r.category == c
    case OfSpec(s) => r.classes[s.dimension] in s.states
  }

  function Count(t: Test, list: seq<Candidate>): nat {
    if list == [] then 0
    else Count(t, list[..|list| - 1]) + if Meets(t, list[|list| - 1]) then 1 else 0
  }

  lemma CountOneMore(t: Test, list: seq<Candidate>, r: Candidate)
    ensures Count(t, list + [r]) == Count(t, list) + if Meets(t, r) then 1 else 0
  {
    assert (list + [r])[..|list|] == list;
  }

  function Matching(t: Test, list: seq<Candidate>): set<Candidate> {
    set r | r in list && Meets(t, r)
  }

  lemma MatchingOneMore(t: Test, list: seq<Candidate>)
    requires list != []
    ensures Matching(t, list) == Matching(t, list[..|list| - 1])
            + if Meets(t, list[|list| - 1]) then {list[|list| - 1]} else {}
  {
    var front, last := list[..|list| - 1], list[|list| - 1];
    forall r ensures r in list <==> r in front || r == last {
      assert list == front + [last];
    }
  }

  lemma {:induction false} CountIsCardinality(t: Test, list: seq<Candidate>)
    requires NoDuplicates(list)
    ensures Count(t, list) == |Matching(t, list)|
  {
    if list == [] {
    } else {
      var front, last := list[..|list| - 1], list[|list| - 1];
      CountIsCardinality(t, front);
      assert last !in front;
      MatchingOneMore(t, list);
    }
  }

  lemma CountOfSubset(t: Test, a: seq<Candidate>, b: seq<Candidate>)
    requires NoDuplicates(a) && NoDuplicates(b) && forall r :: r in a && Meets(t, r) ==> r in b
    ensures Count(t, a) <= Count(t, b)
  {
    CountIsCardinality(t, a);
    CountIsCardinality(t, b);
    SubsetIsSmaller(Matching(t, a), Matching(t, b));
  }

  lemma SameCounts(t: Test, a: seq<Candidate>, b: seq<Candidate>)
    requires NoDuplicates(a) && multiset(a) == multiset(b)
    ensures Count(t, a) == Count(t, b)
  {
    NoDuplicatesTransfers(a, b);
    SameMembers(a, b);
    CountOfSubset(t, a, b);
    CountOfSubset(t, b, a);
  }

  function CountTable(list: seq<Candidate>): Table {
    map c: Category | true :: Count(OfCategory(c), list)
  }

  lemma {:induction false} CountsByCategory(list: seq<Candidate>)
    ensures Total(CountTable(list)) == |list|
  {
    if list == [] {
    } else {
      var front, last := list[..|list| - 1], list[|list| - 1];
      CountsByCategory(front);
      assert list == front + [last];
      TotalAfterAdd(CountTable(front), last.category, 1);
    }
  }

  // ---------- selections built one eligible candidate at a time ----------

  /** Not selected yet, and its category still has capacity. */
  predicate Open(targets: Table, sel: seq<Candidate>, r: Candidate) {
    r !in sel && Count(OfCategory(r.category), sel) < targets[r.category]
  }

  ghost predicate BuiltAt(pool: seq<Candidate>, targets: Table, sel: seq<Candidate>, k: nat)
    requires k < |sel|
  {
    sel[k] in pool && Open(targets, sel[..k], sel[k])
  }

  /** Every candidate was open when it was added. */
  ghost predicate WellBuilt(pool: seq<Candidate>, targets: Table, sel: seq<Candidate>) {
    forall k: nat {:trigger BuiltAt(pool, targets, sel, k)} :: k < |sel| ==> BuiltAt(pool, targets, sel, k)
  }

  lemma BuildOn(pool: seq<Candidate>, targets: Table, sel: seq<Candidate>, r: Candidate)
    requires WellBuilt(pool, targets, sel) && r in pool && Open(targets, sel, r)
    ensures WellBuilt(pool, targets, sel + [r])
  {
    var more := sel + [r];
    forall k: nat | k < |more| ensures BuiltAt(pool, targets, more, k) {
      if k < |sel| {
        assert BuiltAt(pool, targets, sel, k) && more[..k] == sel[..k];
      } else {
        assert more[..k] == sel;
      }
    }
  }

  lemma WellBuiltPrefix(pool: seq<Candidate>, targets: Table, sel: seq<Candidate>, n: nat)
    requires WellBuilt(pool, targets, sel) && n <= |sel|
    ensures WellBuilt(pool, targets, sel[..n])
  {
    var front := sel[..n];
    forall k: nat | k < n ensures BuiltAt(pool, targets, front, k) {
      assert BuiltAt(pool, targets, sel, k) && front[..k] == sel[..k];
    }
  }

  lemma {:induction false} WellBuiltIsDistinct(pool: seq<Candidate>, targets: Table, sel: seq<Candidate>)
    requires WellBuilt(pool, targets, sel)
    ensures NoDuplicates(sel) && forall r :: r in sel ==> r in pool
    ensures forall c: Category :: Count(OfCategory(c), sel) <= if targets[c] >= 0 then targets[c] else 0
  {
    if sel == [] {
    } else {
      var n := |sel| - 1;
      WellBuiltPrefix(pool, targets, sel, n);
      WellBuiltIsDistinct(pool, targets, sel[..n]);
      assert sel == sel[..n] + [sel[n]];
      assert BuiltAt(pool, targets, sel, n);
      forall c: Category ensures Count(OfCategory(c), sel) <= if targets[c] >= 0 then targets[c] else 0 {
        CountOneMore(OfCategory(c), sel[..n], sel[n]);
      }
    }
  }

  lemma {:induction false} CountGrows(t: Test, sel: seq<Candidate>, n: nat)
    requires n <= |sel|
    ensures Count(t, sel[..n]) <= Count(t, sel)
  {
    if n < |sel| {
      CountGrows(t, sel[..|sel| - 1], n);
      assert sel[..|sel| - 1][..n] == sel[..n];
    } else {
      assert sel[..n] == sel;
    }
  }

  /** Nothing in the pool can be added for this floor any more. */
  ghost predicate Stuck(pool: seq<Candidate>, targets: Table, s: Spec, sel: seq<Candidate>) {
    forall r :: r in pool && Meets(OfSpec(s), r) ==> !Open(targets, sel, r)
  }

  /** Capacities only shrink: a floor that is stuck stays stuck, and its count never changes again. */
  lemma {:induction false} StuckForGood(pool: seq<Candidate>, targets: Table, s: Spec, sel: seq<Candidate>, n: nat)
    requires n <= |sel| && WellBuilt(pool, targets, sel) && Stuck(pool, targets, s, sel[..n])
    ensures Stuck(pool, targets, s, sel) && Count(OfSpec(s), sel) == Count(OfSpec(s), sel[..n])
  {
    if n == |sel| {
      assert sel[..n] == sel;
    } else {
      var m := |sel| - 1;
      WellBuiltPrefix(pool, targets, sel, m);
      assert sel[..m][..n] == sel[..n];
      StuckForGood(pool, targets, s, sel[..m], n);
      assert BuiltAt(pool, targets, sel, m);
      assert sel == sel[..m] + [sel[m]];
      forall r | r in pool && Meets(OfSpec(s), r) ensures !Open(targets, sel, r) {
        CountOneMore(OfCategory(r.category), sel[..m], sel[m]);
      }
    }
  }

  // ---------- pass 1: the floors ----------

  /** The first candidate of the sorted pool, from a position on, that can be added for a floor. */
  function NextPick(pool: seq<Candidate>, targets: Table, s: Spec, sel: seq<Candidate>, from: nat): (i: nat)
    requires from <= |pool|
    ensures from <= i <= |pool|
    ensures i < |pool| ==> Meets(OfSpec(s), pool[i]) && Open(targets, sel, pool[i])
    ensures forall k :: from <= k < i ==> !(Meets(OfSpec(s), pool[k]) && Open(targets, sel, pool[k]))
    decreases |pool| - from
  {
    if from == |pool| || (Meets(OfSpec(s), pool[from]) && Open(targets, sel, pool[from])) then from
    else NextPick(pool, targets, s, sel, from + 1)
  }

  /** Adds the first eligible candidate until the floor is reached or none is left. */
  function FillFloor(pool: seq<Candidate>, targets: Table, s: Spec, sel: seq<Candidate>): seq<Candidate>
    decreases s.target - Count(OfSpec(s), sel)
  {
    var i := NextPick(pool, targets, s, sel, 0);
    if Count(OfSpec(s), sel) >= s.target || i == |pool| then sel
    else
      CountOneMore(OfSpec(s), sel, pool[i]);
      FillFloor(pool, targets, s, sel + [pool[i]])
  }

  function FillFloors(pool: seq<Candidate>, targets: Table, specs: seq<Spec>, n: nat): seq<Candidate>
    requires n <= |specs|
  {
    if n == 0 then [] else FillFloor(pool, targets, specs[n - 1], FillFloors(pool, targets, specs, n - 1))
  }

  /** The floor is met, or nothing more can be added for it. */
  ghost predicate Settled(pool: seq<Candidate>, targets: Table, s: Spec, sel: seq<Candidate>) {
    Count(OfSpec(s), sel) >= s.target || Stuck(pool, targets, s, sel)
  }

  lemma {:induction false} FillFloorSettles(pool: seq<Candidate>, targets: Table, s: Spec, sel: seq<Candidate>)
    requires WellBuilt(pool, targets, sel)
    ensures var more := FillFloor(pool, targets, s, sel);
            WellBuilt(pool, targets, more) && sel <= more && Settled(pool, targets, s, more)
    decreases s.target - Count(OfSpec(s), sel)
  {
    var i := NextPick(pool, targets, s, sel, 0);
    if Count(OfSpec(s), sel) < s.target && i < |pool| {
      CountOneMore(OfSpec(s), sel, pool[i]);
      BuildOn(pool, targets, sel, pool[i]);
      FillFloorSettles(pool, targets, s, sel + [pool[i]]);
      assert sel <= sel + [pool[i]];
    }
  }

  /** A settled floor stays settled, on the same side. */
  lemma SettledForGood(pool: seq<Candidate>, targets: Table, s: Spec, sel: seq<Candidate>, more: seq<Candidate>)
    requires WellBuilt(pool, targets, more) && sel <= more && Settled(pool, targets, s, sel)
    ensures Settled(pool, targets, s, more)
    ensures Count(OfSpec(s), more) < s.target <==> Count(OfSpec(s), sel) < s.target
    ensures Count(OfSpec(s), more) < s.target ==> Count(OfSpec(s), more) == Count(OfSpec(s), sel)
  {
    assert more[..|sel|] == sel;
    CountGrows(OfSpec(s), more, |sel|);
    if Count(OfSpec(s), sel) < s.target { StuckForGood(pool, targets, s, more, |sel|); }
  }

  /** Earlier floors stay settled while the next one is filled. */
  lemma NextFloorKeeps(pool: seq<Candidate>, targets: Table, specs: seq<Spec>, n: nat, i: nat)
    requires i <= n < |specs| && WellBuilt(pool, targets, FillFloors(pool, targets, specs, n))
    requires i < n ==> Settled(pool, targets, specs[i], FillFloors(pool, targets, specs, n))
    ensures Settled(pool, targets, specs[i], FillFloors(pool, targets, specs, n + 1))
  {
    var sel := FillFloors(pool, targets, specs, n);
    FillFloorSettles(pool, targets, specs[n], sel);
    if i < n { SettledForGood(pool, targets, specs[i], sel, FillFloor(pool, targets, specs[n], sel)); }
  }

  lemma {:induction false} FloorsBuild(pool: seq<Candidate>, targets: Table, specs: seq<Spec>, n: nat)
    requires n <= |specs|
    ensures WellBuilt(pool, targets, FillFloors(pool, targets, specs, n))
  {
    if n == 0 {
    } else {
      FloorsBuild(pool, targets, specs, n - 1);
      FillFloorSettles(pool, targets, specs[n - 1], FillFloors(pool, targets, specs, n - 1));
    }
  }

  lemma {:induction false} FloorIsSettled(pool: seq<Candidate>, targets: Table, specs: seq<Spec>, n: nat, i: nat)
    requires i < n <= |specs|
    ensures Settled(pool, targets, specs[i], FillFloors(pool, targets, specs, n))
  {
    var m := n - 1;
    FloorsBuild(pool, targets, specs, m);
    if i == m {
    } else {
      FloorIsSettled(pool, targets, specs, m, i);
    }
    NextFloorKeeps(pool, targets, specs, m, i);
  }

  lemma FloorsSettle(pool: seq<Candidate>, targets: Table, specs: seq<Spec>, n: nat)
    requires n <= |specs|
    ensures WellBuilt(pool, targets, FillFloors(pool, targets, specs, n))
    ensures forall i :: 0 <= i < n ==> Settled(pool, targets, specs[i], FillFloors(pool, targets, specs, n))
  {
    var sel := FillFloors(pool, targets, specs, n);
    FloorsBuild(pool, targets, specs, n);
    forall i | 0 <= i < n ensures Settled(pool, targets, specs[i], sel) {
      FloorIsSettled(pool, targets, specs, n, i);
    }
  }

  /** An entry of `unreachableFloors`: the bare name when nothing was found, else the shortfall. */
  datatype Unmet = Unreached(name: string) | Partial(name: string, count: nat, target: nat)

  function EntryFor(s: Spec, count: nat): Unmet {
    if count == 0 then Unreached(s.name) else Partial(s.name, count, s.target)
  }

  /** The first `n` floors that a list of candidates does not meet, with their counts. */
  function ListUnmet(specs: seq<Spec>, n: nat, list: seq<Candidate>): seq<Unmet>
    requires n <= |specs|
  {
    if n == 0 then []
    else
      var s := specs[n - 1];
      ListUnmet(specs, n - 1, list) + if Count(OfSpec(s), list) < s.target then [EntryFor(s, Count(OfSpec(s), list))]
          else []
  }

  lemma {:induction false} UnmetForGood(pool: seq<Candidate>, targets: Table, specs: seq<Spec>, n: nat,
                                        sel: seq<Candidate>, more: seq<Candidate>)
    requires n <= |specs| && WellBuilt(pool, targets, more) && sel <= more
    requires forall i :: 0 <= i < n ==> Settled(pool, targets, specs[i], sel)
    ensures ListUnmet(specs, n, more) == ListUnmet(specs, n, sel)
  {
    if n == 0 {
    } else {
      UnmetForGood(pool, targets, specs, n - 1, sel, more);
      SettledForGood(pool, targets, specs[n - 1], sel, more);
    }
  }

  // ---------- pass 2: the categories ----------

  /** The scan of the first `n` candidates for one category. */
  function Scan(pool: seq<Candidate>, targets: Table, size: int, c: Category, sel: seq<Candidate>,
                n: nat): seq<Candidate>
    requires n <= |pool|
  {
    if n == 0 then sel
    else
      var before := Scan(pool, targets, size, c, sel, n - 1);
      if pool[n - 1].category == c && |before| < size && Open(targets, before, pool[n - 1]) then before
          + [pool[n - 1]] else before
  }

  function FillCategories(pool: seq<Candidate>, targets: Table, size: int, sel: seq<Candidate>, n: nat): seq<Candidate>
    requires n <= |CATEGORIES|
  {
    if n == 0 then sel
    else Scan(pool, targets, size, CATEGORIES[n - 1], FillCategories(pool, targets, size, sel, n - 1), |pool|)
  }

  lemma {:induction false} ScanBuilds(pool: seq<Candidate>, targets: Table, size: int, c: Category,
                                      sel: seq<Candidate>, n: nat)
    requires n <= |pool| && WellBuilt(pool, targets, sel)
    ensures WellBuilt(pool, targets, Scan(pool, targets, size, c, sel, n))
            && sel <= Scan(pool, targets, size, c, sel, n)
  {
    if n == 0 {
    } else {
      var before := Scan(pool, targets, size, c, sel, n - 1);
      ScanBuilds(pool, targets, size, c, sel, n - 1);
      if Open(targets, before, pool[n - 1]) {
        BuildOn(pool, targets, before, pool[n - 1]);
        assert before <= before + [pool[n - 1]];
      }
    }
  }

  lemma {:induction false} CategoriesBuild(pool: seq<Candidate>, targets: Table, size: int, sel: seq<Candidate>, n: nat)
    requires n <= |CATEGORIES| && WellBuilt(pool, targets, sel)
    ensures var more := FillCategories(pool, targets, size, sel, n);
            WellBuilt(pool, targets, more) && sel <= more
  {
    if n == 0 {
    } else {
      CategoriesBuild(pool, targets, size, sel, n - 1);
      ScanBuilds(pool, targets, size, CATEGORIES[n - 1], FillCategories(pool, targets, size, sel, n - 1), |pool|);
    }
  }

  /** The category is full, or the sample is. */
  ghost predicate Full(targets: Table, size: int, c: Category, sel: seq<Candidate>) {
    Count(OfCategory(c), sel) >= targets[c] || |sel| >= size
  }

  lemma FullStays(targets: Table, size: int, c: Category, sel: seq<Candidate>, more: seq<Candidate>)
    requires Full(targets, size, c, sel) && sel <= more
    ensures Full(targets, size, c, more)
  {
    assert more[..|sel|] == sel;
    CountGrows(OfCategory(c), more, |sel|);
  }

  /** A scan that neither fills the category nor the sample has taken every candidate it saw. */
  lemma {:induction false} ScanTakes(pool: seq<Candidate>, targets: Table, size: int, c: Category,
                                     sel: seq<Candidate>, n: nat)
    requires n <= |pool| && WellBuilt(pool, targets, sel)
    ensures var s := Scan(pool, targets, size, c, sel, n);
            Full(targets, size, c, s) || forall k :: 0 <= k < n && pool[k].category == c ==> pool[k] in s
  {
    if n == 0 {
    } else {
      var before, after := Scan(pool, targets, size, c, sel, n - 1), Scan(pool, targets, size, c, sel, n);
      ScanTakes(pool, targets, size, c, sel, n - 1);
      assert before <= after;
      if Full(targets, size, c, before) { FullStays(targets, size, c, before, after); }
    }
  }

  /** Enough candidates: the scan of a category fills it, unless the sample is full first. */
  lemma ScanFills(pool: seq<Candidate>, targets: Table, size: int, c: Category, sel: seq<Candidate>)
    requires NoDuplicates(pool) && WellBuilt(pool, targets, sel) && targets[c] <= Count(OfCategory(c), pool)
    ensures Full(targets, size, c, Scan(pool, targets, size, c, sel, |pool|))
  {
    var s := Scan(pool, targets, size, c, sel, |pool|);
    ScanBuilds(pool, targets, size, c, sel, |pool|);
    ScanTakes(pool, targets, size, c, sel, |pool|);
    WellBuiltIsDistinct(pool, targets, s);
    if !Full(targets, size, c, s) { CountOfSubset(OfCategory(c), pool, s); }
  }

  lemma {:induction false} CategoriesFill(pool: seq<Candidate>, targets: Table, size: int, sel: seq<Candidate>,
                                          n: nat, c: Category)
    requires n <= |CATEGORIES| && NoDuplicates(pool) && WellBuilt(pool, targets, sel)
    requires Rank(c) < n && targets[c] <= Count(OfCategory(c), pool)
    ensures Full(targets, size, c, FillCategories(pool, targets, size, sel, n))
  {
    var before := FillCategories(pool, targets, size, sel, n - 1);
    CategoriesBuild(pool, targets, size, sel, n - 1);
    if Rank(c) == n - 1 {
      ScanFills(pool, targets, size, c, before);
    } else {
      CategoriesFill(pool, targets, size, sel, n - 1, c);
      ScanBuilds(pool, targets, size, CATEGORIES[n - 1], before, |pool|);
      FullStays(targets, size, c, before, FillCategories(pool, targets, size, sel, n));
    }
  }

  /** Once the category or the sample is full, a scan adds nothing. */
  lemma {:induction false} ScanStops(pool: seq<Candidate>, targets: Table, size: int, c: Category,
                                     sel: seq<Candidate>, m: nat, n: nat)
    requires m <= n <= |pool| && Full(targets, size, c, Scan(pool, targets, size, c, sel, m))
    ensures Scan(pool, targets, size, c, sel, n) == Scan(pool, targets, size, c, sel, m)
  {
    if m == n {
    } else {
      ScanStops(pool, targets, size, c, sel, m, n - 1);
    }
  }

  lemma {:induction false} ScanOrigin(pool: seq<Candidate>, targets: Table, size: int, c: Category,
                                      sel: seq<Candidate>, n: nat, r: Candidate)
    requires n <= |pool|
    ensures r in Scan(pool, targets, size, c, sel, n) ==> r in sel || r in pool[..n]
  {
    if n == 0 {
    } else {
      assert pool[..n] == pool[..n - 1] + [pool[n - 1]];
      ScanOrigin(pool, targets, size, c, sel, n - 1, r);
    }
  }

  /** A scan that passes over a candidate of its category is over. */
  lemma PassedOver(pool: seq<Candidate>, targets: Table, size: int, c: Category, sel: seq<Candidate>, j: nat)
    requires WellBuilt(pool, targets, sel) && j < |pool| && pool[j].category == c
    requires pool[j] !in Scan(pool, targets, size, c, sel, |pool|)
    ensures Scan(pool, targets, size, c, sel, |pool|) == Scan(pool, targets, size, c, sel, j + 1)
  {
    var n := j + 1;
    ScanExtends(pool, targets, size, c, sel, n, |pool|);
    ScanTakes(pool, targets, size, c, sel, n);
    assert Full(targets, size, c, Scan(pool, targets, size, c, sel, n));
    ScanStops(pool, targets, size, c, sel, n, |pool|);
  }

  /** Pass 2 takes the first candidates of the category: one that it passes over is not followed by
      one that it takes. */
  lemma ScanTakesInOrder(pool: seq<Candidate>, targets: Table, size: int, c: Category, sel: seq<Candidate>, j: nat,
                         k: nat)
    requires NoDuplicates(pool) && WellBuilt(pool, targets, sel) && j < k < |pool|
             && pool[j].category == pool[k].category == c
    requires pool[j] !in Scan(pool, targets, size, c, sel, |pool|) && pool[k] !in sel
    ensures pool[k] !in Scan(pool, targets, size, c, sel, |pool|)
  {
    PassedOver(pool, targets, size, c, sel, j);
    ScanOrigin(pool, targets, size, c, sel, j + 1, pool[k]);
  }

  lemma {:induction false} ScanExtends(pool: seq<Candidate>, targets: Table, size: int, c: Category,
                                       sel: seq<Candidate>, m: nat, n: nat)
    requires m <= n <= |pool|
    ensures Scan(pool, targets, size, c, sel, m) <= Scan(pool, targets, size, c, sel, n)
  {
    if m == n {
    } else {
      ScanExtends(pool, targets, size, c, sel, m, n - 1);
    }
  }

  // ---------- the whole selection ----------

  function Selected(pool: seq<Candidate>, targets: Table, size: int, specs: seq<Spec>): seq<Candidate> {
    FillCategories(pool, targets, size, FillFloors(pool, targets, specs, |specs|), |CATEGORIES|)
  }

  ghost predicate TargetsFit(pool: seq<Candidate>, targets: Table, size: int) {
    && Total(targets) == size
    && forall c: Category :: 0 <= targets[c] <= Count(OfCategory(c), pool)
  }

  lemma SelectedIsBuilt(pool: seq<Candidate>, targets: Table, size: int, specs: seq<Spec>)
    ensures WellBuilt(pool, targets, Selected(pool, targets, size, specs))
    ensures FillFloors(pool, targets, specs, |specs|) <= Selected(pool, targets, size, specs)
  {
    FloorsSettle(pool, targets, specs, |specs|);
    CategoriesBuild(pool, targets, size, FillFloors(pool, targets, specs, |specs|), |CATEGORIES|);
  }

  /** Distinct candidates of the pool, exactly the target number from every category. */
  lemma SelectionIsExact(pool: seq<Candidate>, targets: Table, size: int, specs: seq<Spec>)
    requires NoDuplicates(pool) && TargetsFit(pool, targets, size)
    ensures var sel := Selected(pool, targets, size, specs);
            && NoDuplicates(sel) && (forall r :: r in sel ==> r in pool) && |sel| == size
            && forall c: Category :: Count(OfCategory(c), sel) == targets[c]
  {
    var floors, sel := FillFloors(pool, targets, specs, |specs|), Selected(pool, targets, size, specs);
    FloorsSettle(pool, targets, specs, |specs|);
    SelectedIsBuilt(pool, targets, size, specs);
    WellBuiltIsDistinct(pool, targets, sel);
    CountsByCategory(sel);
    var counts := CountTable(sel);
    forall c: Category ensures counts[c] <= targets[c] && Full(targets, size, c, sel) {
      CategoriesFill(pool, targets, size, floors, |CATEGORIES|, c);
    }
    AllReached(counts, targets, sel, size);
  }

  lemma AllReached(counts: Table, targets: Table, sel: seq<Candidate>, size: int)
    requires counts == CountTable(sel) && Total(counts) == |sel| && Total(targets) == size && Below(counts, targets)
    requires forall c: Category :: Full(targets, size, c, sel)
    ensures counts == targets
  {
    TotalIsMonotone(counts, targets);
    if |sel| < size {
      forall c: Category ensures targets[c] <= counts[c] {
        assert Full(targets, size, c, sel);
      }
      TotalIsMonotone(targets, counts);
    }
    SameTotalSameTable(counts, targets);
  }

  /** The floors reported after pass 1 are exactly the floors that the finished selection misses, with
      the counts it has. */
  lemma ReportIsFinal(pool: seq<Candidate>, targets: Table, size: int, specs: seq<Spec>)
    ensures ListUnmet(specs, |specs|, FillFloors(pool, targets, specs, |specs|))
         == ListUnmet(specs, |specs|, Selected(pool, targets, size, specs))
  {
    FloorsSettle(pool, targets, specs, |specs|);
    SelectedIsBuilt(pool, targets, size, specs);
    UnmetForGood(pool, targets, specs, |specs|, FillFloors(pool, targets, specs, |specs|),
        Selected(pool, targets, size, specs));
  }

  /** A floor is reported if and only if it is unmet. */
  lemma {:induction false} ListedIffUnmet(specs: seq<Spec>, n: nat, list: seq<Candidate>, e: Unmet)
    requires n <= |specs|
    ensures e in ListUnmet(specs, n, list)
       <==> exists i ::
           0 <= i < n && Count(OfSpec(specs[i]), list) < specs[i].target
           && e == EntryFor(specs[i], Count(OfSpec(specs[i]), list))
  {
    if n == 0 {
    } else {
      ListedIffUnmet(specs, n - 1, list, e);
    }
  }

  lemma {:induction false} UnmetSame(specs: seq<Spec>, n: nat, a: seq<Candidate>, b: seq<Candidate>)
    requires n <= |specs| && NoDuplicates(a) && multiset(a) == multiset(b)
    ensures ListUnmet(specs, n, a) == ListUnmet(specs, n, b)
  {
    if n == 0 {
    } else {
      UnmetSame(specs, n - 1, a, b);
      SameCounts(OfSpec(specs[n - 1]), a, b);
    }
  }

  // ---------- the regions of the cohort ----------

  function Regions(pool: seq<Candidate>): seq<string> {
    if pool == [] then []
    else
      var before, region := Regions(pool[..|pool| - 1]), pool[|pool| - 1].classes[Region];
      if region in before then before else before + [region]
  }

  function RegionSpec(region: string): Spec {
    Spec("REGION_" + region, Region, [region], 1)
  }

  function RegionSpecs(regions: seq<string>): seq<Spec> {
    seq(|regions|, i requires 0 <= i < |regions| => RegionSpec(regions[i]))
  }

  function AllSpecs(less: (string, string) -> bool, pool: seq<Candidate>): seq<Spec> {
    FLOOR_SPECS + RegionSpecs(SortBy(less, Regions(pool)))
  }

  lemma {:induction false} RegionsPresent(pool: seq<Candidate>, r: Candidate)
    requires r in pool
    ensures r.classes[Region] in Regions(pool)
  {
    var n := |pool| - 1;
    if pool[n] != r {
      assert r in pool[..n];
      RegionsPresent(pool[..n], r);
    }
  }

  /** Every region of the cohort has a floor of one. */
  lemma EveryRegionHasAFloor(less: (string, string) -> bool, pool: seq<Candidate>, r: Candidate)
    requires r in pool
    ensures var s := Spec("REGION_" + r.classes[Region], Region, [r.classes[Region]], 1);
            s in AllSpecs(less, pool) && Meets(OfSpec(s), r)
  {
    var sorted, region := SortBy(less, Regions(pool)), r.classes[Region];
    RegionsPresent(pool, r);
    SortIsPermutation(less, Regions(pool));
    SameMembers(sorted, Regions(pool));
    var i :| 0 <= i < |sorted| && sorted[i] == region;
    assert RegionSpecs(sorted)[i] == RegionSpec(region);
    InSecond(FLOOR_SPECS, RegionSpecs(sorted), i);
  }

  lemma InSecond<T>(a: seq<T>, b: seq<T>, i: nat)
    requires i < |b|
    ensures b[i] in a + b
  {
    assert (a + b)[|a| + i] == b[i];
  }

  // ---------- the loops ----------

  /** What is left of each category's target. */
  ghost predicate CapacityIs(targets: Table, sel: seq<Candidate>, capacity: Table) {
    forall c: Category :: capacity[c] == targets[c] - Count(OfCategory(c), sel)
  }

  /** The `find` over the sorted pool. */
  method FindEligible(pool: seq<Candidate>, s: Spec, selected: seq<Candidate>, capacity: Table, ghost targets: Table)
      returns (i: nat)
    requires CapacityIs(targets, selected, capacity)
    ensures i == NextPick(pool, targets, s, selected, 0)
  {
    i := 0;
    while i < |pool| && !(pool[i] !in selected && Meets(OfSpec(s), pool[i]) && capacity[pool[i].category] > 0)
      invariant i <= |pool| && NextPick(pool, targets, s, selected, i) == NextPick(pool, targets, s, selected, 0)
    {
      i := i + 1;
    }
  }

  /** The while loop of one floor, and its entry if it stays unmet. */
  method FloorStep(pool: seq<Candidate>, s: Spec, before: seq<Candidate>, room: Table, ghost targets: Table)
      returns (selected: seq<Candidate>, capacity: Table, report: seq<Unmet>)
    requires CapacityIs(targets, before, room)
    ensures selected == FillFloor(pool, targets, s, before) && CapacityIs(targets, selected, capacity)
    ensures report == if Count(OfSpec(s), selected) < s.target then [EntryFor(s, Count(OfSpec(s), selected))] else []
  {
    selected, capacity := before, room;
    var currentCount := Count(OfSpec(s), before);
    var reached, anyEligible := currentCount >= s.target, false;
    while !reached
      invariant CapacityIs(targets, selected, capacity) && currentCount == Count(OfSpec(s), selected)
      invariant FillFloor(pool, targets, s, selected) == FillFloor(pool, targets, s, before)
      invariant (reached <==> currentCount >= s.target) && (anyEligible ==> currentCount > 0)
      decreases s.target - currentCount
    {
      var i := FindEligible(pool, s, selected, capacity, targets);
      if i == |pool| { break; }
      anyEligible := true;
      CountOneMore(OfSpec(s), selected, pool[i]);
      selected, capacity := selected + [pool[i]], Add(capacity, pool[i].category, -1);
      currentCount := currentCount + 1;
      reached := currentCount >= s.target;
    }
    if !reached && !anyEligible && currentCount == 0 {
      report := [Unreached(s.name)];
    } else if !reached {
      report := [EntryFor(s, currentCount)];
    } else {
      report := [];
    }
  }

  /** The entries made for earlier floors stand after the next one is filled. */
  lemma ReportGrows(pool: seq<Candidate>, targets: Table, specs: seq<Spec>, i: nat, sel: seq<Candidate>,
                    more: seq<Candidate>, list: seq<Unmet>, report: seq<Unmet>)
    requires i < |specs| && sel == FillFloors(pool, targets, specs, i)
             && more == FillFloor(pool, targets, specs[i], sel)
    requires list == ListUnmet(specs, i, sel)
    requires report == if Count(OfSpec(specs[i]), more) < specs[i].target
             then [EntryFor(specs[i], Count(OfSpec(specs[i]), more))] else []
    ensures more == FillFloors(pool, targets, specs, i + 1) && list + report == ListUnmet(specs, i + 1, more)
  {
    FloorsSettle(pool, targets, specs, i);
    FillFloorSettles(pool, targets, specs[i], sel);
    UnmetForGood(pool, targets, specs, i, sel, more);
  }

  /** Pass 1. */
  method FloorPass(pool: seq<Candidate>, specs: seq<Spec>, targets: Table)
      returns (selected: seq<Candidate>, capacity: Table, unreachable: seq<Unmet>)
    ensures selected == FillFloors(pool, targets, specs, |specs|) && CapacityIs(targets, selected, capacity)
    ensures unreachable == ListUnmet(specs, |specs|, selected)
  {
    selected, capacity, unreachable := [], targets, [];
    for i := 0 to |specs|
      invariant selected == FillFloors(pool, targets, specs, i) && CapacityIs(targets, selected, capacity)
      invariant unreachable == ListUnmet(specs, i, selected)
    {
      ghost var before := selected;
      var report;
      selected, capacity, report := FloorStep(pool, specs[i], selected, capacity, targets);
      ReportGrows(pool, targets, specs, i, before, selected, unreachable, report);
      unreachable := unreachable + report;
    }
  }

  lemma ScanStep(pool: seq<Candidate>, targets: Table, size: int, c: Category, before: seq<Candidate>, k: nat,
                 selected: seq<Candidate>, capacity: Table)
    requires k < |pool| && selected == Scan(pool, targets, size, c, before, k)
    requires CapacityIs(targets, selected, capacity) && |selected| < size
    ensures pool[k].category == c && pool[k] !in selected && capacity[c] > 0 ==>
              && Scan(pool, targets, size, c, before, k + 1) == selected + [pool[k]]
              && CapacityIs(targets, selected + [pool[k]], Add(capacity, c, -1))
              && Count(OfCategory(c), selected + [pool[k]]) == Count(OfCategory(c), selected) + 1
    ensures !(pool[k].category == c && pool[k] !in selected && capacity[c] > 0) ==>
            Scan(pool, targets, size, c, before, k + 1) == selected
  {
    CountOneMore(OfCategory(c), selected, pool[k]);
  }

  /** The body of that loop, for the candidate at position `k`. */
  method ScanOne(pool: seq<Candidate>, c: Category, size: int, ghost before: seq<Candidate>, k: nat,
                 selected: seq<Candidate>, capacity: Table, currentCount: int, ghost targets: Table)
      returns (selected': seq<Candidate>, capacity': Table, currentCount': int)
    requires k < |pool| && selected == Scan(pool, targets, size, c, before, k) && |selected| < size
    requires CapacityIs(targets, selected, capacity) && currentCount == Count(OfCategory(c), selected)
    ensures selected' == Scan(pool, targets, size, c, before, k + 1)
    ensures CapacityIs(targets, selected', capacity') && currentCount' == Count(OfCategory(c), selected')
  {
    var r := pool[k];
    ScanStep(pool, targets, size, c, before, k, selected, capacity);
    selected', capacity', currentCount' := selected, capacity, currentCount;
    if r.category == c && r !in selected && capacity[c] > 0 {
      selected', capacity' := selected + [r], Add(capacity, c, -1);
      currentCount' := currentCount + 1;
    }
  }

  /** Where the loop stops, nothing more would be taken. */
  lemma ScanIsOver(pool: seq<Candidate>, targets: Table, size: int, c: Category, before: seq<Candidate>, k: nat,
                   selected: seq<Candidate>, currentCount: int)
    requires k <= |pool| && selected == Scan(pool, targets, size, c, before, k)
    requires currentCount == Count(OfCategory(c), selected)
    requires k == |pool| || currentCount >= targets[c] || |selected| >= size
    ensures selected == Scan(pool, targets, size, c, before, |pool|)
  {
    if k < |pool| { ScanStops(pool, targets, size, c, before, k, |pool|); }
  }

  /** One category of pass 2; it stops at the target or at the sample size. */
  method CategoryStep(pool: seq<Candidate>, c: Category, size: int, before: seq<Candidate>, room: Table, targets: Table)
      returns (selected: seq<Candidate>, capacity: Table)
    requires CapacityIs(targets, before, room)
    ensures selected == Scan(pool, targets, size, c, before, |pool|) && CapacityIs(targets, selected, capacity)
  {
    selected, capacity := before, room;
    var currentCount, k := Count(OfCategory(c), before), 0;
    while k < |pool| && currentCount < targets[c] && |selected| < size
      invariant k <= |pool| && selected == Scan(pool, targets, size, c, before, k)
      invariant CapacityIs(targets, selected, capacity) && currentCount == Count(OfCategory(c), selected)
      decreases |pool| - k
    {
      selected, capacity, currentCount := ScanOne(pool, c, size, before, k, selected, capacity, currentCount, targets);
      k := k + 1;
    }
    ScanIsOver(pool, targets, size, c, before, k, selected, currentCount);
  }

  lemma {:induction false} CategoriesStop(pool: seq<Candidate>, targets: Table, size: int, sel: seq<Candidate>,
                                          m: nat, n: nat)
    requires m <= n <= |CATEGORIES| && |FillCategories(pool, targets, size, sel, m)| >= size
    ensures FillCategories(pool, targets, size, sel, n) == FillCategories(pool, targets, size, sel, m)
  {
    if m == n {
    } else {
      CategoriesStop(pool, targets, size, sel, m, n - 1);
      NothingMore(pool, targets, size, CATEGORIES[n - 1], FillCategories(pool, targets, size, sel, n - 1));
    }
  }

  lemma NothingMore(pool: seq<Candidate>, targets: Table, size: int, c: Category, sel: seq<Candidate>)
    requires |sel| >= size
    ensures Scan(pool, targets, size, c, sel, |pool|) == sel
  {
    ScanStops(pool, targets, size, c, sel, 0, |pool|);
  }

  /** Pass 2. */
  method CategoryPass(pool: seq<Candidate>, size: int, targets: Table, before: seq<Candidate>, room: Table)
      returns (selected: seq<Candidate>)
    requires CapacityIs(targets, before, room)
    ensures selected == FillCategories(pool, targets, size, before, |CATEGORIES|)
  {
    selected := before;
    var capacity, n := room, 0;
    while n < |CATEGORIES|
      invariant n <= |CATEGORIES| && selected == FillCategories(pool, targets, size, before, n)
      invariant CapacityIs(targets, selected, capacity)
    {
      selected, capacity := CategoryStep(pool, CATEGORIES[n], size, selected, capacity, targets);
      n := n + 1;
      if |selected| >= size {
        CategoriesStop(pool, targets, size, before, n, |CATEGORIES|);
        return;
      }
    }
  }

  predicate ByRegNo(less: (string, string) -> bool, a: Candidate, b: Candidate) {
    less(a.regNo, b.regNo)
  }

  function InOrder(less: (string, string) -> bool, list: seq<Candidate>): seq<Candidate> {
    SortBy((a, b) => ByRegNo(less, a, b), list)
  }

  /** The same candidates by rising registration number. */
  lemma InOrderIs(less: (string, string) -> bool, list: seq<Candidate>)
    requires StrictTotal(less)
    ensures multiset(InOrder(less, list)) == multiset(list)
    ensures forall i, j :: 0 <= i < j < |InOrder(less, list)| ==>
            !less(InOrder(less, list)[j].regNo, InOrder(less, list)[i].regNo)
  {
    var byRegNo := (a, b) => ByRegNo(less, a, b);
    StrictTotalIsWeak(less);
    assert StrictWeak(byRegNo);
    SortIsSorted(byRegNo, list);
    SortIsPermutation(byRegNo, list);
    forall i, j | 0 <= i < j < |InOrder(less, list)|
      ensures !less(InOrder(less, list)[j].regNo, InOrder(less, list)[i].regNo)
    {
      assert !byRegNo(InOrder(less, list)[j], InOrder(less, list)[i]);
    }
  }

  /** `selectSample`: the sample in registration-number order, the selection of pass 1, and the unmet
      floors, which describe the finished sample. */
  method SelectSample(less: (string, string) -> bool, pool: seq<Candidate>, size: int, targets: Table)
      returns (sample: seq<Candidate>, floorPass: seq<Candidate>, unreachable: seq<Unmet>)
    requires StrictTotal(less) && NoDuplicates(pool)
    ensures sample == InOrder(less, Selected(InOrder(less, pool), targets, size, AllSpecs(less, pool)))
    ensures floorPass == FillFloors(InOrder(less, pool), targets, AllSpecs(less, pool), |AllSpecs(less, pool)|)
    ensures forall i, j :: 0 <= i < j < |sample| ==> !less(sample[j].regNo, sample[i].regNo)
    ensures forall r :: r in floorPass ==> r in sample
    ensures unreachable == ListUnmet(AllSpecs(less, pool), |AllSpecs(less, pool)|, sample)
    ensures TargetsFit(pool, targets, size) ==>
              && NoDuplicates(sample) && (forall r :: r in sample ==> r in pool) && |sample| == size
              && forall c: Category :: Count(OfCategory(c), sample) == targets[c]
  {
    var sorted := InOrder(less, pool);
    var specs := AllSpecs(less, pool);
    var capacity, selected;
    floorPass, capacity, unreachable := FloorPass(sorted, specs, targets);
    selected := CategoryPass(sorted, size, targets, floorPass, capacity);
    sample := InOrder(less, selected);
    SampleIsSound(less, pool, sorted, targets, size, specs, sample);
  }

  lemma SampleIsSound(less: (string, string) -> bool, pool: seq<Candidate>, sorted: seq<Candidate>, targets: Table,
                      size: int, specs: seq<Spec>, sample: seq<Candidate>)
    requires StrictTotal(less) && NoDuplicates(pool) && sorted == InOrder(less, pool)
    requires sample == InOrder(less, Selected(sorted, targets, size, specs))
    ensures forall i, j :: 0 <= i < j < |sample| ==> !less(sample[j].regNo, sample[i].regNo)
    ensures forall r :: r in FillFloors(sorted, targets, specs, |specs|) ==> r in sample
    ensures ListUnmet(specs, |specs|, FillFloors(sorted, targets, specs, |specs|)) == ListUnmet(specs, |specs|, sample)
    ensures TargetsFit(pool, targets, size) ==>
              && NoDuplicates(sample) && (forall r :: r in sample ==> r in pool) && |sample| == size
              && forall c: Category :: Count(OfCategory(c), sample) == targets[c]
  {
    var sel := Selected(sorted, targets, size, specs);
    InOrderIs(less, pool);
    InOrderIs(less, sel);
    SelectedIsBuilt(sorted, targets, size, specs);
    WellBuiltIsDistinct(sorted, targets, sel);
    SameMembers(sel, sample);
    UnmetSame(specs, |specs|, sel, sample);
    ReportIsFinal(sorted, targets, size, specs);
    if TargetsFit(pool, targets, size) { ExactAfterSorting(pool, sorted, targets, size, specs, sel, sample); }
  }

  lemma ExactAfterSorting(pool: seq<Candidate>, sorted: seq<Candidate>, targets: Table, size: int, specs: seq<Spec>,
                          sel: seq<Candidate>, sample: seq<Candidate>)
    requires NoDuplicates(pool) && multiset(sorted) == multiset(pool) && TargetsFit(pool, targets, size)
    requires sel == Selected(sorted, targets, size, specs) && multiset(sample) == multiset(sel)
    ensures NoDuplicates(sample) && (forall r :: r in sample ==> r in pool) && |sample| == size
    ensures forall c: Category :: Count(OfCategory(c), sample) == targets[c]
  {
    forall c: Category ensures Count(OfCategory(c), sorted) == Count(OfCategory(c), pool) {
      SameCounts(OfCategory(c), pool, sorted);
    }
    NoDuplicatesTransfers(pool, sorted);
    SelectionIsExact(sorted, targets, size, specs);
    NoDuplicatesTransfers(sel, sample);
    SameMembers(sorted, pool);
    SameMembers(sample, sel);
    forall c: Category ensures Count(OfCategory(c), sample) == targets[c] {
      SameCounts(OfCategory(c), sel, sample);
    }
  }
}
