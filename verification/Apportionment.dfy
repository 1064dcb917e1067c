/** `apportionCategoryTargets` of sample-candidates.js: floors, largest-remainder shares and the
    round-robin that places what is left. Shares are exact: a share is `remaining * count / pool`. */
module Apportionment {
  import opened Orders

  /** The derived categories of classify-candidate.js. */
  datatype Category =
    TrustOrCompanyService | MoneyService | HighValueDealer | EstateAgency | Accountancy | Legal | Unclassified

  const CATEGORIES: seq<Category> := [TrustOrCompanyService, MoneyService, HighValueDealer, EstateAgency, Accountancy,
      Legal, Unclassified]

  const CATEGORY_FLOOR: nat := 4

  type Table = m: map<Category, int> | forall c: Category :: c in m
    witness map c: Category | true :: 0

  const ZEROS: Table := map c: Category | true :: 0

  function Rank(c: Category): nat {
    match c
    case TrustOrCompanyService => 0
    case MoneyService => 1
    case HighValueDealer => 2
    case EstateAgency => 3
    case Accountancy => 4
    case Legal => 5
    case Unclassified => 6
  }

  lemma EveryCategoryIsListed(c: Category)
    ensures c in CATEGORIES && CATEGORIES[Rank(c)] == c
  {
    assert CATEGORIES[Rank(c)] == c;
  }

  function Total(t: Table): int {
    t[TrustOrCompanyService] + t[MoneyService] + t[HighValueDealer] + t[EstateAgency] + t[Accountancy] + t[Legal]
        + t[Unclassified]
  }

  lemma TotalAfterUpdate(t: Table, c: Category, v: int)
    ensures Total(t[c := v]) == Total(t) - t[c] + v
  {
    match c { case _ => }
  }

  ghost predicate Below(s: Table, t: Table) {
    forall c: Category :: s[c] <= t[c]
  }

  lemma TotalIsMonotone(s: Table, t: Table)
    requires Below(s, t)
    ensures Total(s) <= Total(t)
  {
  }

  lemma SameTotalSameTable(s: Table, t: Table)
    requires Below(s, t) && Total(s) == Total(t)
    ensures s == t
  {
    forall c: Category ensures s[c] == t[c] {
      TotalAfterUpdate(t, c, s[c]);
      TotalIsMonotone(s, t[c := s[c]]);
    }
  }

  function Min(a: int, b: int): int {
    if a <= b then a else b
  }

  ghost predicate NonNegative(counts: Table) {
    forall c: Category :: counts[c] >= 0
  }

  /** The categories present in the cohort. */
  function Present(counts: Table, n: nat): seq<Category>
    requires n <= |CATEGORIES|
  {
    if n == 0 then []
    else Present(counts, n - 1) + if counts[CATEGORIES[n - 1]] > 0 then [CATEGORIES[n - 1]] else []
  }

  lemma {:induction false} PresentOnes(counts: Table, n: nat)
    requires n <= |CATEGORIES|
    ensures forall c: Category :: c in Present(counts, n) <==> Rank(c) < n && counts[c] > 0
    ensures NoDuplicates(Present(counts, n))
  {
    if n == 0 {
    } else {
      PresentOnes(counts, n - 1);
      forall c: Category ensures Rank(c) == n - 1 <==> c == CATEGORIES[n - 1] {
        EveryCategoryIsListed(c);
        assert Rank(CATEGORIES[n - 1]) == n - 1;
      }
    }
  }

  // ---------- floors and proportional shares ----------

  function Floors(counts: Table): Table {
    map c: Category | true :: Min(CATEGORY_FLOOR, counts[c])
  }

  /** What each category is due of the remaining slots: a whole part and a remainder over the pool. */
  function Shares(counts: Table, remaining: nat): Table
    requires Total(counts) > 0
  {
    map c: Category | true :: remaining * counts[c] / Total(counts)
  }

  function Remainders(counts: Table, remaining: nat): Table
    requires Total(counts) > 0
  {
    map c: Category | true :: remaining * counts[c] % Total(counts)
  }

  lemma ShareAndRemainder(counts: Table, remaining: nat, c: Category)
    requires NonNegative(counts) && Total(counts) > 0
    ensures 0 <= Shares(counts, remaining)[c] && 0 <= Remainders(counts, remaining)[c] < Total(counts)
    ensures remaining * counts[c] == Shares(counts, remaining)[c] * Total(counts) + Remainders(counts, remaining)[c]
    ensures counts[c] == 0 ==> Shares(counts, remaining)[c] == Remainders(counts, remaining)[c] == 0
  {
    Quotient(remaining * counts[c], Total(counts));
    if counts[c] == 0 { assert remaining * counts[c] == 0; }
  }

  lemma Quotient(a: int, b: int)
    requires a >= 0 && b > 0
    ensures a / b >= 0 && 0 <= a % b < b && a == a / b * b + a % b
  {
  }

  /** Shares are non-negative, and nothing is due to a category that is absent. */
  ghost predicate SharesOk(counts: Table, shares: Table) {
    forall c: Category :: shares[c] >= 0 && (counts[c] == 0 ==> shares[c] == 0)
  }

  lemma SharesAreOk(counts: Table, remaining: nat)
    requires NonNegative(counts) && Total(counts) > 0
    ensures SharesOk(counts, Shares(counts, remaining))
  {
    forall c: Category ensures Shares(counts, remaining)[c] >= 0
        && (counts[c] == 0 ==> Shares(counts, remaining)[c] == 0) {
      ShareAndRemainder(counts, remaining, c);
    }
  }

  /** Floors and capped whole shares: the targets before the leftover is placed. */
  function Base(counts: Table, shares: Table): Table {
    map c: Category | true :: Floors(counts)[c] + Min(shares[c], counts[c] - Floors(counts)[c])
  }

  /** Largest remainder first, then the fixed category order. */
  predicate Before(remainders: Table, a: Category, b: Category) {
    remainders[a] > remainders[b] || (remainders[a] == remainders[b] && Rank(a) < Rank(b))
  }

  function Order(counts: Table, remainders: Table): seq<Category> {
    SortBy((a, b) => Before(remainders, a, b), Present(counts, |CATEGORIES|))
  }

  lemma OrderOnes(counts: Table, remainders: Table)
    ensures forall c: Category :: c in Order(counts, remainders) <==> counts[c] > 0
    ensures NoDuplicates(Order(counts, remainders))
  {
    var less := (a, b) => Before(remainders, a, b);
    var present := Present(counts, |CATEGORIES|);
    PresentOnes(counts, |CATEGORIES|);
    forall c: Category ensures Rank(c) < |CATEGORIES| { }
    SortIsPermutation(less, present);
    SameMembers(Order(counts, remainders), present);
    NoDuplicatesTransfers(present, Order(counts, remainders));
  }

  lemma OrderIsByRemainder(counts: Table, remainders: Table, i: nat, j: nat)
    requires i < j < |Order(counts, remainders)|
    ensures var a, b := Order(counts, remainders)[i], Order(counts, remainders)[j];
            remainders[a] > remainders[b] || (remainders[a] == remainders[b] && Rank(a) < Rank(b))
  {
    var less := (a, b) => Before(remainders, a, b);
    var order := Order(counts, remainders);
    OrderOnes(counts, remainders);
    assert StrictWeak(less);
    SortIsSorted(less, Present(counts, |CATEGORIES|));
    assert !less(order[j], order[i]);
    EveryCategoryIsListed(order[i]);
    EveryCategoryIsListed(order[j]);
  }

  // ---------- the round-robin ----------

  /** After `level` full passes over `order` and `pos` steps of the next, the i-th category has one
      slot per pass that reached it on top of its base, up to its count. */
  function Level(counts: Table, base: Table, order: seq<Category>, level: nat, pos: nat, i: nat): int
    requires i < |order|
  {
    Min(counts[order[i]], base[order[i]] + level + if i < pos then 1 else 0)
  }

  ghost predicate Filled(counts: Table, base: Table, order: seq<Category>, level: nat, pos: nat, targets: Table) {
    && pos <= |order|
    && (forall i {:trigger order[i]} :: 0 <= i < |order| ==>
        targets[order[i]] == Level(counts, base, order, level, pos, i))
    && (forall c: Category :: c !in order ==> targets[c] == base[c])
  }

  lemma FurtherIsMore(counts: Table, base: Table, order: seq<Category>, level: nat, pos: nat, targets: Table,
                      level': nat, pos': nat, targets': Table)
    requires Filled(counts, base, order, level, pos, targets) && Filled(counts, base, order, level', pos', targets')
    requires level < level' || (level == level' && pos <= pos')
    ensures Below(targets, targets')
  {
    forall c: Category ensures targets[c] <= targets'[c] {
      if c in order {
        var i :| 0 <= i < |order| && order[i] == c;
        assert targets[order[i]] == Level(counts, base, order, level, pos, i) <= Level(counts, base, order, level',
            pos', i) == targets'[order[i]];
      }
    }
  }

  /** One step of a pass: a slot if there is room. */
  function GiveSlot(counts: Table, targets: Table, c: Category): Table {
    if targets[c] < counts[c] then targets[c := targets[c] + 1] else targets
  }

  lemma SlotGiven(counts: Table, base: Table, order: seq<Category>, level: nat, pos: nat, targets: Table)
    requires NoDuplicates(order) && pos < |order| && Below(targets, counts)
    requires Filled(counts, base, order, level, pos, targets)
    ensures Filled(counts, base, order, level, pos + 1, GiveSlot(counts, targets, order[pos]))
  {
  }

  lemma SlotCounted(counts: Table, targets: Table, c: Category)
    requires Below(targets, counts)
    ensures Below(GiveSlot(counts, targets, c), counts)
    ensures Total(GiveSlot(counts, targets, c)) == Total(targets) + if targets[c] < counts[c] then 1 else 0
  {
    TotalAfterUpdate(targets, c, targets[c] + 1);
  }

  ghost predicate FullUpTo(counts: Table, order: seq<Category>, i: nat, targets: Table) {
    forall k :: 0 <= k < i && k < |order| ==> targets[order[k]] == counts[order[k]]
  }

  /** One pass: a slot for each category with room, in order, until no slot is left. */
  method OnePass(counts: Table, base: Table, order: seq<Category>, before: Table, slots: nat, ghost level: nat)
      returns (targets: Table, left: nat, progress: bool, ghost pos: nat)
    requires NoDuplicates(order) && Below(before, counts) && slots > 0
    requires Filled(counts, base, order, level, 0, before)
    ensures Below(targets, counts) && left <= slots && Total(targets) + left == Total(before) + slots
    ensures Filled(counts, base, order, level, pos, targets) && (left > 0 ==> pos == |order|)
    ensures progress <==> left < slots
    ensures !progress ==> FullUpTo(counts, order, |order|, targets)
  {
    targets, left, progress := before, slots, false;
    var i := 0;
    while i < |order| && left > 0
      invariant i <= |order| && left <= slots && Total(targets) + left == Total(before) + slots
      invariant Below(targets, counts) && Filled(counts, base, order, level, i, targets)
      invariant progress <==> left < slots
      invariant !progress ==> FullUpTo(counts, order, i, targets)
    {
      SlotGiven(counts, base, order, level, i, targets);
      SlotCounted(counts, targets, order[i]);
      if targets[order[i]] < counts[order[i]] {
        left := left - 1;
        progress := true;
      }
      targets := GiveSlot(counts, targets, order[i]);
      i := i + 1;
    }
    pos := i;
  }

  /** Repeated passes. They stop short only when every category is full, which the bound on
      `leftover` excludes. */
  method RoundRobin(counts: Table, base: Table, order: seq<Category>, leftover: nat)
      returns (targets: Table, ghost level: nat, ghost pos: nat)
    requires NoDuplicates(order) && Below(base, counts) && Total(base) + leftover <= Total(counts)
    requires forall c: Category :: c in order || base[c] == counts[c]
    ensures Total(targets) == Total(base) + leftover && Below(targets, counts)
    ensures Filled(counts, base, order, level, pos, targets)
  {
    targets, level, pos := base, 0, 0;
    NothingPlacedYet(counts, base, order);
    var left, progress := leftover, true;
    while left > 0 && progress
      invariant left >= 0 && Total(targets) + left == Total(base) + leftover
      invariant Below(targets, counts) && Filled(counts, base, order, level, pos, targets)
      invariant left > 0 ==> pos == 0
      invariant progress || targets == counts
      decreases left, progress
    {
      targets, left, progress, pos := OnePass(counts, base, order, targets, left, level);
      if !progress { NothingLeftToFill(counts, base, order, targets, level, pos); }
      if left > 0 {
        NextLevel(counts, base, order, level, targets);
        level, pos := level + 1, 0;
      }
    }
  }

  lemma NothingPlacedYet(counts: Table, base: Table, order: seq<Category>)
    requires Below(base, counts)
    ensures Filled(counts, base, order, 0, 0, base)
  {
  }

  lemma NextLevel(counts: Table, base: Table, order: seq<Category>, level: nat, targets: Table)
    requires Filled(counts, base, order, level, |order|, targets)
    ensures Filled(counts, base, order, level + 1, 0, targets)
  {
  }

  lemma NothingLeftToFill(counts: Table, base: Table, order: seq<Category>, targets: Table, level: nat, pos: nat)
    requires forall c: Category :: c in order || base[c] == counts[c]
    requires FullUpTo(counts, order, |order|, targets) && Filled(counts, base, order, level, pos, targets)
    ensures targets == counts
  {
    forall c: Category ensures targets[c] == counts[c] {
      if c in order {
        var k :| 0 <= k < |order| && order[k] == c;
      }
    }
  }

  // ---------- the whole apportionment ----------

  lemma BaseIsBetween(counts: Table, shares: Table)
    requires NonNegative(counts) && SharesOk(counts, shares)
    ensures Below(Floors(counts), Base(counts, shares)) && Below(Base(counts, shares), counts)
    ensures forall c: Category :: counts[c] == 0 ==> Base(counts, shares)[c] == Floors(counts)[c] == 0
  {
  }

  /** The seven divisions summed: whole shares and remainders make up the remaining slots. */
  lemma SharesAddUp(counts: Table, remaining: nat)
    requires NonNegative(counts) && Total(counts) > 0
    ensures Total(Shares(counts, remaining)) * Total(counts) + Total(Remainders(counts, remaining))
            == remaining * Total(counts)
    ensures Total(Remainders(counts, remaining)) >= 0
  {
    var shares, rest, pool := Shares(counts, remaining), Remainders(counts, remaining), Total(counts);
    forall c: Category ensures rest[c] >= 0 && remaining * counts[c] == shares[c] * pool + rest[c] {
      ShareAndRemainder(counts, remaining, c);
    }
    DivisionsAddUp(counts, remaining, shares, rest, pool);
  }

  lemma DivisionsAddUp(counts: Table, remaining: nat, shares: Table, rest: Table, pool: int)
    requires pool == Total(counts) && forall c: Category ::
             rest[c] >= 0 && remaining * counts[c] == shares[c] * pool + rest[c]
    ensures Total(shares) * pool + Total(rest) == remaining * pool && Total(rest) >= 0
  {
    TotalTimes(shares, pool);
    TotalTimes(counts, remaining);
  }

  lemma TotalTimes(t: Table, k: int)
    ensures Total(t) * k == t[TrustOrCompanyService] * k + t[MoneyService] * k + t[HighValueDealer] * k
            + t[EstateAgency] * k
                            + t[Accountancy] * k + t[Legal] * k + t[Unclassified] * k
  {
  }

  lemma CappedSharesFit(counts: Table, remaining: nat)
    requires NonNegative(counts) && Total(counts) > 0
    ensures Total(Base(counts, Shares(counts, remaining))) <= Total(Floors(counts)) + remaining
  {
    var shares := Shares(counts, remaining);
    SharesAddUp(counts, remaining);
    Cancel(Total(shares), remaining, Total(counts));
    BaseIsAtMost(counts, shares);
  }

  lemma BaseIsAtMost(counts: Table, shares: Table)
    ensures Total(Base(counts, shares)) <= Total(Floors(counts)) + Total(shares)
  {
    var base, sum := Base(counts, shares), Plus(Floors(counts), shares);
    TotalPlus(Floors(counts), shares);
    forall c: Category ensures base[c] <= sum[c] { }
    TotalIsMonotone(base, sum);
  }

  function Plus(s: Table, t: Table): Table {
    map c: Category | true :: s[c] + t[c]
  }

  lemma TotalPlus(s: Table, t: Table)
    ensures Total(Plus(s, t)) == Total(s) + Total(t)
  {
  }

  lemma Times(a: int, b: int, k: int)
    requires k > 0 && a <= b
    ensures a * k <= b * k
  {
  }

  lemma Cancel(a: int, b: int, k: int)
    requires k > 0 && a * k <= b * k
    ensures a <= b
  {
  }

  /** The remaining slots are placed on top of the floors: whole shares, then the round-robin. */
  ghost predicate Placed(counts: Table, remaining: nat, targets: Table)
    requires Total(counts) > 0
  {
    && Total(targets) == Total(Floors(counts)) + remaining
    && exists level: nat, pos: nat ::
         Filled(counts, Base(counts, Shares(counts, remaining)), Order(counts, Remainders(counts, remaining)), level,
             pos, targets)
  }

  // ---------- the outcome in numbers ----------

  /** What a category has on top of its floor of four and its whole share. */
  function Extra(counts: Table, remaining: nat, targets: Table, c: Category): int
    requires Total(counts) > 0
  {
    targets[c] - (if counts[c] < 4 then counts[c] else 4) - remaining * counts[c] / Total(counts)
  }

  /** Next to a category that could take more, no category has more than one extra slot above it, and none
      at all if its remainder is smaller, or the same and it comes later. */
  ghost predicate FairTo(counts: Table, remaining: nat, targets: Table, c: Category, d: Category)
    requires Total(counts) > 0
  {
    var p, q := remaining * counts[c] % Total(counts), remaining * counts[d] % Total(counts);
    && Extra(counts, remaining, targets, c) >= 0
    && Extra(counts, remaining, targets, d) <= Extra(counts, remaining, targets, c) + 1
    && (p > q || (p == q && Rank(c) < Rank(d)) ==>
        Extra(counts, remaining, targets, d) <= Extra(counts, remaining, targets, c))
  }

  /** The remaining slots go to the largest remainders. */
  ghost predicate LargestRemainders(counts: Table, remaining: nat, targets: Table)
    requires Total(counts) > 0
  {
    && Total(targets) == Total(Floors(counts)) + remaining
    && Below(targets, counts)
    && forall c: Category, d: Category {:trigger FairTo(counts, remaining, targets, c, d)} ::
         c != d && targets[c] < counts[c] ==> FairTo(counts, remaining, targets, c, d)
  }

  /** How far the round-robin has come at a category. */
  lemma ExtraIsLevel(counts: Table, remaining: nat, level: nat, pos: nat, targets: Table, i: nat)
    requires NonNegative(counts) && Total(counts) > 0
    requires Filled(counts, Base(counts, Shares(counts, remaining)), Order(counts, Remainders(counts, remaining)),
                 level, pos, targets)
    requires i < |Order(counts, Remainders(counts, remaining))|
    ensures var c, slots := Order(counts, Remainders(counts, remaining))[i], level + if i < pos then 1 else 0;
            && targets[c] <= counts[c] && Extra(counts, remaining, targets, c) <= slots
            && (targets[c] < counts[c] ==> Extra(counts, remaining, targets, c) == slots)
  {
    var order, shares := Order(counts, Remainders(counts, remaining)), Shares(counts, remaining);
    assert targets[order[i]] == Level(counts, Base(counts, shares), order, level, pos, i);
    ShareAndRemainder(counts, remaining, order[i]);
  }

  lemma AbsentHasNothing(counts: Table, remaining: nat, level: nat, pos: nat, targets: Table, c: Category)
    requires NonNegative(counts) && Total(counts) > 0 && counts[c] == 0
    requires Filled(counts, Base(counts, Shares(counts, remaining)), Order(counts, Remainders(counts, remaining)),
                 level, pos, targets)
    ensures targets[c] == 0 && Extra(counts, remaining, targets, c) == 0
  {
    OrderOnes(counts, Remainders(counts, remaining));
    ShareAndRemainder(counts, remaining, c);
  }

  /** A category with the larger remainder, or the same and the earlier rank, is served first. */
  lemma LargerIsFirst(counts: Table, remainders: Table, i: nat, j: nat)
    requires i < |Order(counts, remainders)| && j < |Order(counts, remainders)| && i != j
    requires var c, d := Order(counts, remainders)[i], Order(counts, remainders)[j];
             remainders[c] > remainders[d] || (remainders[c] == remainders[d] && Rank(c) < Rank(d))
    ensures i < j
  {
    if j < i { OrderIsByRemainder(counts, remainders, j, i); }
  }

  lemma PlaceInOrder(counts: Table, remainders: Table, c: Category) returns (i: nat)
    requires counts[c] > 0
    ensures i < |Order(counts, remainders)| && Order(counts, remainders)[i] == c
  {
    OrderOnes(counts, remainders);
    i :| i < |Order(counts, remainders)| && Order(counts, remainders)[i] == c;
  }

  lemma FairByRemainder(counts: Table, remaining: nat, targets: Table, c: Category, d: Category)
    requires Total(counts) > 0
    requires 0 <= Extra(counts, remaining, targets, c)
    requires Extra(counts, remaining, targets, d) <= Extra(counts, remaining, targets, c) + 1
    requires var rest := Remainders(counts, remaining);
             rest[c] > rest[d] || (rest[c] == rest[d] && Rank(c) < Rank(d)) ==>
               Extra(counts, remaining, targets, d) <= Extra(counts, remaining, targets, c)
    ensures FairTo(counts, remaining, targets, c, d)
  {
  }

  lemma PlacedIsFair(counts: Table, remaining: nat, level: nat, pos: nat, targets: Table, c: Category, d: Category)
    requires NonNegative(counts) && Total(counts) > 0 && c != d && counts[c] > 0 && targets[c] < counts[c]
    requires Filled(counts, Base(counts, Shares(counts, remaining)), Order(counts, Remainders(counts, remaining)),
                 level, pos, targets)
    ensures FairTo(counts, remaining, targets, c, d)
  {
    var rest := Remainders(counts, remaining);
    var i := PlaceInOrder(counts, rest, c);
    ExtraIsLevel(counts, remaining, level, pos, targets, i);
    if counts[d] == 0 {
      AbsentHasNothing(counts, remaining, level, pos, targets, d);
    } else {
      var j := PlaceInOrder(counts, rest, d);
      ExtraIsLevel(counts, remaining, level, pos, targets, j);
      if rest[c] > rest[d] || (rest[c] == rest[d] && Rank(c) < Rank(d)) {
        LargerIsFirst(counts, rest, i, j);
      }
    }
    FairByRemainder(counts, remaining, targets, c, d);
  }

  /** The round-robin over the ordered categories gives the extra slots to the largest remainders. */
  lemma PlacedIsLargestRemainders(counts: Table, remaining: nat, targets: Table)
    requires NonNegative(counts) && Total(counts) > 0 && Placed(counts, remaining, targets)
    ensures LargestRemainders(counts, remaining, targets)
  {
    var level: nat, pos: nat :|
        Filled(counts, Base(counts, Shares(counts, remaining)), Order(counts, Remainders(counts, remaining)), level,
            pos, targets);
    forall c: Category ensures targets[c] <= counts[c] && (targets[c] < counts[c] ==> counts[c] > 0) {
      if counts[c] == 0 {
        AbsentHasNothing(counts, remaining, level, pos, targets, c);
      } else {
        var i := PlaceInOrder(counts, Remainders(counts, remaining), c);
        ExtraIsLevel(counts, remaining, level, pos, targets, i);
      }
    }
    forall c: Category, d: Category | c != d && targets[c] < counts[c]
      ensures FairTo(counts, remaining, targets, c, d)
    {
      PlacedIsFair(counts, remaining, level, pos, targets, c, d);
    }
  }

  /** The outcome of an apportionment of `size` slots. */
  ghost predicate Apportioned(counts: Table, size: int, targets: Table) {
    if size <= Total(Floors(counts)) || Total(counts) <= 0 then targets == Floors(counts)
    else LargestRemainders(counts, size - Total(Floors(counts)), targets)
  }

  lemma RanksDiffer(c: Category, d: Category)
    requires c != d
    ensures Rank(c) != Rank(d)
  {
    EveryCategoryIsListed(c);
    EveryCategoryIsListed(d);
  }

  /** Two outcomes cannot each favour another category. */
  lemma NotBothFair(counts: Table, remaining: nat, targets: Table, targets': Table, c: Category, d: Category)
    requires Total(counts) > 0 && c != d && FairTo(counts, remaining, targets, c, d)
    requires FairTo(counts, remaining, targets', d, c)
    ensures !(targets[c] < targets'[c] && targets'[d] < targets[d])
  {
    RanksDiffer(c, d);
  }

  lemma SomewhereMore(s: Table, t: Table) returns (c: Category)
    requires Total(s) == Total(t) && s != t
    ensures s[c] > t[c]
  {
    if Below(s, t) { SameTotalSameTable(s, t); }
    c :| s[c] > t[c];
  }

  lemma LargestRemaindersAreUnique(counts: Table, remaining: nat, targets: Table, targets': Table)
    requires Total(counts) > 0
    requires LargestRemainders(counts, remaining, targets) && LargestRemainders(counts, remaining, targets')
    ensures targets == targets'
  {
    if targets != targets' {
      var d := SomewhereMore(targets, targets');
      var c := SomewhereMore(targets', targets);
      assert FairTo(counts, remaining, targets, c, d) && FairTo(counts, remaining, targets', d, c);
      NotBothFair(counts, remaining, targets, targets', c, d);
    }
  }

  /** The description of the outcome leaves no choice. */
  lemma ApportionmentIsDetermined(counts: Table, size: int, targets: Table, targets': Table)
    requires Apportioned(counts, size, targets) && Apportioned(counts, size, targets')
    ensures targets == targets'
  {
    if size > Total(Floors(counts)) && Total(counts) > 0 {
      LargestRemaindersAreUnique(counts, size - Total(Floors(counts)), targets, targets');
    }
  }

  // ---------- the quota rule ----------

  function Ones(counts: Table): Table {
    map c: Category | true :: if counts[c] > 0 then 1 else 0
  }

  /** No category present in the cohort is filled by its floor and whole share. */
  ghost predicate Roomy(counts: Table, shares: Table) {
    forall c: Category :: counts[c] > 0 ==> Floors(counts)[c] + shares[c] < counts[c]
  }

  /** Rounding down loses less than one slot per category. */
  lemma FewAreLeft(counts: Table, remaining: nat)
    requires NonNegative(counts) && Total(counts) > 0
    ensures remaining - Total(Shares(counts, remaining)) < Total(Ones(counts))
  {
    var shares, rest := Shares(counts, remaining), Remainders(counts, remaining);
    SharesAddUp(counts, remaining);
    forall c: Category ensures rest[c] <= Total(counts) - 1 && (counts[c] == 0 ==> rest[c] == 0) {
      ShareAndRemainder(counts, remaining, c);
    }
    RestIsBounded(counts, rest, Total(counts) - 1);
    SomeOnes(counts);
    LessThan(remaining, Total(shares), Total(rest), Total(Ones(counts)), Total(counts));
  }

  lemma RestIsBounded(counts: Table, rest: Table, k: int)
    requires NonNegative(counts) && forall c: Category :: rest[c] <= k && (counts[c] == 0 ==> rest[c] == 0)
    ensures Total(rest) <= Total(Ones(counts)) * k
  {
    var most: Table := map c: Category | true :: if counts[c] > 0 then k else 0;
    TotalIsMonotone(rest, most);
    TotalTimes(Ones(counts), k);
    forall c: Category ensures most[c] == Ones(counts)[c] * k {
      if counts[c] > 0 { assert Ones(counts)[c] == 1; }
    }
  }

  lemma SomeOnes(counts: Table)
    requires NonNegative(counts) && Total(counts) > 0
    ensures Total(Ones(counts)) > 0
  {
    TotalIsMonotone(ZEROS, Ones(counts));
    if Total(Ones(counts)) == 0 {
      SameTotalSameTable(ZEROS, Ones(counts));
      forall c: Category ensures counts[c] <= 0 {
        assert Ones(counts)[c] == 0;
      }
      TotalIsMonotone(counts, ZEROS);
    }
  }

  lemma LessThan(remaining: int, shares: int, rest: int, ones: int, pool: int)
    requires pool > 0 && ones > 0 && shares * pool + rest == remaining * pool && rest <= ones * (pool - 1)
    ensures remaining - shares < ones
  {
    assert (remaining - shares) * pool == rest;
    assert ones * (pool - 1) < ones * pool;
    if remaining - shares >= ones { Times(ones, remaining - shares, pool); }
  }

  function Extras(counts: Table, remaining: nat, targets: Table): Table
    requires Total(counts) > 0
  {
    map c: Category | true :: Extra(counts, remaining, targets, c)
  }

  lemma ExtrasAddUp(counts: Table, remaining: nat, targets: Table)
    requires Total(counts) > 0
    ensures Total(Extras(counts, remaining, targets))
            == Total(targets) - Total(Floors(counts)) - Total(Shares(counts, remaining))
  {
    ThreeAddUp(Floors(counts), Shares(counts, remaining), Extras(counts, remaining, targets), targets);
  }

  lemma ThreeAddUp(a: Table, b: Table, c: Table, sum: Table)
    requires forall k: Category :: sum[k] == a[k] + b[k] + c[k]
    ensures Total(sum) == Total(a) + Total(b) + Total(c)
  {
  }

  /** A category that is full has at least one extra slot, one that is not has none missing. */
  lemma ExtraIsNotNegative(counts: Table, remaining: nat, targets: Table, c: Category)
    requires NonNegative(counts) && Total(counts) > 0 && LargestRemainders(counts, remaining, targets)
    requires Roomy(counts, Shares(counts, remaining))
    ensures Extra(counts, remaining, targets, c) >= if counts[c] > 0 && targets[c] == counts[c] then 1 else 0
  {
    ShareAndRemainder(counts, remaining, c);
    if targets[c] < counts[c] {
      var d := if c == Legal then Unclassified else Legal;
      assert FairTo(counts, remaining, targets, c, d);
    } else if counts[c] > 0 {
      assert Floors(counts)[c] + Shares(counts, remaining)[c] < counts[c];
    }
  }

  /** The quota rule of the largest-remainder method: when whole shares fill no category, every
      category gets its whole share of the remaining slots or one slot more. */
  lemma QuotaRule(counts: Table, remaining: nat, targets: Table, c: Category)
    requires NonNegative(counts) && Total(counts) > 0 && LargestRemainders(counts, remaining, targets)
    requires Roomy(counts, Shares(counts, remaining))
    ensures 0 <= Extra(counts, remaining, targets, c) <= 1
  {
    ExtraIsNotNegative(counts, remaining, targets, c);
    if Extra(counts, remaining, targets, c) > 1 {
      forall d: Category ensures Ones(counts)[d] <= Extras(counts, remaining, targets)[d] {
        ExtraIsNotNegative(counts, remaining, targets, d);
        if d != c && targets[d] < counts[d] { assert FairTo(counts, remaining, targets, d, c); }
      }
      TotalIsMonotone(Ones(counts), Extras(counts, remaining, targets));
      ExtrasAddUp(counts, remaining, targets);
      FewAreLeft(counts, remaining);
      assert false;
    }
  }

  // ---------- the loops before the round-robin ----------

  /** Every value listed so far is taken, the others are still zero. */
  ghost predicate Collected(list: seq<Category>, i: nat, from: Table, to: Table) {
    forall c: Category :: to[c] == if c in list[..Min(i, |list|)] then from[c] else 0
  }

  method AddFloors(counts: Table, categories: seq<Category>) returns (floors: Table, floorSum: int, totalPool: int)
    requires NonNegative(counts) && NoDuplicates(categories) && forall c: Category :: c in categories <==> counts[c] > 0
    ensures floors == Floors(counts) && floorSum == Total(floors) && totalPool == Total(counts)
  {
    floors, floorSum, totalPool := ZEROS, 0, 0;
    ghost var seen := ZEROS;
    for i := 0 to |categories|
      invariant Collected(categories, i, counts, seen) && totalPool == Total(seen)
      invariant Collected(categories, i, Floors(counts), floors) && floorSum == Total(floors)
    {
      var c := categories[i];
      TotalAfterUpdate(seen, c, counts[c]);
      TotalAfterUpdate(floors, c, Min(CATEGORY_FLOOR, counts[c]));
      CollectedNext(categories, i, counts, seen);
      CollectedNext(categories, i, Floors(counts), floors);
      totalPool := totalPool + counts[c];
      seen := seen[c := counts[c]];
      floors := floors[c := Min(CATEGORY_FLOOR, counts[c])];
      floorSum := floorSum + Min(CATEGORY_FLOOR, counts[c]);
    }
    CollectedAll(categories, counts, seen);
    CollectedAll(categories, Floors(counts), floors);
  }

  lemma CollectedNext(list: seq<Category>, i: nat, from: Table, to: Table)
    requires NoDuplicates(list) && i < |list| && Collected(list, i, from, to)
    ensures to[list[i]] == 0 && Collected(list, i + 1, from, to[list[i] := from[list[i]]])
  {
    assert list[..i + 1] == list[..i] + [list[i]];
  }

  lemma CollectedAll(list: seq<Category>, from: Table, to: Table)
    requires Collected(list, |list|, from, to) && forall c: Category :: c in list || from[c] == 0
    ensures to == from
  {
    assert list[..|list|] == list;
  }

  /** The whole shares, each capped at the room left. */
  method GrantShares(counts: Table, categories: seq<Category>, shares: Table, floors: Table)
      returns (targets: Table, granted: int)
    requires SharesOk(counts, shares) && NonNegative(counts) && floors == Floors(counts)
    requires NoDuplicates(categories) && forall c: Category :: c in categories <==> counts[c] > 0
    ensures targets == Base(counts, shares) && Total(targets) == Total(floors) + granted
  {
    targets, granted := floors, 0;
    for i := 0 to |categories|
      invariant GrantedUpTo(counts, shares, categories, i, targets) && Total(targets) == Total(floors) + granted
    {
      var c := categories[i];
      var grant := Min(shares[c], counts[c] - floors[c]);
      GrantNext(counts, shares, categories, i, targets, grant);
      TotalAfterAdd(targets, c, grant);
      targets := Add(targets, c, grant);
      granted := granted + grant;
    }
    AllGranted(counts, shares, categories, targets);
  }

  lemma AllGranted(counts: Table, shares: Table, categories: seq<Category>, targets: Table)
    requires SharesOk(counts, shares) && NonNegative(counts) && forall c: Category :: c in categories <==> counts[c] > 0
    requires GrantedUpTo(counts, shares, categories, |categories|, targets)
    ensures targets == Base(counts, shares)
  {
    assert categories[..|categories|] == categories;
    BaseIsBetween(counts, shares);
  }

  ghost predicate GrantedUpTo(counts: Table, shares: Table, categories: seq<Category>, i: nat, targets: Table)
    requires i <= |categories|
  {
    forall c: Category :: targets[c] == if c in categories[..i] then Base(counts, shares)[c] else Floors(counts)[c]
  }

  lemma GrantNext(counts: Table, shares: Table, categories: seq<Category>, i: nat, targets: Table, grant: int)
    requires NoDuplicates(categories) && i < |categories| && GrantedUpTo(counts, shares, categories, i, targets)
    requires grant == Min(shares[categories[i]], counts[categories[i]] - Floors(counts)[categories[i]])
    ensures GrantedUpTo(counts, shares, categories, i + 1, Add(targets, categories[i], grant))
  {
    var d := categories[i];
    assert categories[..i + 1] == categories[..i] + [d] && d !in categories[..i];
    assert Base(counts, shares)[d] == Floors(counts)[d] + grant;
    forall c: Category ensures Add(targets, d, grant)[c] ==
        if c in categories[..i + 1] then Base(counts, shares)[c] else Floors(counts)[c] {
      assert c in categories[..i + 1] <==> c in categories[..i] || c == d;
    }
  }

  lemma TotalAfterAdd(t: Table, c: Category, k: int)
    ensures Total(Add(t, c, k)) == Total(t) + k
  {
    TotalAfterUpdate(t, c, t[c] + k);
  }

  function Add(t: Table, c: Category, k: int): Table {
    t[c := t[c] + k]
  }

  /** `apportionCategoryTargets`. The targets add up to the sample size unless the floors alone exceed
      it; each lies between its floor and its count; and the outcome is `Apportioned`. */
  method Apportion(counts: Table, totalSlots: nat) returns (targets: Table, sampleSize: int)
    requires NonNegative(counts)
    ensures sampleSize == Min(totalSlots, Total(counts))
    ensures forall c: Category :: Min(4, counts[c]) <= targets[c] <= counts[c]
    ensures Total(targets) == sampleSize <==> Total(Floors(counts)) <= totalSlots
    ensures Apportioned(counts, sampleSize, targets)
  {
    var categories := Present(counts, |CATEGORIES|);
    PresentOnes(counts, |CATEGORIES|);
    forall c: Category ensures Rank(c) < |CATEGORIES| { }
    var floorSum, totalPool;
    targets, floorSum, totalPool := AddFloors(counts, categories);
    sampleSize := Min(totalSlots, totalPool);
    var remaining := sampleSize - floorSum;
    TotalIsMonotone(Floors(counts), counts);
    if remaining > 0 {
      targets := PlaceRemaining(counts, categories, remaining, targets);
      PlacedIsLargestRemainders(counts, remaining, targets);
    }
  }

  /** Shares first, then the leftover by largest remainder. */
  method PlaceRemaining(counts: Table, categories: seq<Category>, remaining: nat, floors: Table)
      returns (targets: Table)
    requires NonNegative(counts) && Total(counts) > 0 && floors == Floors(counts)
             && Total(floors) + remaining <= Total(counts)
    requires NoDuplicates(categories) && forall c: Category :: c in categories <==> counts[c] > 0
    ensures Below(floors, targets) && Below(targets, counts) && Placed(counts, remaining, targets)
  {
    var shares, order := Shares(counts, remaining), Order(counts, Remainders(counts, remaining));
    SharesAreOk(counts, remaining);
    OrderOnes(counts, Remainders(counts, remaining));
    BaseIsBetween(counts, shares);
    CappedSharesFit(counts, remaining);
    var base, granted := GrantShares(counts, categories, shares, floors);
    ghost var level, pos;
    targets, level, pos := RoundRobin(counts, base, order, remaining - granted);
    FilledIsAboveBase(counts, base, order, level, pos, targets);
  }

  lemma FilledIsAboveBase(counts: Table, base: Table, order: seq<Category>, level: nat, pos: nat, targets: Table)
    requires Filled(counts, base, order, level, pos, targets) && Below(base, counts)
    ensures Below(base, targets)
  {
    NothingPlacedYet(counts, base, order);
    FurtherIsMore(counts, base, order, 0, 0, base, level, pos, targets);
  }

  /** The pilot's hundred slots exceed the largest possible sum of floors. */
  lemma FloorsFitInAHundred(counts: Table)
    requires NonNegative(counts)
    ensures 0 <= Total(Floors(counts)) <= 28
  {
  }
}
