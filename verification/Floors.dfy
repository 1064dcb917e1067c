/** How far the floor pass of sample-candidates.js can get: the exact count that every floor ends with. */
module Floors {
  import opened Apportionment
  import opened Selection

  /** The candidates of a category that could still be added for the floor, capacity aside. */
  ghost function Available(pool: seq<Candidate>, s: Spec, sel: seq<Candidate>, c: Category): set<Candidate> {
    set r | r in pool && r !in sel && r.category == c && Meets(OfSpec(s), r)
  }

  function Room(targets: Table, sel: seq<Candidate>, c: Category): nat {
    var left := targets[c] - Count(OfCategory(c), sel);
    if left > 0 then left else 0
  }

  /** How many candidates of one category the floor can still take. */
  ghost function ReachIn(pool: seq<Candidate>, targets: Table, s: Spec, sel: seq<Candidate>, c: Category): nat {
    Min(Room(targets, sel, c), |Available(pool, s, sel, c)|)
  }

  function SumOver(f: Category -> nat, n: nat): nat
    requires n <= |CATEGORIES|
  {
    if n == 0 then 0 else SumOver(f, n - 1) + f(CATEGORIES[n - 1])
  }

  /** How many candidates the floor can still take, over all categories. */
  ghost function Reach(pool: seq<Candidate>, targets: Table, s: Spec, sel: seq<Candidate>): nat {
    SumOver(c => ReachIn(pool, targets, s, sel, c), |CATEGORIES|)
  }

  lemma StuckReachesNothingIn(pool: seq<Candidate>, targets: Table, s: Spec, sel: seq<Candidate>, c: Category)
    requires Stuck(pool, targets, s, sel)
    ensures ReachIn(pool, targets, s, sel, c) == 0
  {
    if Available(pool, s, sel, c) != {} {
      var r :| r in Available(pool, s, sel, c);
      assert !Open(targets, sel, r);
    }
  }

  lemma {:induction false} SumOfZeros(f: Category -> nat, n: nat)
    requires n <= |CATEGORIES| && forall c :: f(c) == 0
    ensures SumOver(f, n) == 0
  {
    if n == 0 {
    } else {
      SumOfZeros(f, n - 1);
    }
  }

  /** A stuck floor reaches no further. */
  lemma StuckReachesNothing(pool: seq<Candidate>, targets: Table, s: Spec, sel: seq<Candidate>)
    requires Stuck(pool, targets, s, sel)
    ensures Reach(pool, targets, s, sel) == 0
  {
    forall c: Category ensures ReachIn(pool, targets, s, sel, c) == 0 {
      StuckReachesNothingIn(pool, targets, s, sel, c);
    }
    SumOfZeros(c => ReachIn(pool, targets, s, sel, c), |CATEGORIES|);
  }

  lemma AvailableAfter(pool: seq<Candidate>, s: Spec, sel: seq<Candidate>, r: Candidate, c: Category)
    requires r in pool && r !in sel && Meets(OfSpec(s), r)
    ensures |Available(pool, s, sel + [r], c)| == |Available(pool, s, sel, c)| - if c == r.category then 1 else 0
  {
    var before, after := Available(pool, s, sel, c), Available(pool, s, sel + [r], c);
    if c == r.category {
      assert r in before && after == before - {r};
    } else {
      assert after == before;
    }
  }

  lemma TakingOneFrom(pool: seq<Candidate>, targets: Table, s: Spec, sel: seq<Candidate>, r: Candidate, c: Category)
    requires r in pool && Meets(OfSpec(s), r) && Open(targets, sel, r)
    ensures ReachIn(pool, targets, s, sel + [r], c) == ReachIn(pool, targets, s, sel, c)
            - if c == r.category then 1 else 0
  {
    CountOneMore(OfCategory(c), sel, r);
    AvailableAfter(pool, s, sel, r, c);
  }

  lemma RankIsItsOwn(c: Category, n: nat)
    requires n < |CATEGORIES|
    ensures CATEGORIES[n] == c <==> Rank(c) == n
  {
    EveryCategoryIsListed(c);
    match n
    case _ =>
  }

  lemma {:induction false} SumLosesOne(f: Category -> nat, g: Category -> nat, k: Category, n: nat)
    requires n <= |CATEGORIES| && forall c :: g(c) == f(c) - if c == k then 1 else 0
    ensures SumOver(g, n) == SumOver(f, n) - if Rank(k) < n then 1 else 0
  {
    if n == 0 {
    } else {
      SumLosesOne(f, g, k, n - 1);
      RankIsItsOwn(k, n - 1);
    }
  }

  /** Taking an open candidate uses up one place of its category and nothing else. */
  lemma TakingOne(pool: seq<Candidate>, targets: Table, s: Spec, sel: seq<Candidate>, r: Candidate)
    requires r in pool && Meets(OfSpec(s), r) && Open(targets, sel, r)
    ensures Reach(pool, targets, s, sel + [r]) == Reach(pool, targets, s, sel) - 1
  {
    var more, k := sel + [r], r.category;
    forall c: Category ensures ReachIn(pool, targets, s, more, c) == ReachIn(pool, targets, s, sel, c)
        - if c == k then 1 else 0 {
      TakingOneFrom(pool, targets, s, sel, r, c);
    }
    SumLosesOne(c => ReachIn(pool, targets, s, sel, c), c => ReachIn(pool, targets, s, more, c), k, |CATEGORIES|);
    EveryCategoryIsListed(k);
  }

  /** What a floor with `current` candidates and so much within reach ends with. */
  function EndsWith(current: int, target: int, reach: nat): int {
    if current >= target then current else Min(target, current + reach)
  }

  lemma OnePick(pool: seq<Candidate>, targets: Table, s: Spec, sel: seq<Candidate>, r: Candidate)
    requires r in pool && Meets(OfSpec(s), r) && Open(targets, sel, r)
    ensures Count(OfSpec(s), sel + [r]) == Count(OfSpec(s), sel) + 1
    ensures Reach(pool, targets, s, sel + [r]) == Reach(pool, targets, s, sel) - 1
  {
    CountOneMore(OfSpec(s), sel, r);
    TakingOne(pool, targets, s, sel, r);
  }

  lemma FloorIsDone(pool: seq<Candidate>, targets: Table, s: Spec, sel: seq<Candidate>)
    requires Count(OfSpec(s), sel) >= s.target || NextPick(pool, targets, s, sel, 0) == |pool|
    ensures FillFloor(pool, targets, s, sel) == sel
  {
  }

  lemma FloorPicks(pool: seq<Candidate>, targets: Table, s: Spec, sel: seq<Candidate>)
    requires Count(OfSpec(s), sel) < s.target && NextPick(pool, targets, s, sel, 0) < |pool|
    ensures FillFloor(pool, targets, s, sel)
            == FillFloor(pool, targets, s, sel + [pool[NextPick(pool, targets, s, sel, 0)]])
  {
  }

  lemma NoPickIsStuck(pool: seq<Candidate>, targets: Table, s: Spec, sel: seq<Candidate>)
    requires NextPick(pool, targets, s, sel, 0) == |pool|
    ensures Stuck(pool, targets, s, sel)
  {
  }

  /** A floor at its turn keeps what it has, or gets as much of its target as the room in the categories
      and the matching candidates allow: never less and never more. */
  lemma {:induction false} FloorEndsWith(pool: seq<Candidate>, targets: Table, s: Spec, sel: seq<Candidate>)
    ensures Count(OfSpec(s), FillFloor(pool, targets, s, sel))
         == EndsWith(Count(OfSpec(s), sel), s.target, Reach(pool, targets, s, sel))
    decreases s.target - Count(OfSpec(s), sel)
  {
    var i := NextPick(pool, targets, s, sel, 0);
    if Count(OfSpec(s), sel) >= s.target {
      FloorIsDone(pool, targets, s, sel);
    } else if i == |pool| {
      FloorIsDone(pool, targets, s, sel);
      NoPickIsStuck(pool, targets, s, sel);
      StuckReachesNothing(pool, targets, s, sel);
    } else {
      var more := sel + [pool[i]];
      FloorPicks(pool, targets, s, sel);
      OnePick(pool, targets, s, sel, pool[i]);
      FloorEndsWith(pool, targets, s, more);
    }
  }

  lemma PrefixOfPrefix<T>(a: seq<T>, b: seq<T>, c: seq<T>)
    requires a <= b && b <= c
    ensures a <= c
  {
  }

  lemma FloorsGrow(pool: seq<Candidate>, targets: Table, specs: seq<Spec>, n: nat)
    requires n < |specs|
    ensures FillFloors(pool, targets, specs, n) <= FillFloors(pool, targets, specs, n + 1)
  {
    FloorsBuild(pool, targets, specs, n);
    FillFloorSettles(pool, targets, specs[n], FillFloors(pool, targets, specs, n));
  }

  lemma {:induction false} FloorsInOrder(pool: seq<Candidate>, targets: Table, specs: seq<Spec>, i: nat, n: nat)
    requires i <= n <= |specs|
    ensures FillFloors(pool, targets, specs, i) <= FillFloors(pool, targets, specs, n)
    decreases n - i
  {
    if i == n {
    } else {
      FloorsGrow(pool, targets, specs, i);
      FloorsInOrder(pool, targets, specs, i + 1, n);
      PrefixOfPrefix(FillFloors(pool, targets, specs, i), FillFloors(pool, targets, specs, i + 1),
          FillFloors(pool, targets, specs, n));
    }
  }

  /** The selection after the turn of a floor is settled and only grows. */
  lemma AfterItsTurn(pool: seq<Candidate>, targets: Table, size: int, specs: seq<Spec>, i: nat)
    requires i < |specs|
    ensures Settled(pool, targets, specs[i], FillFloors(pool, targets, specs, i + 1))
    ensures FillFloors(pool, targets, specs, i + 1) <= Selected(pool, targets, size, specs)
    ensures WellBuilt(pool, targets, Selected(pool, targets, size, specs))
  {
    FloorIsSettled(pool, targets, specs, i + 1, i);
    FloorsInOrder(pool, targets, specs, i + 1, |specs|);
    SelectedIsBuilt(pool, targets, size, specs);
    PrefixOfPrefix(FillFloors(pool, targets, specs, i + 1), FillFloors(pool, targets, specs, |specs|),
        Selected(pool, targets, size, specs));
  }

  /** What a floor could have at most when its turn comes. */
  ghost function MostAtItsTurn(pool: seq<Candidate>, targets: Table, specs: seq<Spec>, i: nat): int
    requires i < |specs|
  {
    var turn := FillFloors(pool, targets, specs, i);
    Count(OfSpec(specs[i]), turn) + Reach(pool, targets, specs[i], turn)
  }

  /** The finished selection misses a floor exactly when, at the turn of that floor, the room left in the
      categories and the matching candidates did not suffice; what it then has is all that could be had. */
  lemma UnmetIffOutOfReach(pool: seq<Candidate>, targets: Table, size: int, specs: seq<Spec>, i: nat)
    requires i < |specs|
    ensures var ends := Count(OfSpec(specs[i]), Selected(pool, targets, size, specs));
            && (ends < specs[i].target <==> MostAtItsTurn(pool, targets, specs, i) < specs[i].target)
            && (ends < specs[i].target ==> ends == MostAtItsTurn(pool, targets, specs, i))
  {
    AfterItsTurn(pool, targets, size, specs, i);
    FloorEndsWith(pool, targets, specs[i], FillFloors(pool, targets, specs, i));
    SettledForGood(pool, targets, specs[i], FillFloors(pool, targets, specs, i + 1),
        Selected(pool, targets, size, specs));
  }
}
