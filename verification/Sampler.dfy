/** sample-candidates.js: one representative per registration, and the whole sampling pipeline. */
module Sampler {
  import opened Records
  import opened Orders
  import opened Apportionment
  import opened Selection
  import Identity
  import Normalise

  const TARGET_SAMPLE_SIZE: nat := 100

  /** A source row: `index` is `__poolIndex` and `rank` the rank of its postcode's completeness class. */
  datatype Row = Row(index: nat, registration: Option<string>, rank: nat, hasTradingName: bool, postcode: string)

  datatype Representative = Representative(row: Row, sourceRowCount: nat)

  function RegisterId(raw: Option<string>): Option<string> {
    if raw.Some? && Normalise.Squeeze(raw.value) != "" then Some(Normalise.Squeeze(raw.value)) else None
  }

  function Fallback(index: nat): string {
    "__NO_REG_NUM__" + Identity.Decimal(index)
  }

  function Key(row: Row): string {
    match RegisterId(row.registration)
    case Some(id) => id
    case None => Fallback(row.index)
  }

  /** Rows fall into one group exactly when they share a registration number; a row without a number is
      on its own unless another row's number is spelt like its fallback key. */
  lemma SameGroupIff(a: Row, b: Row)
    ensures Key(a) == Key(b) <==>
            match (RegisterId(a.registration), RegisterId(b.registration))
            case (Some(x), Some(y)) => x == y
            case (None, None) => a.index == b.index
            case (Some(x), None) => x == Fallback(b.index)
            case (None, Some(y)) => y == Fallback(a.index)
  {
    if RegisterId(a.registration).None? && RegisterId(b.registration).None? && Key(a) == Key(b) {
      var n := |"__NO_REG_NUM__"|;
      assert Key(a)[n..] == Identity.Decimal(a.index) && Key(b)[n..] == Identity.Decimal(b.index);
      Identity.DecimalIsInjective(a.index, b.index);
    }
  }

  lemma FallbackIsNormal(n: nat)
    ensures Normalise.Squeeze(Fallback(n)) == Fallback(n)
  {
    var s := Fallback(n);
    Identity.DecimalIsDigits(n);
    Normalise.SqueezedIsKept(Normalise.Ascii, s);
  }

  /** Such a number can occur: a row whose registration number is spelt like the fallback key of an
      unnumbered row shares that row's group. */
  lemma FallbackKeyCanCollide(unnumbered: Row, index: nat)
    requires RegisterId(unnumbered.registration).None?
    ensures var spelt := unnumbered.(index := index, registration := Some(Fallback(unnumbered.index)));
            RegisterId(spelt.registration).Some? && Key(spelt) == Key(unnumbered)
  {
    FallbackIsNormal(unnumbered.index);
  }

  /** The order in which a group's rows are preferred: complete postcode, trading name, source order,
      then the postcode itself. */
  predicate Better(less: (string, string) -> bool, a: Row, b: Row) {
    if a.rank != b.rank then a.rank < b.rank
    else if a.hasTradingName != b.hasTradingName then a.hasTradingName
    else if a.index != b.index then a.index < b.index
    else less(a.postcode, b.postcode)
  }

  // ---------- grouping ----------

  /** The rows of one key, in source order. */
  function Group(pool: seq<Row>, key: string): seq<Row> {
    if pool == [] then []
    else Group(pool[..|pool| - 1], key) + if Key(pool[|pool| - 1]) == key then [pool[|pool| - 1]] else []
  }

  /** The distinct keys, in the order in which the Map meets them. */
  function Keys(pool: seq<Row>): seq<string> {
    if pool == [] then []
    else
      var before, key := Keys(pool[..|pool| - 1]), Key(pool[|pool| - 1]);
      if key in before then before else before + [key]
  }

  lemma {:induction false} GroupMembers(pool: seq<Row>, key: string, r: Row)
    ensures r in Group(pool, key) <==> r in pool && Key(r) == key
  {
    if pool == [] {
    } else {
      GroupMembers(pool[..|pool| - 1], key, r);
      assert pool == pool[..|pool| - 1] + [pool[|pool| - 1]];
    }
  }

  lemma {:induction false} KeysAre(pool: seq<Row>)
    ensures NoDuplicates(Keys(pool))
    ensures forall r :: r in pool ==> Key(r) in Keys(pool)
    ensures forall k :: k in Keys(pool) ==> Group(pool, k) != []
  {
    if pool == [] {
    } else {
      var front, last := pool[..|pool| - 1], pool[|pool| - 1];
      KeysAre(front);
      forall r | r in pool ensures Key(r) in Keys(pool) {
        assert r in front || r == last by { assert pool == front + [last]; }
      }
      forall k | k in Keys(pool) ensures Group(pool, k) != [] {
        assert k in Keys(front) || k == Key(last);
      }
    }
  }

  /** The rows counted over a list of keys. */
  function Covered(pool: seq<Row>, keys: seq<string>): nat {
    if keys == [] then 0 else Covered(pool, keys[..|keys| - 1]) + |Group(pool, keys[|keys| - 1])|
  }

  lemma {:induction false} CoveredOneMore(pool: seq<Row>, keys: seq<string>)
    requires pool != [] && NoDuplicates(keys)
    ensures Covered(pool, keys) == Covered(pool[..|pool| - 1], keys) + if Key(pool[|pool| - 1]) in keys then 1 else 0
  {
    if keys == [] {
    } else {
      var front, key := keys[..|keys| - 1], keys[|keys| - 1];
      CoveredOneMore(pool, front);
      assert keys == front + [key] && key !in front;
    }
  }

  /** Conservation: every source row is counted in exactly one group. */
  lemma {:induction false} EveryRowIsCounted(pool: seq<Row>)
    ensures Covered(pool, Keys(pool)) == |pool|
  {
    if pool == [] {
    } else {
      EveryRowIsCounted(pool[..|pool| - 1]);
      LastRowIsCounted(pool);
    }
  }

  lemma LastRowIsCounted(pool: seq<Row>)
    requires pool != []
    ensures Covered(pool, Keys(pool)) == Covered(pool[..|pool| - 1], Keys(pool[..|pool| - 1])) + 1
  {
    var front, last := pool[..|pool| - 1], pool[|pool| - 1];
    KeysAre(front);
    CoveredOneMore(pool, Keys(front));
    if Key(last) !in Keys(front) {
      NoRows(front, Key(last));
      assert Keys(pool)[..|Keys(front)|] == Keys(front);
    }
  }

  lemma NoRows(pool: seq<Row>, key: string)
    requires key !in Keys(pool)
    ensures Group(pool, key) == []
  {
    KeysAre(pool);
    var g := Group(pool, key);
    if g != [] {
      GroupMembers(pool, key, g[0]);
    }
  }

  // ---------- representatives ----------

  function Best(less: (string, string) -> bool, rows: seq<Row>): seq<Row> {
    SortBy((a, b) => Better(less, a, b), rows)
  }

  ghost predicate Represents(less: (string, string) -> bool, pool: seq<Row>, key: string, r: Representative) {
    && r.row in pool && Key(r.row) == key
    && (forall other :: other in pool && Key(other) == key ==> !Better(less, other, r.row))
    && r.sourceRowCount == |Group(pool, key)| >= 1
  }

  lemma BestRepresents(less: (string, string) -> bool, pool: seq<Row>, key: string)
    requires StrictTotal(less) && key in Keys(pool)
    ensures Best(less, Group(pool, key)) != []
    ensures Represents(less, pool, key, Representative(Best(less, Group(pool, key))[0], |Group(pool, key)|))
  {
    var g := Group(pool, key);
    KeysAre(pool);
    SortedHeadIsMinimal((a, b) => Better(less, a, b), g);
    GroupMembers(pool, key, Best(less, g)[0]);
    forall other | other in pool && Key(other) == key ensures !Better(less, other, Best(less, g)[0]) {
      GroupMembers(pool, key, other);
    }
  }

  /** The representative stands before every other row of its key: by the rank of its postcode, then by
      having a trading name, then by its place in the pool, and never after it by postcode. */
  lemma RepresentativeComesFirst(less: (string, string) -> bool, pool: seq<Row>, key: string, r: Representative,
                                 other: Row)
    requires Represents(less, pool, key, r) && other in pool && Key(other) == key
    ensures r.row.rank <= other.rank
    ensures r.row.rank == other.rank && other.hasTradingName ==> r.row.hasTradingName
    ensures r.row.rank == other.rank && r.row.hasTradingName == other.hasTradingName ==>
            r.row.index < other.index || (r.row.index == other.index && !less(other.postcode, r.row.postcode))
  {
    assert !Better(less, other, r.row);
  }

  /** With distinct pool indices the representative of a key is unique, whatever the row order. */
  lemma RepresentativeIsUnique(less: (string, string) -> bool, pool: seq<Row>, pool': seq<Row>, key: string,
                               r: Representative, r': Representative)
    requires multiset(pool) == multiset(pool') && Represents(less, pool, key, r) && Represents(less, pool', key, r')
    requires forall a, b :: a in pool && b in pool && a.index == b.index ==> a == b
    ensures r.row == r'.row
  {
    SameMembers(pool, pool');
    assert !Better(less, r.row, r'.row) && !Better(less, r'.row, r.row);
  }

  ghost predicate Grouped(pool: seq<Row>, groups: map<string, seq<Row>>) {
    forall k :: (k in groups <==> k in Keys(pool)) && (k in groups ==> groups[k] == Group(pool, k))
  }

  lemma GroupedOneMore(pool: seq<Row>, row: Row, groups: map<string, seq<Row>>)
    requires Grouped(pool, groups)
    ensures Grouped(pool + [row], groups[Key(row) := (if Key(row) in groups then groups[Key(row)] else []) + [row]])
  {
    assert (pool + [row])[..|pool|] == pool;
    if Key(row) !in groups { NoRows(pool, Key(row)); }
  }

  /** The first loop: rows by key, and the keys in the order in which they appear. */
  method GroupRows(pool: seq<Row>) returns (groups: map<string, seq<Row>>, order: seq<string>)
    ensures Grouped(pool, groups) && order == Keys(pool)
  {
    groups, order := map[], [];
    for i := 0 to |pool|
      invariant Grouped(pool[..i], groups) && order == Keys(pool[..i])
    {
      var key := Key(pool[i]);
      GroupedOneMore(pool[..i], pool[i], groups);
      PrefixOneMore(pool, i);
      if key !in groups { order := order + [key]; }
      groups := groups[key := (if key in groups then groups[key] else []) + [pool[i]]];
    }
    assert pool[..|pool|] == pool;
  }

  lemma PrefixOneMore(pool: seq<Row>, i: nat)
    requires i < |pool|
    ensures pool[..i + 1] == pool[..i] + [pool[i]]
    ensures Keys(pool[..i + 1]) ==
            if Key(pool[i]) in Keys(pool[..i]) then Keys(pool[..i]) else Keys(pool[..i]) + [Key(pool[i])]
  {
    assert pool[..i + 1] == pool[..i] + [pool[i]];
  }

  /** `deduplicateByRegistrationNumber`. */
  method Deduplicate(less: (string, string) -> bool, rawPool: seq<Row>) returns (reps: seq<Representative>)
    requires StrictTotal(less)
    ensures |reps| == |Keys(rawPool)|
    ensures forall i :: 0 <= i < |reps| ==> Represents(less, rawPool, Keys(rawPool)[i], reps[i])
  {
    var groups, order := GroupRows(rawPool);
    reps := [];
    for i := 0 to |order|
      invariant |reps| == i
      invariant forall j :: 0 <= j < i ==> Represents(less, rawPool, order[j], reps[j])
    {
      BestRepresents(less, rawPool, order[i]);
      var rows := groups[order[i]];
      reps := reps + [Representative(Best(less, rows)[0], |rows|)];
    }
  }

  // ---------- the pipeline ----------

  datatype Classification = Classification(category: Category, classes: Classes)

  function Classified(rep: Representative, classify: Row -> Classification): Candidate {
    var c := classify(rep.row);
    var id := RegisterId(rep.row.registration);
    Candidate(rep.row.index, if id.Some? then id.value else "", c.category, c.classes)
  }

  /** The candidate that stands for a source row. */
  ghost predicate StandsFor(r: Candidate, row: Row, classify: Row -> Classification) {
    && r.index == row.index && r.category == classify(row).category && r.classes == classify(row).classes
    && (r.regNo != "" <==> RegisterId(row.registration).Some?) && (r.regNo != "" ==> r.regNo == Key(row))
  }

  function ClassifyAll(reps: seq<Representative>, classify: Row -> Classification): seq<Candidate> {
    seq(|reps|, i requires 0 <= i < |reps| => Classified(reps[i], classify))
  }

  lemma CandidateStandsFor(reps: seq<Representative>, classify: Row -> Classification, r: Candidate)
    requires r in ClassifyAll(reps, classify)
    ensures exists i :: 0 <= i < |reps| && StandsFor(r, reps[i].row, classify)
  {
    var i :| 0 <= i < |reps| && ClassifyAll(reps, classify)[i] == r;
    assert StandsFor(r, reps[i].row, classify);
  }

  lemma CandidatesAreDistinct(less: (string, string) -> bool, rawPool: seq<Row>, reps: seq<Representative>,
                              classify: Row -> Classification)
    requires |reps| == |Keys(rawPool)| && forall i :: 0 <= i < |reps| ==>
             Represents(less, rawPool, Keys(rawPool)[i], reps[i])
    requires forall a, b :: a in rawPool && b in rawPool && a.index == b.index ==> a == b
    ensures NoDuplicates(ClassifyAll(reps, classify))
  {
    KeysAre(rawPool);
    var pool := ClassifyAll(reps, classify);
    forall i, j | 0 <= i < j < |pool| ensures pool[i] != pool[j] {
      assert Represents(less, rawPool, Keys(rawPool)[i], reps[i])
          && Represents(less, rawPool, Keys(rawPool)[j], reps[j]);
      assert Keys(rawPool)[i] != Keys(rawPool)[j];
    }
  }

  /** The apportioned targets meet everything the selection needs. */
  lemma TargetsAlwaysFit(pool: seq<Candidate>, targets: Table, sampleSize: int)
    requires sampleSize == Min(Min(TARGET_SAMPLE_SIZE, |pool|), Total(CountTable(pool)))
    requires forall c: Category :: Min(CATEGORY_FLOOR, CountTable(pool)[c]) <= targets[c] <= CountTable(pool)[c]
    requires Total(targets) == sampleSize <==> Total(Floors(CountTable(pool))) <= Min(TARGET_SAMPLE_SIZE, |pool|)
    ensures TargetsFit(pool, targets, sampleSize) && sampleSize == Min(TARGET_SAMPLE_SIZE, |pool|)
  {
    var counts := CountTable(pool);
    CountsByCategory(pool);
    FloorsFitInAHundred(counts);
    TotalIsMonotone(Floors(counts), counts);
    forall c: Category ensures 0 <= targets[c] <= Count(OfCategory(c), pool) {
      assert counts[c] == Count(OfCategory(c), pool);
    }
  }

  /** `sampleCandidates` after parsing: exactly a hundred candidates, or all registrations if there are
      fewer, each registration at most once. The sample is the two-pass selection for the apportioned
      targets, in registration-number order, and the reported floors are those it misses. */
  method SampleCandidates(less: (string, string) -> bool, rawPool: seq<Row>, classify: Row -> Classification)
      returns (sample: seq<Candidate>, targets: Table, unreachable: seq<Unmet>, ghost reps: seq<Representative>)
    requires StrictTotal(less) && forall i :: 0 <= i < |rawPool| ==> rawPool[i].index == i
    ensures |sample| == Min(100, |Keys(rawPool)|) && NoDuplicates(sample)
    ensures |reps| == |Keys(rawPool)| && forall i :: 0 <= i < |reps| ==>
            Represents(less, rawPool, Keys(rawPool)[i], reps[i])
    ensures forall r :: r in sample ==>
            r in ClassifyAll(reps, classify) && exists i :: 0 <= i < |reps| && StandsFor(r, reps[i].row, classify)
    ensures forall i, j :: 0 <= i < j < |sample| ==> !less(sample[j].regNo, sample[i].regNo)
    ensures forall c: Category :: Count(OfCategory(c), sample) == targets[c]
    ensures Apportioned(CountTable(ClassifyAll(reps, classify)), |sample|, targets)
    ensures var pool := ClassifyAll(reps, classify);
            && sample == InOrder(less, Selected(InOrder(less, pool), targets, |sample|, AllSpecs(less, pool)))
            && unreachable == ListUnmet(AllSpecs(less, pool), |AllSpecs(less, pool)|, sample)
  {
    var representatives := Deduplicate(less, rawPool);
    reps := representatives;
    var pool := ClassifyAll(representatives, classify);
    CandidatesAreDistinct(less, rawPool, reps, classify);
    var sampleSize, floorPass;
    targets, sampleSize := Apportion(CountTable(pool), Min(TARGET_SAMPLE_SIZE, |pool|));
    TargetsAlwaysFit(pool, targets, sampleSize);
    sample, floorPass, unreachable := SelectSample(less, pool, sampleSize, targets);
    forall r | r in sample ensures exists i :: 0 <= i < |reps| && StandsFor(r, reps[i].row, classify) {
      assert r in pool;
      CandidateStandsFor(reps, classify, r);
    }
  }
}
