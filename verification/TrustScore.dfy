/** observatory/aggregation/trust-score-aggregator.js: the weighted Trust Score. Amounts that the code
    rounds to three decimals are integers in thousandths; quality scores are reals from 0 to 100. */
module TrustScore {

  datatype SignalId = Spf | Dkim | Dmarc | Dnssec | Caa | SecurityHeaders | SecurityTxt | Tls | Certificate | Mtasts

  datatype Category = A | B | C | D

  const IN_SCOPE_SIGNALS: seq<SignalId> := [Spf, Dkim, Dmarc, Dnssec, Caa, SecurityHeaders, SecurityTxt, Tls,
      Certificate, Mtasts]

  function CategoryOf(s: SignalId): Category {
    match s
    case Spf | Dkim | Dmarc => A
    case Dnssec | Caa => B
    case SecurityHeaders | SecurityTxt => C
    case Tls | Certificate | Mtasts => D
  }

  /** A governed weight set: a positive weight for every signal. */
  type Weights = w: map<SignalId, nat> | forall s: SignalId :: s in w && w[s] > 0
    witness map s: SignalId | true :: 1

  /** The scores of the observed signals. */
  type Scores = m: map<SignalId, real> | forall s: SignalId :: s in m ==> 0.0 <= m[s] <= 100.0
    witness map[]

  /** `round3` in thousandths. */
  function Thousandths(x: real): int {
    (x * 1000.0 + 0.5).Floor
  }

  function RoundHalfUp(x: real): int {
    (x + 0.5).Floor
  }

  /** Both round to the nearest, and a half upwards. */
  lemma RoundsHalfUp(x: real)
    ensures RoundHalfUp(x) as real - 0.5 <= x < RoundHalfUp(x) as real + 0.5
    ensures (Thousandths(x) as real - 0.5) / 1000.0 <= x < (Thousandths(x) as real + 0.5) / 1000.0
  {
    var n := Thousandths(x);
    assert n as real <= x * 1000.0 + 0.5 < n as real + 1.0;
  }

  function Earned(score: real, weight: nat): int {
    Thousandths(score / 100.0 * weight as real)
  }

  // ---------- the sums ----------

  /** Earned thousandths and attainable weight of the observed signals among the first `n`, in one
      category or, without a category, in all. */
  function EarnedBy(scores: Scores, weights: Weights, c: set<Category>, n: nat): int
    requires n <= |IN_SCOPE_SIGNALS|
  {
    if n == 0 then 0
    else
      var s := IN_SCOPE_SIGNALS[n - 1];
      EarnedBy(scores, weights, c, n - 1) + if s in scores && CategoryOf(s) in c then Earned(scores[s], weights[s])
          else 0
  }

  function AttainableBy(scores: Scores, weights: Weights, c: set<Category>, n: nat): nat
    requires n <= |IN_SCOPE_SIGNALS|
  {
    if n == 0 then 0
    else
      var s := IN_SCOPE_SIGNALS[n - 1];
      AttainableBy(scores, weights, c, n - 1) + if s in scores && CategoryOf(s) in c then weights[s] else 0
  }

  const ALL: set<Category> := {A, B, C, D}

  function Universe(weights: Weights, n: nat): nat
    requires n <= |IN_SCOPE_SIGNALS|
  {
    if n == 0 then 0 else Universe(weights, n - 1) + weights[IN_SCOPE_SIGNALS[n - 1]]
  }

  /** The exact weighted sum, before any rounding. */
  function ExactBy(scores: Scores, weights: Weights, n: nat): real
    requires n <= |IN_SCOPE_SIGNALS|
  {
    if n == 0 then 0.0
    else
      var s := IN_SCOPE_SIGNALS[n - 1];
      ExactBy(scores, weights, n - 1) + if s in scores then scores[s] / 100.0 * weights[s] as real else 0.0
  }

  lemma EarnedIsBounded(score: real, weight: nat)
    requires 0.0 <= score <= 100.0
    ensures 0 <= Earned(score, weight) <= 1000 * weight
    ensures -0.0005 <= Earned(score, weight) as real / 1000.0 - score / 100.0 * weight as real <= 0.0005
  {
  }

  /** 0 <= E <= A, in every set of categories. */
  lemma {:induction false} EarnedWithinAttainable(scores: Scores, weights: Weights, c: set<Category>, n: nat)
    requires n <= |IN_SCOPE_SIGNALS|
    ensures 0 <= EarnedBy(scores, weights, c, n) <= 1000 * AttainableBy(scores, weights, c, n)
  {
    if n == 0 {
    } else {
      var s := IN_SCOPE_SIGNALS[n - 1];
      EarnedWithinAttainable(scores, weights, c, n - 1);
      if s in scores { EarnedIsBounded(scores[s], weights[s]); }
    }
  }

  /** The categories partition the totals. */
  lemma {:induction false} CategoriesAddUp(scores: Scores, weights: Weights, n: nat)
    requires n <= |IN_SCOPE_SIGNALS|
    ensures EarnedBy(scores, weights, ALL, n)
         == EarnedBy(scores, weights, {A}, n) + EarnedBy(scores, weights, {B}, n) + EarnedBy(scores, weights, {C}, n)
             + EarnedBy(scores, weights, {D}, n)
    ensures AttainableBy(scores, weights, ALL, n)
         == AttainableBy(scores, weights, {A}, n) + AttainableBy(scores, weights, {B}, n)
             + AttainableBy(scores, weights, {C}, n) + AttainableBy(scores, weights, {D}, n)
  {
    if n == 0 {
    } else {
      CategoriesAddUp(scores, weights, n - 1);
    }
  }

  /** What one signal adds to the attainable weight, and to the earned thousandths. */
  function WeightOf(scores: Scores, weights: Weights, s: SignalId): nat {
    if s in scores then weights[s] else 0
  }

  function EarnedOf(scores: Scores, weights: Weights, s: SignalId): int {
    if s in scores then Earned(scores[s], weights[s]) else 0
  }

  function WeightIn(scores: Scores, weights: Weights, c: Category, s: SignalId): int {
    if CategoryOf(s) == c then WeightOf(scores, weights, s) else 0
  }

  lemma CategoryWeighsNext(scores: Scores, weights: Weights, c: Category, n: nat, s: SignalId)
    requires n < |IN_SCOPE_SIGNALS| && IN_SCOPE_SIGNALS[n] == s
    ensures AttainableBy(scores, weights, {c}, n + 1)
            == AttainableBy(scores, weights, {c}, n) + WeightIn(scores, weights, c, s)
  {
  }

  lemma CategoryWeighsAll(scores: Scores, weights: Weights, c: Category)
    ensures AttainableBy(scores, weights, {c}, |IN_SCOPE_SIGNALS|) ==
            WeightIn(scores, weights, c, Spf) + WeightIn(scores, weights, c, Dkim) + WeightIn(scores,
            weights, c, Dmarc) + WeightIn(scores, weights, c, Dnssec) + WeightIn(scores, weights, c,
            Caa) + WeightIn(scores, weights, c, SecurityHeaders) + WeightIn(scores, weights, c,
            SecurityTxt) + WeightIn(scores, weights, c, Tls) + WeightIn(scores, weights, c, Certificate)
            + WeightIn(scores, weights, c, Mtasts)
  {
    var n := 0;
    CategoryWeighsNext(scores, weights, c, n, Spf);
    n := n + 1;
    CategoryWeighsNext(scores, weights, c, n, Dkim);
    n := n + 1;
    CategoryWeighsNext(scores, weights, c, n, Dmarc);
    n := n + 1;
    CategoryWeighsNext(scores, weights, c, n, Dnssec);
    n := n + 1;
    CategoryWeighsNext(scores, weights, c, n, Caa);
    n := n + 1;
    CategoryWeighsNext(scores, weights, c, n, SecurityHeaders);
    n := n + 1;
    CategoryWeighsNext(scores, weights, c, n, SecurityTxt);
    n := n + 1;
    CategoryWeighsNext(scores, weights, c, n, Tls);
    n := n + 1;
    CategoryWeighsNext(scores, weights, c, n, Certificate);
    n := n + 1;
    CategoryWeighsNext(scores, weights, c, n, Mtasts);
  }

  /** The signals that make up each category, by their attainable weights. */
  lemma CategoryWeighs(scores: Scores, weights: Weights, c: Category)
    ensures AttainableBy(scores, weights, {c}, |IN_SCOPE_SIGNALS|) ==
            match c
            case A =>
              WeightOf(scores, weights, Spf) + WeightOf(scores, weights, Dkim)
              + WeightOf(scores, weights, Dmarc)
            case B => WeightOf(scores, weights, Dnssec) + WeightOf(scores, weights, Caa)
            case C => WeightOf(scores, weights, SecurityHeaders) + WeightOf(scores, weights, SecurityTxt)
            case D =>
              WeightOf(scores, weights, Tls) + WeightOf(scores, weights, Certificate)
              + WeightOf(scores, weights, Mtasts)
  {
    CategoryWeighsAll(scores, weights, c);
  }

  function EarnedIn(scores: Scores, weights: Weights, c: Category, s: SignalId): int {
    if CategoryOf(s) == c then EarnedOf(scores, weights, s) else 0
  }

  lemma CategoryEarnsNext(scores: Scores, weights: Weights, c: Category, n: nat, s: SignalId)
    requires n < |IN_SCOPE_SIGNALS| && IN_SCOPE_SIGNALS[n] == s
    ensures EarnedBy(scores, weights, {c}, n + 1)
            == EarnedBy(scores, weights, {c}, n) + EarnedIn(scores, weights, c, s)
  {
  }

  lemma CategoryEarnsAll(scores: Scores, weights: Weights, c: Category)
    ensures EarnedBy(scores, weights, {c}, |IN_SCOPE_SIGNALS|) ==
            EarnedIn(scores, weights, c, Spf) + EarnedIn(scores, weights, c, Dkim) + EarnedIn(scores,
            weights, c, Dmarc) + EarnedIn(scores, weights, c, Dnssec) + EarnedIn(scores, weights, c,
            Caa) + EarnedIn(scores, weights, c, SecurityHeaders) + EarnedIn(scores, weights, c,
            SecurityTxt) + EarnedIn(scores, weights, c, Tls) + EarnedIn(scores, weights, c, Certificate)
            + EarnedIn(scores, weights, c, Mtasts)
  {
    var n := 0;
    CategoryEarnsNext(scores, weights, c, n, Spf);
    n := n + 1;
    CategoryEarnsNext(scores, weights, c, n, Dkim);
    n := n + 1;
    CategoryEarnsNext(scores, weights, c, n, Dmarc);
    n := n + 1;
    CategoryEarnsNext(scores, weights, c, n, Dnssec);
    n := n + 1;
    CategoryEarnsNext(scores, weights, c, n, Caa);
    n := n + 1;
    CategoryEarnsNext(scores, weights, c, n, SecurityHeaders);
    n := n + 1;
    CategoryEarnsNext(scores, weights, c, n, SecurityTxt);
    n := n + 1;
    CategoryEarnsNext(scores, weights, c, n, Tls);
    n := n + 1;
    CategoryEarnsNext(scores, weights, c, n, Certificate);
    n := n + 1;
    CategoryEarnsNext(scores, weights, c, n, Mtasts);
  }

  /** The signals that make up each category, by what they earn. */
  lemma CategoryEarns(scores: Scores, weights: Weights, c: Category)
    ensures EarnedBy(scores, weights, {c}, |IN_SCOPE_SIGNALS|) ==
            match c
            case A =>
              EarnedOf(scores, weights, Spf) + EarnedOf(scores, weights, Dkim)
              + EarnedOf(scores, weights, Dmarc)
            case B => EarnedOf(scores, weights, Dnssec) + EarnedOf(scores, weights, Caa)
            case C => EarnedOf(scores, weights, SecurityHeaders) + EarnedOf(scores, weights, SecurityTxt)
            case D =>
              EarnedOf(scores, weights, Tls) + EarnedOf(scores, weights, Certificate)
              + EarnedOf(scores, weights, Mtasts)
  {
    CategoryEarnsAll(scores, weights, c);
  }

  lemma {:induction false} AttainableWithinUniverse(scores: Scores, weights: Weights, c: set<Category>, n: nat)
    requires n <= |IN_SCOPE_SIGNALS|
    ensures AttainableBy(scores, weights, c, n) <= Universe(weights, n) && (n > 0 ==> Universe(weights, n) > 0)
  {
    if n == 0 {
    } else {
      AttainableWithinUniverse(scores, weights, c, n - 1);
    }
  }

  // ---------- the score ----------

  datatype Label = InsufficientObservation | Scored

  /** The rounded score of `e` earned thousandths over an attainable weight `a`. */
  function ScoreOf(e: int, a: nat): int
    requires a > 0
  {
    var raw := RoundHalfUp(e as real / 1000.0 / a as real * 999.0);
    var low := if raw > 1 then raw else 1;
    if low < 999 then low else 999
  }

  /** The score is the ratio on the scale of 999, rounded half upwards and kept between 1 and 999. */
  lemma ScoreIsRounded(e: int, a: nat)
    requires a > 0
    ensures var x, s := e as real / 1000.0 / a as real * 999.0, ScoreOf(e, a);
            && 1 <= s <= 999
            && (1 < s ==> s as real - 0.5 <= x)
            && (s < 999 ==> x < s as real + 0.5)
  {
    RoundsHalfUp(e as real / 1000.0 / a as real * 999.0);
  }

  lemma RatioOrder(e: int, f: int, a: nat)
    requires a > 0 && e <= f
    ensures e as real / 1000.0 / a as real * 999.0 <= f as real / 1000.0 / a as real * 999.0
  {
    Quotients(e as real / 1000.0, f as real / 1000.0, a as real);
  }

  lemma Quotients(x: real, y: real, a: real)
    requires a > 0.0 && x <= y
    ensures x / a <= y / a
  {
    var p, q := x / a, y / a;
    assert p * a == x && q * a == y;
    if p > q { Products(q, p, a); }
  }

  lemma Products(x: real, y: real, a: real)
    requires a > 0.0 && x < y
    ensures x * a < y * a
  {
  }

  /** More earned never scores less. */
  lemma ScoreIsMonotone(e: int, f: int, a: nat)
    requires a > 0 && e <= f
    ensures ScoreOf(e, a) <= ScoreOf(f, a)
  {
    RatioOrder(e, f, a);
  }

  lemma {:induction false} EarnedIsMonotone(scores: Scores, better: Scores, weights: Weights, c: set<Category>, n: nat)
    requires n <= |IN_SCOPE_SIGNALS| && scores.Keys == better.Keys && forall s :: s in scores ==> scores[s] <= better[s]
    ensures EarnedBy(scores, weights, c, n) <= EarnedBy(better, weights, c, n)
    ensures AttainableBy(scores, weights, c, n) == AttainableBy(better, weights, c, n)
  {
    if n == 0 {
    } else {
      var s := IN_SCOPE_SIGNALS[n - 1];
      EarnedIsMonotone(scores, better, weights, c, n - 1);
      if s in scores {
        assert s in better.Keys;
        BetterEarnsMore(scores[s], better[s], weights[s]);
      }
    }
  }

  lemma BetterEarnsMore(x: real, y: real, w: nat)
    requires x <= y
    ensures Earned(x, w) <= Earned(y, w)
  {
    var p, q, r := x / 100.0, y / 100.0, w as real;
    assert p * r <= q * r;
  }

  /** The rounding of every signal together is off by at most half a thousandth per signal. */
  lemma {:induction false} EarnedIsClose(scores: Scores, weights: Weights, n: nat)
    requires n <= |IN_SCOPE_SIGNALS|
    ensures -0.0005 * n as real <= EarnedBy(scores, weights, ALL, n) as real / 1000.0 - ExactBy(scores, weights,
            n) <= 0.0005 * n as real
  {
    if n == 0 {
    } else {
      var s := IN_SCOPE_SIGNALS[n - 1];
      EarnedIsClose(scores, weights, n - 1);
      if s in scores { EarnedIsBounded(scores[s], weights[s]); }
    }
  }

  lemma RatioAtMost999(e: int, a: nat)
    requires a > 0 && 0 <= e <= 1000 * a
    ensures 0 <= RoundHalfUp(e as real / 1000.0 / a as real * 999.0) <= 999
  {
    var x, w := e as real / 1000.0, a as real;
    assert 0.0 <= x <= w;
    Quotients(0.0, x, w);
    Quotients(x, w, w);
    var ratio := x / w;
    assert 0.0 <= ratio <= 1.0;
  }

  lemma ErrorScales(x: real, y: real, d: real, a: real)
    requires a > 0.0 && -d <= x - y <= d
    ensures -(d / a * 999.0) <= x / a * 999.0 - y / a * 999.0 <= d / a * 999.0
  {
    Quotients(x, y + d, a);
    Quotients(y - d, x, a);
  }

  /** A scored result that is not lifted to 1 differs from the exact weighted mean, on the scale of 999,
      by at most half a point plus the rounding of ten signals. */
  lemma ScoreIsAccurate(scores: Scores, weights: Weights)
    requires AttainableBy(scores, weights, ALL, |IN_SCOPE_SIGNALS|) > 0
    ensures var n := |IN_SCOPE_SIGNALS|;
            var e, a := EarnedBy(scores, weights, ALL, n), AttainableBy(scores, weights, ALL, n);
            var mean := ExactBy(scores, weights, n) / a as real * 999.0;
            var slack := 0.5 + 0.005 / a as real * 999.0;
            RoundHalfUp(e as real / 1000.0 / a as real * 999.0) >= 1 ==>
                mean - slack <= ScoreOf(e, a) as real <= mean + slack
  {
    var n := |IN_SCOPE_SIGNALS|;
    var e, a := EarnedBy(scores, weights, ALL, n), AttainableBy(scores, weights, ALL, n);
    EarnedWithinAttainable(scores, weights, ALL, n);
    EarnedIsClose(scores, weights, n);
    RatioAtMost999(e, a);
    ErrorScales(e as real / 1000.0, ExactBy(scores, weights, n), 0.005, a as real);
  }

  /** Raising the scores of observed signals never lowers the Trust Score. */
  lemma TrustScoreIsMonotone(scores: Scores, better: Scores, weights: Weights)
    requires scores.Keys == better.Keys && forall s :: s in scores ==> scores[s] <= better[s]
    requires AttainableBy(scores, weights, ALL, |IN_SCOPE_SIGNALS|) > 0
    ensures AttainableBy(better, weights, ALL, |IN_SCOPE_SIGNALS|)
            == AttainableBy(scores, weights, ALL, |IN_SCOPE_SIGNALS|)
    ensures ScoreOf(EarnedBy(scores, weights, ALL, |IN_SCOPE_SIGNALS|),
            AttainableBy(scores, weights, ALL, |IN_SCOPE_SIGNALS|))
         <= ScoreOf(EarnedBy(better, weights, ALL, |IN_SCOPE_SIGNALS|),
             AttainableBy(better, weights, ALL, |IN_SCOPE_SIGNALS|))
  {
    EarnedIsMonotone(scores, better, weights, ALL, |IN_SCOPE_SIGNALS|);
    ScoreIsMonotone(EarnedBy(scores, weights, ALL, |IN_SCOPE_SIGNALS|),
        EarnedBy(better, weights, ALL, |IN_SCOPE_SIGNALS|),
                    AttainableBy(scores, weights, ALL, |IN_SCOPE_SIGNALS|));
  }

  // ---------- the computation ----------

  datatype Amount = Amount(earned: int, attainable: nat)

  datatype Status = NonObserved(id: SignalId, weight: nat) | Observed(id: SignalId, earned: int, weight: nat)

  type Breakdown = m: map<Category, Amount> | forall c: Category :: c in m
    witness map c: Category | true :: Amount(0, 0)

  const NO_AMOUNTS: Breakdown := map c: Category | true :: Amount(0, 0)

  ghost predicate BrokenDown(scores: Scores, weights: Weights, n: nat, b: Breakdown)
    requires n <= |IN_SCOPE_SIGNALS|
  {
    forall c: Category :: b[c] == Amount(EarnedBy(scores, weights, {c}, n), AttainableBy(scores, weights, {c}, n))
  }

  ghost predicate StatusOk(scores: Scores, weights: Weights, i: nat, t: Status)
    requires i < |IN_SCOPE_SIGNALS|
  {
    var s := IN_SCOPE_SIGNALS[i];
    t == if s in scores then Observed(s, Earned(scores[s], weights[s]), weights[s]) else NonObserved(s, weights[s])
  }

  lemma BreakdownNext(scores: Scores, weights: Weights, i: nat, b: Breakdown)
    requires i < |IN_SCOPE_SIGNALS| && BrokenDown(scores, weights, i, b)
    ensures var s := IN_SCOPE_SIGNALS[i];
            var c := CategoryOf(s);
            && (s !in scores ==> BrokenDown(scores, weights, i + 1, b))
            && (s in scores ==>
                BrokenDown(scores, weights, i + 1, Plus(b, c, Earned(scores[s], weights[s]), weights[s])))
  {
  }

  function Plus(b: Breakdown, c: Category, earned: int, weight: nat): Breakdown {
    b[c := Amount(b[c].earned + earned, b[c].attainable + weight)]
  }

  /** The loop over the signals. */
  method Accumulate(scores: Scores, weights: Weights)
      returns (e: int, a: nat, categories: Breakdown, signals: seq<Status>)
    ensures e == EarnedBy(scores, weights, ALL, |IN_SCOPE_SIGNALS|)
            && a == AttainableBy(scores, weights, ALL, |IN_SCOPE_SIGNALS|)
    ensures BrokenDown(scores, weights, |IN_SCOPE_SIGNALS|, categories)
    ensures |signals| == |IN_SCOPE_SIGNALS| && forall i :: 0 <= i < |signals| ==>
            StatusOk(scores, weights, i, signals[i])
  {
    e, a, categories, signals := 0, 0, NO_AMOUNTS, [];
    for i := 0 to |IN_SCOPE_SIGNALS|
      invariant e == EarnedBy(scores, weights, ALL, i) && a == AttainableBy(scores, weights, ALL, i)
      invariant BrokenDown(scores, weights, i, categories)
      invariant |signals| == i && forall j :: 0 <= j < i ==> StatusOk(scores, weights, j, signals[j])
    {
      var s := IN_SCOPE_SIGNALS[i];
      BreakdownNext(scores, weights, i, categories);
      if s !in scores {
        signals := signals + [NonObserved(s, weights[s])];
      } else {
        var earned := Earned(scores[s], weights[s]);
        var c := CategoryOf(s);
        e, a := e + earned, a + weights[s];
        categories := Plus(categories, c, earned, weights[s]);
        signals := signals + [Observed(s, earned, weights[s])];
      }
    }
  }

  /** `computeTrustScore` on given signals and weights. */
  method ComputeTrustScore(scores: Scores, weights: Weights)
      returns (score: int, verdict: Label, earned: int, attainable: nat, categories: Breakdown, signals: seq<Status>)
    ensures earned == EarnedBy(scores, weights, ALL, |IN_SCOPE_SIGNALS|)
            && attainable == AttainableBy(scores, weights, ALL, |IN_SCOPE_SIGNALS|)
    ensures 0 <= earned <= 1000 * attainable && attainable <= Universe(weights, |IN_SCOPE_SIGNALS|)
    ensures earned == categories[A].earned + categories[B].earned + categories[C].earned + categories[D].earned
    ensures attainable == categories[A].attainable + categories[B].attainable + categories[C].attainable
            + categories[D].attainable
    ensures forall c: Category :: 0 <= categories[c].earned <= 1000 * categories[c].attainable
    ensures verdict == InsufficientObservation <==> 2 * attainable < Universe(weights, |IN_SCOPE_SIGNALS|)
    ensures verdict == InsufficientObservation ==> score == 0
    ensures verdict == Scored ==> attainable > 0 && score == ScoreOf(earned, attainable) && 1 <= score <= 999
    ensures |signals| == |IN_SCOPE_SIGNALS| && forall i :: 0 <= i < |signals| ==>
            StatusOk(scores, weights, i, signals[i])
  {
    earned, attainable, categories, signals := Accumulate(scores, weights);
    EarnedWithinAttainable(scores, weights, ALL, |IN_SCOPE_SIGNALS|);
    AttainableWithinUniverse(scores, weights, ALL, |IN_SCOPE_SIGNALS|);
    CategoriesAddUp(scores, weights, |IN_SCOPE_SIGNALS|);
    forall c: Category ensures 0 <= categories[c].earned <= 1000 * categories[c].attainable {
      EarnedWithinAttainable(scores, weights, {c}, |IN_SCOPE_SIGNALS|);
    }
    var weightUniverse := SumWeights(weights);
    var minimum := (weightUniverse + 1) / 2;
    if attainable < minimum {
      score, verdict := 0, InsufficientObservation;
    } else {
      score, verdict := ScoreOf(earned, attainable), Scored;
    }
  }

  method SumWeights(weights: Weights) returns (sum: nat)
    ensures sum == Universe(weights, |IN_SCOPE_SIGNALS|)
  {
    sum := 0;
    for i := 0 to |IN_SCOPE_SIGNALS|
      invariant sum == Universe(weights, i)
    {
      sum := sum + weights[IN_SCOPE_SIGNALS[i]];
    }
  }
}
