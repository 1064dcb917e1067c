/** Candidate domains, sections 5 and 6 of authority/build.js: every domain resolves to one owner. */
module Domains {
  import opened Orders
  import opened Records

  /** The priority of an unapproved manual domain, below every authoritative source. */
  const UNAPPROVED: int := 99

  datatype Candidate = Candidate(domain: string, priority: int, authoritative: bool)

  datatype Org = Org(id: string, candidates: seq<Candidate>, noDomainAsserted: bool)

  datatype Claim = Claim(orgId: string, priority: int, authoritative: bool)

  datatype Status = Verified(domain: string) | NoDomain | Pending

  // ---------- the candidates of one organisation ----------

  function Proposal(r: SourceRecord): Candidate
    requires r.domain.Some?
  {
    Candidate(r.domain.value, if r.domainPriority.Some? then r.domainPriority.value else UNAPPROVED,
        r.domainPriority.Some?)
  }

  predicate Proposes(records: seq<SourceRecord>, group: seq<nat>, k: nat, d: string) {
    k < |group| && group[k] < |records| && records[group[k]].domain == Some(d)
  }

  /** `c` is the first proposal for its domain, among the group's first `n` records, with the
      lowest priority number. */
  ghost predicate IsBest(records: seq<SourceRecord>, group: seq<nat>, n: nat, c: Candidate) {
    exists k: nat :: IsBestAt(records, group, n, c, k)
  }

  ghost predicate IsBestAt(records: seq<SourceRecord>, group: seq<nat>, n: nat, c: Candidate, k: nat) {
    k < n && Proposes(records, group, k, c.domain) && c == Proposal(records[group[k]]) &&
    forall m: nat :: m < n && Proposes(records, group, m, c.domain) ==>
      c.priority <= Proposal(records[group[m]]).priority
          && (m < k ==> c.priority < Proposal(records[group[m]]).priority)
  }

  function CandidateLess(less: (string, string) -> bool): (Candidate, Candidate) -> bool {
    (a: Candidate, b: Candidate) => a.priority < b.priority || (a.priority == b.priority && less(a.domain, b.domain))
  }

  lemma CandidateLessIsWeak(less: (string, string) -> bool)
    requires StrictTotal(less)
    ensures StrictWeak(CandidateLess(less))
  {
    StrictTotalIsWeak(less);
    var lt := CandidateLess(less);
    forall x ensures !lt(x, x) {
      assert !less(x.domain, x.domain);
    }
    forall x, y, z | lt(x, y) && lt(y, z) ensures lt(x, z) {
      assert less(x.domain, y.domain) && less(y.domain, z.domain) ==> less(x.domain, z.domain);
    }
    forall x, y, z | lt(x, z) ensures lt(x, y) || lt(y, z) {
      assert less(x.domain, z.domain) ==> less(x.domain, y.domain) || less(y.domain, z.domain);
    }
  }

  /** The candidates stand by rising priority number; those of one priority stand in the order of their
      domains. */
  ghost predicate Ranked(less: (string, string) -> bool, cands: seq<Candidate>) {
    forall a, b :: 0 <= a < b < |cands| ==>
      cands[a].priority < cands[b].priority
      || (cands[a].priority == cands[b].priority && less(cands[a].domain, cands[b].domain))
  }

  lemma SortedIsRanked(less: (string, string) -> bool, cands: seq<Candidate>)
    requires StrictTotal(less) && Sorted(CandidateLess(less), cands)
    requires forall a, b :: 0 <= a < b < |cands| ==> cands[a].domain != cands[b].domain
    ensures Ranked(less, cands)
  {
    forall a, b | 0 <= a < b < |cands|
      ensures cands[a].priority < cands[b].priority
              || (cands[a].priority == cands[b].priority && less(cands[a].domain, cands[b].domain))
    {
      assert !CandidateLess(less)(cands[b], cands[a]);
      assert less(cands[a].domain, cands[b].domain) || less(cands[b].domain, cands[a].domain);
    }
  }

  ghost predicate HasDomain(cands: seq<Candidate>, d: string) {
    exists a :: 0 <= a < |cands| && cands[a].domain == d
  }

  ghost predicate CandidatesAre(records: seq<SourceRecord>, group: seq<nat>, cands: seq<Candidate>) {
    && (forall a, b :: 0 <= a < b < |cands| ==> cands[a].domain != cands[b].domain)
    && (forall a :: 0 <= a < |cands| ==> IsBest(records, group, |group|, cands[a]))
    && (forall k, d :: Proposes(records, group, k, d) ==> HasDomain(cands, d))
  }

  /** The map of best candidates after the first `n` records of the group. */
  ghost predicate BestSoFar(records: seq<SourceRecord>, group: seq<nat>, n: nat, order: seq<string>,
                            best: map<string, Candidate>) {
    && (forall a, b :: 0 <= a < b < |order| ==> order[a] != order[b])
    && (forall d :: d in order <==> d in best)
    && (forall d :: d in best ==> best[d].domain == d && IsBest(records, group, n, best[d]))
    && (forall k: nat, d :: k < n && Proposes(records, group, k, d) ==> d in best)
  }

  lemma BestStays(records: seq<SourceRecord>, group: seq<nat>, n: nat, c: Candidate)
    requires n < |group| && group[n] < |records| && IsBest(records, group, n, c)
    requires !(records[group[n]].domain == Some(c.domain) && Proposal(records[group[n]]).priority < c.priority)
    ensures IsBest(records, group, n + 1, c)
  {
    var k: nat :| IsBestAt(records, group, n, c, k);
    assert IsBestAt(records, group, n + 1, c, k);
  }

  lemma NewBest(records: seq<SourceRecord>, group: seq<nat>, n: nat, order: seq<string>, best: map<string, Candidate>)
    requires n < |group| && group[n] < |records| && BestSoFar(records, group, n, order, best)
    requires records[group[n]].domain.Some?
    requires var c := Proposal(records[group[n]]); c.domain !in best || c.priority < best[c.domain].priority
    ensures IsBest(records, group, n + 1, Proposal(records[group[n]]))
  {
    var c := Proposal(records[group[n]]);
    if c.domain in best {
      var k: nat :| IsBestAt(records, group, n, best[c.domain], k);
    }
    assert IsBestAt(records, group, n + 1, c, n);
  }

  /** The record changes nothing: it has no domain, or a known one without a better priority. */
  lemma StepKeeps(records: seq<SourceRecord>, group: seq<nat>, n: nat, order: seq<string>, best: map<string, Candidate>)
    requires n < |group| && group[n] < |records| && BestSoFar(records, group, n, order, best)
    requires var r := records[group[n]];
             r.domain.None? || (r.domain.value in best && Proposal(r).priority >= best[r.domain.value].priority)
    ensures BestSoFar(records, group, n + 1, order, best)
  {
    forall d | d in best ensures IsBest(records, group, n + 1, best[d]) {
      BestStays(records, group, n, best[d]);
    }
  }

  lemma StepReplaces(records: seq<SourceRecord>, group: seq<nat>, n: nat, order: seq<string>,
                     best: map<string, Candidate>)
    requires n < |group| && group[n] < |records| && BestSoFar(records, group, n, order, best)
    requires records[group[n]].domain.Some?
    requires var c := Proposal(records[group[n]]); c.domain !in best || c.priority < best[c.domain].priority
    ensures var c := Proposal(records[group[n]]);
            BestSoFar(records, group, n + 1, if c.domain in best then order else order + [c.domain],
                best[c.domain := c])
  {
    var c, m := Proposal(records[group[n]]), n + 1;
    NewBest(records, group, n, order, best);
    var best' := best[c.domain := c];
    assert best'[c.domain] == c && c.domain in best';
    forall d | d in best' ensures best'[d].domain == d && IsBest(records, group, m, best'[d]) {
      if d == c.domain {
      } else {
        BestStays(records, group, n, best[d]);
      }
    }
    StepListsAll(records, group, n, best, c);
  }

  /** The domains met so far are those met before and the domain of the next record. */
  lemma StepListsAll(records: seq<SourceRecord>, group: seq<nat>, n: nat, best: map<string, Candidate>, c: Candidate)
    requires n < |group| && group[n] < |records| && records[group[n]].domain == Some(c.domain)
    requires forall k: nat, d :: k < n && Proposes(records, group, k, d) ==> d in best
    ensures forall k: nat, d :: k < n + 1 && Proposes(records, group, k, d) ==> d in best[c.domain := c]
  {
  }

  /** The candidate map of one organisation: per domain the most authoritative source. */
  method BestCandidates(records: seq<SourceRecord>, group: seq<nat>)
      returns (order: seq<string>, best: map<string, Candidate>)
    requires forall k :: 0 <= k < |group| ==> group[k] < |records|
    ensures BestSoFar(records, group, |group|, order, best)
  {
    order, best := [], map[];
    for n := 0 to |group|
      invariant BestSoFar(records, group, n, order, best)
    {
      var r := records[group[n]];
      if r.domain.Some? {
        var d := r.domain.value;
        var prio := if r.domainPriority.Some? then r.domainPriority.value else UNAPPROVED;
        if d !in best || prio < best[d].priority {
          StepReplaces(records, group, n, order, best);
          if d !in best { order := order + [d]; }
          best := best[d := Candidate(d, prio, r.domainPriority.Some?)];
        } else {
          StepKeeps(records, group, n, order, best);
        }
      } else {
        StepKeeps(records, group, n, order, best);
      }
    }
  }

  function ValuesInOrder(order: seq<string>, best: map<string, Candidate>): (values: seq<Candidate>)
    requires forall d :: d in order ==> d in best
    ensures |values| == |order| && forall a :: 0 <= a < |order| ==> values[a] == best[order[a]]
  {
    seq(|order|, a requires 0 <= a < |order| => assert order[a] in order; best[order[a]])
  }

  /** The candidate list of one organisation, sorted by priority and then by domain. */
  method CollectCandidates(less: (string, string) -> bool, records: seq<SourceRecord>, group: seq<nat>)
      returns (cands: seq<Candidate>)
    requires StrictTotal(less) && forall k :: 0 <= k < |group| ==> group[k] < |records|
    ensures CandidatesAre(records, group, cands)
    ensures Ranked(less, cands)
  {
    var order, best := BestCandidates(records, group);
    var values := ValuesInOrder(order, best);
    ListedBest(records, group, order, best);
    cands := SortBy(CandidateLess(less), values);
    CandidateLessIsWeak(less);
    SortIsSorted(CandidateLess(less), values);
    SortIsPermutation(CandidateLess(less), values);
    ResortedCandidates(records, group, values, cands);
    SortedIsRanked(less, cands);
  }

  lemma ListedBest(records: seq<SourceRecord>, group: seq<nat>, order: seq<string>, best: map<string, Candidate>)
    requires BestSoFar(records, group, |group|, order, best)
    ensures CandidatesAre(records, group, ValuesInOrder(order, best))
  {
    var values := ValuesInOrder(order, best);
    forall k, d | Proposes(records, group, k, d) ensures HasDomain(values, d) {
      assert d in order;
      var a :| 0 <= a < |order| && order[a] == d;
      assert values[a].domain == d;
    }
  }

  lemma ResortedCandidates(records: seq<SourceRecord>, group: seq<nat>, a: seq<Candidate>, b: seq<Candidate>)
    requires CandidatesAre(records, group, a) && multiset(a) == multiset(b)
    ensures CandidatesAre(records, group, b)
  {
    NoDuplicatesTransfers(a, b);
    forall x, y | 0 <= x < y < |b| ensures b[x].domain != b[y].domain {
      var x' := Counterpart(a, b, x);
      var y' := Counterpart(a, b, y);
      assert x' < y' || y' < x';
    }
    forall x | 0 <= x < |b| ensures IsBest(records, group, |group|, b[x]) {
      var x' := Counterpart(a, b, x);
    }
    forall k, d | Proposes(records, group, k, d) ensures HasDomain(b, d) {
      assert HasDomain(a, d);
      var x' :| 0 <= x' < |a| && a[x'].domain == d;
      var x := Counterpart(b, a, x');
    }
  }

  // ---------- ownership ----------

  ghost predicate Claims(o: Org, d: string) {
    exists a :: 0 <= a < |o.candidates| && o.candidates[a].domain == d
  }

  function ClaimOf(o: Org, k: nat): Claim
    requires k < |o.candidates|
  {
    Claim(o.id, o.candidates[k].priority, o.candidates[k].authoritative)
  }

  function Picks(o: Org, n: nat, d: string): seq<Claim>
    requires n <= |o.candidates|
  {
    if n == 0 then []
    else
      Picks(o, n - 1, d) + if o.candidates[n - 1].domain == d then [ClaimOf(o, n - 1)] else []
  }

  /** All claims on a domain, organisation by organisation. */
  function ClaimsOn(orgs: seq<Org>, n: nat, d: string): seq<Claim>
    requires n <= |orgs|
  {
    if n == 0 then [] else ClaimsOn(orgs, n - 1, d) + Picks(orgs[n - 1], |orgs[n - 1].candidates|, d)
  }

  lemma {:induction false} PicksAre(o: Org, n: nat, d: string, x: Claim)
    requires n <= |o.candidates|
    ensures x in Picks(o, n, d) <==> exists a :: 0 <= a < n && o.candidates[a].domain == d && x == ClaimOf(o, a)
  {
    if n == 0 {
    } else {
      PicksAre(o, n - 1, d, x);
    }
  }

  ghost predicate IsClaim(orgs: seq<Org>, d: string, g: int, a: int, x: Claim) {
    0 <= g < |orgs| && 0 <= a < |orgs[g].candidates| && orgs[g].candidates[a].domain == d && x == ClaimOf(orgs[g], a)
  }

  lemma PicksAreClaims(orgs: seq<Org>, g: nat, d: string, x: Claim)
    requires g < |orgs|
    ensures x in Picks(orgs[g], |orgs[g].candidates|, d) <==> exists a :: IsClaim(orgs, d, g, a, x)
  {
    PicksAre(orgs[g], |orgs[g].candidates|, d, x);
    if x in Picks(orgs[g], |orgs[g].candidates|, d) {
      var a :| 0 <= a < |orgs[g].candidates| && orgs[g].candidates[a].domain == d && x == ClaimOf(orgs[g], a);
      assert IsClaim(orgs, d, g, a, x);
    }
  }

  /** One of the first `n` organisations makes the claim. */
  ghost predicate ClaimedBefore(orgs: seq<Org>, n: nat, d: string, x: Claim) {
    exists g, a :: g < n && IsClaim(orgs, d, g, a, x)
  }

  lemma ClaimedBeforeNext(orgs: seq<Org>, n: nat, d: string, x: Claim)
    ensures ClaimedBefore(orgs, n + 1, d, x) <==> ClaimedBefore(orgs, n, d, x) || exists a :: IsClaim(orgs, d, n, a, x)
  {
    if ClaimedBefore(orgs, n + 1, d, x) {
      var g, a :| g < n + 1 && IsClaim(orgs, d, g, a, x);
      assert g < n || g == n;
    }
  }

  lemma InEither<T>(a: seq<T>, b: seq<T>, x: T)
    ensures x in a + b <==> x in a || x in b
  {
  }

  lemma ClaimsOnNext(orgs: seq<Org>, n: nat, d: string, x: Claim)
    requires n < |orgs|
    ensures x in ClaimsOn(orgs, n + 1, d) <==>
            x in ClaimsOn(orgs, n, d) || x in Picks(orgs[n], |orgs[n].candidates|, d)
  {
    InEither(ClaimsOn(orgs, n, d), Picks(orgs[n], |orgs[n].candidates|, d), x);
  }

  lemma {:induction false} ClaimsOnAre(orgs: seq<Org>, n: nat, d: string, x: Claim)
    requires n <= |orgs|
    ensures x in ClaimsOn(orgs, n, d) <==> ClaimedBefore(orgs, n, d, x)
  {
    if n == 0 {
    } else {
      var m := n - 1;
      ClaimsOnAre(orgs, m, d, x);
      PicksAreClaims(orgs, m, d, x);
      ClaimedBeforeNext(orgs, m, d, x);
      ClaimsOnNext(orgs, m, d, x);
    }
  }

  function ClaimLess(less: (string, string) -> bool): (Claim, Claim) -> bool {
    (a: Claim, b: Claim) => a.priority < b.priority || (a.priority == b.priority && less(a.orgId, b.orgId))
  }

  lemma ClaimLessIsWeak(less: (string, string) -> bool)
    requires StrictTotal(less)
    ensures StrictWeak(ClaimLess(less))
  {
    StrictTotalIsWeak(less);
    var lt := ClaimLess(less);
    forall x ensures !lt(x, x) {
      assert !less(x.orgId, x.orgId);
    }
    forall x, y, z | lt(x, y) && lt(y, z) ensures lt(x, z) {
      assert less(x.orgId, y.orgId) && less(y.orgId, z.orgId) ==> less(x.orgId, z.orgId);
    }
    forall x, y, z | lt(x, z) ensures lt(x, y) || lt(y, z) {
      assert less(x.orgId, z.orgId) ==> less(x.orgId, y.orgId) || less(y.orgId, z.orgId);
    }
  }

  /** Organisation `g` owns `d` through candidate `a`: its claim is least by priority, then by id. */
  ghost predicate OwnsBy(less: (string, string) -> bool, orgs: seq<Org>, d: string, g: int, a: int) {
    0 <= g < |orgs| && 0 <= a < |orgs[g].candidates| && orgs[g].candidates[a].domain == d &&
    forall h, b :: 0 <= h < |orgs| && 0 <= b < |orgs[h].candidates| && orgs[h].candidates[b].domain == d ==>
      orgs[g].candidates[a].priority < orgs[h].candidates[b].priority
      || (orgs[g].candidates[a].priority == orgs[h].candidates[b].priority && (g == h || less(orgs[g].id, orgs[h].id)))
  }

  ghost predicate DistinctIds(orgs: seq<Org>) {
    forall g, h :: 0 <= g < h < |orgs| ==> orgs[g].id != orgs[h].id
  }

  ghost predicate DistinctDomains(orgs: seq<Org>) {
    forall g, a, b :: 0 <= g < |orgs| && 0 <= a < b < |orgs[g].candidates| ==>
        orgs[g].candidates[a].domain != orgs[g].candidates[b].domain
  }

  ghost predicate OwnersAre(less: (string, string) -> bool, orgs: seq<Org>, owner: map<string, string>) {
    && (forall d :: d in owner <==> exists g :: 0 <= g < |orgs| && Claims(orgs[g], d))
    && (forall d :: d in owner ==> exists g, a :: OwnsBy(less, orgs, d, g, a) && owner[d] == orgs[g].id)
  }

  ghost predicate ClaimsIndexed(orgs: seq<Org>, n: nat, claims: map<string, seq<Claim>>)
    requires n <= |orgs|
  {
    forall d :: (d in claims <==> ClaimsOn(orgs, n, d) != []) && (d in claims ==> claims[d] == ClaimsOn(orgs, n, d))
  }

  /** The claim lists after the first `k` candidates of one more organisation. */
  ghost predicate PushedAt(o: Org, k: nat, before: map<string, seq<Claim>>, after: map<string, seq<Claim>>, d: string)
    requires k <= |o.candidates|
  {
    && (d in after <==> d in before || Picks(o, k, d) != [])
    && (d in after ==> after[d] == (if d in before then before[d] else []) + Picks(o, k, d))
  }

  ghost predicate Pushed(o: Org, k: nat, before: map<string, seq<Claim>>, after: map<string, seq<Claim>>)
    requires k <= |o.candidates|
  {
    forall d {:trigger PushedAt(o, k, before, after, d)} :: PushedAt(o, k, before, after, d)
  }

  function Push(claims: map<string, seq<Claim>>, d: string, x: Claim): map<string, seq<Claim>> {
    claims[d := (if d in claims then claims[d] else []) + [x]]
  }

  lemma PushedNext(o: Org, k: nat, before: map<string, seq<Claim>>, after: map<string, seq<Claim>>)
    requires k < |o.candidates| && Pushed(o, k, before, after)
    ensures Pushed(o, k + 1, before, Push(after, o.candidates[k].domain, ClaimOf(o, k)))
  {
    var m, next := k + 1, Push(after, o.candidates[k].domain, ClaimOf(o, k));
    forall d ensures PushedAt(o, m, before, next, d) {
      assert PushedAt(o, k, before, after, d);
      PushedNextAt(o, k, before, after, d);
    }
  }

  lemma PushedNextAt(o: Org, k: nat, before: map<string, seq<Claim>>, after: map<string, seq<Claim>>, d: string)
    requires k < |o.candidates| && PushedAt(o, k, before, after, d)
    ensures PushedAt(o, k + 1, before, Push(after, o.candidates[k].domain, ClaimOf(o, k)), d)
  {
  }

  /** One organisation's candidates pushed onto the claim lists. */
  method PushClaims(o: Org, before: map<string, seq<Claim>>) returns (after: map<string, seq<Claim>>)
    ensures Pushed(o, |o.candidates|, before, after)
  {
    after := before;
    for k := 0 to |o.candidates|
      invariant Pushed(o, k, before, after)
    {
      PushedNext(o, k, before, after);
      var d := o.candidates[k].domain;
      after := after[d := (if d in after then after[d] else []) + [ClaimOf(o, k)]];
    }
  }

  lemma ClaimsIndexedNext(orgs: seq<Org>, n: nat, before: map<string, seq<Claim>>, after: map<string, seq<Claim>>)
    requires n < |orgs| && ClaimsIndexed(orgs, n, before) && Pushed(orgs[n], |orgs[n].candidates|, before, after)
    ensures ClaimsIndexed(orgs, n + 1, after)
  {
    forall d ensures (d in after <==> ClaimsOn(orgs, n + 1, d) != [])
        && (d in after ==> after[d] == ClaimsOn(orgs, n + 1, d)) {
      assert PushedAt(orgs[n], |orgs[n].candidates|, before, after, d);
    }
  }

  /** For every domain, the claimant of the first claim in priority order. */
  function FirstClaimants(less: (string, string) -> bool, claims: map<string, seq<Claim>>): map<string, string> {
    map d | d in claims && SortBy(ClaimLess(less), claims[d]) != [] :: SortBy(ClaimLess(less), claims[d])[0].orgId
  }

  /** For every domain with several claims, the claimants after the first. */
  function LaterClaimants(less: (string, string) -> bool, claims: map<string, seq<Claim>>): map<string, seq<string>> {
    map d | d in claims && |claims[d]| > 1 && SortBy(ClaimLess(less), claims[d]) != [] ::
        OrgIds(SortBy(ClaimLess(less), claims[d])[1..])
  }

  lemma SortedClaims(less: (string, string) -> bool, claims: seq<Claim>)
    ensures |SortBy(ClaimLess(less), claims)| == |claims|
  {
    SortIsPermutation(ClaimLess(less), claims);
    SameMembers(SortBy(ClaimLess(less), claims), claims);
  }

  /** A contested domain lists exactly its claimants other than its owner. */
  ghost predicate LosesContest(orgs: seq<Org>, owner: map<string, string>, contest: map<string, seq<string>>,
                               d: string, x: string)
    requires d in contest && d in owner
  {
    x in contest[d] <==> x != owner[d] && Claimant(orgs, d, x)
  }

  /** `contest` lists, for every domain with several claims, the claimants that lost. */
  ghost predicate ContestsAre(orgs: seq<Org>, owner: map<string, string>, contest: map<string, seq<string>>) {
    && (forall d :: d in contest <==> |ClaimsOn(orgs, |orgs|, d)| > 1)
    && (forall d :: d in contest ==> d in owner && |contest[d]| == |ClaimsOn(orgs, |orgs|, d)| - 1)
    && (forall d, x {:trigger LosesContest(orgs, owner, contest, d, x)} :: d in contest ==>
        LosesContest(orgs, owner, contest, d, x))
  }

  lemma FirstClaimantsOwn(less: (string, string) -> bool, orgs: seq<Org>, claims: map<string, seq<Claim>>)
    requires StrictTotal(less) && DistinctIds(orgs) && DistinctDomains(orgs) && ClaimsIndexed(orgs, |orgs|, claims)
    ensures OwnersAre(less, orgs, FirstClaimants(less, claims))
  {
    var owner := FirstClaimants(less, claims);
    forall d ensures d in owner <==> exists g :: 0 <= g < |orgs| && Claims(orgs[g], d) {
      ClaimedIffSomeClaim(orgs, d);
      if d in claims { SortedClaims(less, claims[d]); }
    }
    forall d | d in owner ensures exists g, a :: OwnsBy(less, orgs, d, g, a) && owner[d] == orgs[g].id {
      FirstClaimOwns(less, orgs, d);
    }
  }

  lemma LaterClaimantsLost(less: (string, string) -> bool, orgs: seq<Org>, claims: map<string, seq<Claim>>)
    requires StrictTotal(less) && DistinctIds(orgs) && DistinctDomains(orgs) && ClaimsIndexed(orgs, |orgs|, claims)
    ensures ContestsAre(orgs, FirstClaimants(less, claims), LaterClaimants(less, claims))
  {
    var owner, contest := FirstClaimants(less, claims), LaterClaimants(less, claims);
    forall d | d in claims ensures |SortBy(ClaimLess(less), claims[d])| == |claims[d]| {
      SortedClaims(less, claims[d]);
    }
    forall d, x | d in contest ensures LosesContest(orgs, owner, contest, d, x) {
      LosersAre(less, orgs, d, x);
    }
  }

  /** Section 5: every claimed domain gets its least claimant as owner, and the others are recorded. */
  method AssignOwners(less: (string, string) -> bool, orgs: seq<Org>)
      returns (owner: map<string, string>, contest: map<string, seq<string>>)
    requires StrictTotal(less) && DistinctIds(orgs) && DistinctDomains(orgs)
    ensures OwnersAre(less, orgs, owner) && ContestsAre(orgs, owner, contest)
  {
    var claims: map<string, seq<Claim>> := map[];
    for n := 0 to |orgs|
      invariant ClaimsIndexed(orgs, n, claims)
    {
      var next := PushClaims(orgs[n], claims);
      ClaimsIndexedNext(orgs, n, claims, next);
      claims := next;
    }
    owner, contest := FirstClaimants(less, claims), LaterClaimants(less, claims);
    FirstClaimantsOwn(less, orgs, claims);
    LaterClaimantsLost(less, orgs, claims);
  }

  function OrgIds(claims: seq<Claim>): (ids: seq<string>)
    ensures |ids| == |claims| && forall k :: 0 <= k < |ids| ==> ids[k] == claims[k].orgId
  {
    seq(|claims|, k requires 0 <= k < |claims| => claims[k].orgId)
  }

  lemma ClaimedIffSomeClaim(orgs: seq<Org>, d: string)
    ensures ClaimsOn(orgs, |orgs|, d) != [] <==> exists g :: 0 <= g < |orgs| && Claims(orgs[g], d)
  {
    var all := ClaimsOn(orgs, |orgs|, d);
    if all != [] {
      ClaimsOnAre(orgs, |orgs|, d, all[0]);
      assert all[0] in all;
      var g, a :| g < |orgs| && IsClaim(orgs, d, g, a, all[0]);
      assert Claims(orgs[g], d);
    }
    if g :| 0 <= g < |orgs| && Claims(orgs[g], d) {
      var a :| 0 <= a < |orgs[g].candidates| && orgs[g].candidates[a].domain == d;
      var x := ClaimOf(orgs[g], a);
      assert IsClaim(orgs, d, g, a, x);
      ClaimsOnAre(orgs, |orgs|, d, x);
    }
  }

  lemma FirstClaimOwns(less: (string, string) -> bool, orgs: seq<Org>, d: string)
    requires StrictTotal(less) && DistinctIds(orgs) && DistinctDomains(orgs) && ClaimsOn(orgs, |orgs|, d) != []
    ensures var sorted := SortBy(ClaimLess(less), ClaimsOn(orgs, |orgs|, d));
            sorted != [] && exists g, a :: OwnsBy(less, orgs, d, g, a) && sorted[0].orgId == orgs[g].id
  {
    var all := ClaimsOn(orgs, |orgs|, d);
    ClaimLessIsWeak(less);
    SortedHeadIsMinimal(ClaimLess(less), all);
    var x := SortBy(ClaimLess(less), all)[0];
    ClaimsOnAre(orgs, |orgs|, d, x);
    var g, a :| g < |orgs| && IsClaim(orgs, d, g, a, x);
    forall h, b | 0 <= h < |orgs| && 0 <= b < |orgs[h].candidates| && orgs[h].candidates[b].domain == d
      ensures x.priority < orgs[h].candidates[b].priority
              || (x.priority == orgs[h].candidates[b].priority && (g == h || less(x.orgId, orgs[h].id)))
    {
      var y := ClaimOf(orgs[h], b);
      assert IsClaim(orgs, d, h, b, y);
      ClaimsOnAre(orgs, |orgs|, d, y);
      assert !ClaimLess(less)(y, x);
      assert x.orgId == y.orgId || less(x.orgId, y.orgId) || less(y.orgId, x.orgId);
      assert x.orgId == y.orgId ==> g == h;
    }
    assert OwnsBy(less, orgs, d, g, a);
  }

  lemma {:induction false} PicksAtMostOne(o: Org, n: nat, d: string)
    requires n <= |o.candidates|
    requires forall a, b :: 0 <= a < b < |o.candidates| ==> o.candidates[a].domain != o.candidates[b].domain
    ensures |Picks(o, n, d)| <= 1
  {
    if n == 0 {
    } else {
      PicksAtMostOne(o, n - 1, d);
      if Picks(o, n - 1, d) != [] {
        PicksAre(o, n - 1, d, Picks(o, n - 1, d)[0]);
      }
    }
  }

  /** Every organisation claims a domain at most once. */
  lemma {:induction false} ClaimantsAreDistinct(orgs: seq<Org>, n: nat, d: string)
    requires n <= |orgs| && DistinctIds(orgs) && DistinctDomains(orgs)
    ensures forall i, j :: 0 <= i < j < |ClaimsOn(orgs, n, d)| ==>
            ClaimsOn(orgs, n, d)[i].orgId != ClaimsOn(orgs, n, d)[j].orgId
  {
    if n == 0 {
    } else {
      ClaimantsAreDistinct(orgs, n - 1, d);
      var front, last := ClaimsOn(orgs, n - 1, d), Picks(orgs[n - 1], |orgs[n - 1].candidates|, d);
      PicksAtMostOne(orgs[n - 1], |orgs[n - 1].candidates|, d);
      if last != [] {
        PicksAre(orgs[n - 1], |orgs[n - 1].candidates|, d, last[0]);
        assert last[0] in last;
        forall i | 0 <= i < |front| ensures front[i].orgId != last[0].orgId {
          ClaimsOnAre(orgs, n - 1, d, front[i]);
          assert front[i] in front;
        }
      }
    }
  }

  ghost predicate Claimant(orgs: seq<Org>, d: string, x: string) {
    exists g :: 0 <= g < |orgs| && orgs[g].id == x && Claims(orgs[g], d)
  }

  lemma ClaimantsAre(orgs: seq<Org>, d: string, x: string)
    ensures Claimant(orgs, d, x) <==> exists y :: y in ClaimsOn(orgs, |orgs|, d) && y.orgId == x
  {
    var all := ClaimsOn(orgs, |orgs|, d);
    if Claimant(orgs, d, x) {
      var g :| 0 <= g < |orgs| && orgs[g].id == x && Claims(orgs[g], d);
      var a :| 0 <= a < |orgs[g].candidates| && orgs[g].candidates[a].domain == d;
      var y := ClaimOf(orgs[g], a);
      assert IsClaim(orgs, d, g, a, y);
      ClaimsOnAre(orgs, |orgs|, d, y);
    }
    if y :| y in all && y.orgId == x {
      ClaimsOnAre(orgs, |orgs|, d, y);
      var g, a :| g < |orgs| && IsClaim(orgs, d, g, a, y);
      assert Claims(orgs[g], d);
    }
  }

  lemma LosersAre(less: (string, string) -> bool, orgs: seq<Org>, d: string, x: string)
    requires DistinctIds(orgs) && DistinctDomains(orgs) && ClaimsOn(orgs, |orgs|, d) != []
    ensures var sorted := SortBy(ClaimLess(less), ClaimsOn(orgs, |orgs|, d));
            sorted != [] && (x in OrgIds(sorted[1..]) <==> x != sorted[0].orgId && Claimant(orgs, d, x))
  {
    var all := ClaimsOn(orgs, |orgs|, d);
    ClaimantsAreDistinct(orgs, |orgs|, d);
    ClaimantsAre(orgs, d, x);
    TailIds(less, all, x);
  }

  lemma IdHasClaim(claims: seq<Claim>, x: string) returns (y: Claim)
    requires x in OrgIds(claims)
    ensures y in claims && y.orgId == x
  {
    var k :| 0 <= k < |OrgIds(claims)| && OrgIds(claims)[k] == x;
    y := claims[k];
  }

  lemma ClaimHasId(claims: seq<Claim>, y: Claim)
    requires y in claims
    ensures y.orgId in OrgIds(claims)
  {
    var k :| 0 <= k < |claims| && claims[k] == y;
    assert OrgIds(claims)[k] == y.orgId;
  }

  /** In a sorted list of claims with distinct claimants, the ids after the first are the others. */
  lemma TailIds(less: (string, string) -> bool, all: seq<Claim>, x: string)
    requires all != [] && forall i, j :: 0 <= i < j < |all| ==> all[i].orgId != all[j].orgId
    ensures var sorted := SortBy(ClaimLess(less), all);
            sorted != [] && (x in OrgIds(sorted[1..]) <==> x != sorted[0].orgId && exists y :: y in all && y.orgId == x)
  {
    var sorted := SortBy(ClaimLess(less), all);
    SortIsPermutation(ClaimLess(less), all);
    SameMembers(sorted, all);
    assert sorted[0] in sorted;
    if x in OrgIds(sorted[1..]) {
      var y := IdHasClaim(sorted[1..], x);
      SortedTailIsTheRest(ClaimLess(less), all, y);
    }
    if y :| y in all && y.orgId == x && x != sorted[0].orgId {
      SortedTailIsTheRest(ClaimLess(less), all, y);
      ClaimHasId(sorted[1..], y);
    }
  }

  // ---------- what ownership guarantees ----------

  /** A domain has one owner: the least claim is unique. */
  lemma OneOwner(less: (string, string) -> bool, orgs: seq<Org>, d: string, g: int, a: int, h: int, b: int)
    requires StrictTotal(less) && DistinctIds(orgs) && DistinctDomains(orgs)
    requires OwnsBy(less, orgs, d, g, a) && OwnsBy(less, orgs, d, h, b)
    ensures g == h && a == b
  {
    var x, y := orgs[g].id, orgs[h].id;
    assert less(x, y) && less(y, x) ==> less(x, x);
  }

  // ---------- ownership in two lists of organisations ----------

  predicate Twins(o: Org, x: Org) {
    o.id == x.id && o.candidates == x.candidates
  }

  ghost predicate HasTwin(o: Org, others: seq<Org>) {
    exists h :: 0 <= h < |others| && Twins(o, others[h])
  }

  /** Every claimant of the domain stands in the other list too, with the same candidates. */
  ghost predicate ClaimantsHaveTwins(orgs: seq<Org>, others: seq<Org>, d: string) {
    forall g :: 0 <= g < |orgs| && Claims(orgs[g], d) ==> HasTwin(orgs[g], others)
  }

  /** Candidate `a` of `o` ranks before candidate `b` of `x`, or the organisations are the same. */
  predicate Outranks(less: (string, string) -> bool, o: Org, a: int, x: Org, b: int)
    requires 0 <= a < |o.candidates| && 0 <= b < |x.candidates|
  {
    o.candidates[a].priority < x.candidates[b].priority
    || (o.candidates[a].priority == x.candidates[b].priority && (o.id == x.id || less(o.id, x.id)))
  }

  lemma OwnerOutranks(less: (string, string) -> bool, orgs: seq<Org>, d: string, g: int, a: int, h: int, b: int)
    requires OwnsBy(less, orgs, d, g, a) && 0 <= h < |orgs| && 0 <= b < |orgs[h].candidates|
             && orgs[h].candidates[b].domain == d
    ensures Outranks(less, orgs[g], a, orgs[h], b)
  {
  }

  /** Where the owner's claim stands in the list does not matter. */
  lemma OwnerMoves(less: (string, string) -> bool, orgs: seq<Org>, others: seq<Org>, d: string, g: int, a: int, h: int)
    requires DistinctIds(others) && OwnsBy(less, orgs, d, g, a) && 0 <= h < |others| && Twins(orgs[g], others[h])
    requires ClaimantsHaveTwins(others, orgs, d)
    ensures OwnsBy(less, others, d, h, a)
  {
    forall x, b | 0 <= x < |others| && 0 <= b < |others[x].candidates| && others[x].candidates[b].domain == d
      ensures Outranks(less, others[h], a, others[x], b) && (others[h].id == others[x].id ==> h == x)
    {
      assert Claims(others[x], d);
      var y :| 0 <= y < |orgs| && Twins(others[x], orgs[y]);
      OwnerOutranks(less, orgs, d, g, a, y, b);
      assert x < h || h < x || x == h;
    }
  }

  lemma OwnerIsKept(less: (string, string) -> bool, orgs: seq<Org>, others: seq<Org>, owner: map<string, string>,
                    other: map<string, string>, d: string)
    requires StrictTotal(less) && DistinctIds(others) && DistinctDomains(others)
    requires OwnersAre(less, orgs, owner) && OwnersAre(less, others, other)
    requires ClaimantsHaveTwins(orgs, others, d) && ClaimantsHaveTwins(others, orgs, d) && d in owner
    ensures d in other && owner[d] == other[d]
  {
    var g, a :| OwnsBy(less, orgs, d, g, a) && owner[d] == orgs[g].id;
    assert Claims(orgs[g], d);
    var h :| 0 <= h < |others| && Twins(orgs[g], others[h]);
    OwnerMoves(less, orgs, others, d, g, a, h);
    assert Claims(others[h], d);
    assert d in other;
    var x, m :| OwnsBy(less, others, d, x, m) && other[d] == others[x].id;
    OneOwner(less, others, d, h, a, x, m);
  }

  /** Two lists with the same claimants of a domain give it the same owner. */
  lemma OwnersAgree(less: (string, string) -> bool, orgs: seq<Org>, others: seq<Org>, owner: map<string, string>,
                    other: map<string, string>, d: string)
    requires StrictTotal(less) && DistinctIds(orgs) && DistinctDomains(orgs) && DistinctIds(others)
             && DistinctDomains(others)
    requires OwnersAre(less, orgs, owner) && OwnersAre(less, others, other)
    requires ClaimantsHaveTwins(orgs, others, d) && ClaimantsHaveTwins(others, orgs, d)
    ensures d in owner <==> d in other
    ensures d in owner ==> owner[d] == other[d]
  {
    if d in owner { OwnerIsKept(less, orgs, others, owner, other, d); }
    if d in other { OwnerIsKept(less, others, orgs, other, owner, d); }
  }

  /** Every non-null source priority ranks before an unapproved manual domain. */
  ghost predicate ApprovedPriorities(records: seq<SourceRecord>) {
    forall i :: 0 <= i < |records| && records[i].domainPriority.Some? ==> records[i].domainPriority.value < 99
  }

  ghost predicate WellRanked(orgs: seq<Org>) {
    forall g, a :: 0 <= g < |orgs| && 0 <= a < |orgs[g].candidates| ==>
      (orgs[g].candidates[a].authoritative <==> orgs[g].candidates[a].priority < UNAPPROVED)
  }

  lemma BestIsWellRanked(records: seq<SourceRecord>, group: seq<nat>, c: Candidate)
    requires ApprovedPriorities(records) && IsBest(records, group, |group|, c)
    ensures c.authoritative <==> c.priority < UNAPPROVED
    ensures !c.authoritative <==> c.priority == 99
    ensures c.authoritative
            <==> exists k: nat :: Proposes(records, group, k, c.domain) && records[group[k]].domainPriority.Some?
  {
  }

  /** If any claimant of a domain is authoritative then its owner's claim is authoritative. */
  lemma AuthoritativeClaimWins(less: (string, string) -> bool, orgs: seq<Org>, d: string, g: int, a: int, h: int,
                               b: int)
    requires WellRanked(orgs) && OwnsBy(less, orgs, d, g, a)
    requires 0 <= h < |orgs| && 0 <= b < |orgs[h].candidates| && orgs[h].candidates[b].domain == d
             && orgs[h].candidates[b].authoritative
    ensures orgs[g].candidates[a].authoritative
  {
    assert orgs[g].candidates[a].priority <= orgs[h].candidates[b].priority;
  }

  // ---------- section 6: the status of every organisation ----------

  predicate OwnsAuthoritatively(o: Org, owner: map<string, string>, a: nat) {
    a < |o.candidates| && o.candidates[a].authoritative && o.candidates[a].domain in owner
        && owner[o.candidates[a].domain] == o.id
  }

  ghost predicate StatusIs(o: Org, owner: map<string, string>, s: Status) {
    match s
    case Verified(d) =>
      exists a: nat :: OwnsAuthoritatively(o, owner, a) && o.candidates[a].domain == d &&
                       forall b: nat :: b < a ==> !OwnsAuthoritatively(o, owner, b)
    case NoDomain => o.noDomainAsserted && forall a: nat :: !OwnsAuthoritatively(o, owner, a)
    case Pending => !o.noDomainAsserted && forall a: nat :: !OwnsAuthoritatively(o, owner, a)
  }

  /** Every other authoritative candidate that the organisation owns has a higher priority number, or
      the same and a later domain. */
  ghost predicate BestOwned(less: (string, string) -> bool, o: Org, owner: map<string, string>, a: nat) {
    OwnsAuthoritatively(o, owner, a) &&
    forall b: nat :: OwnsAuthoritatively(o, owner, b) && b != a ==>
      o.candidates[a].priority < o.candidates[b].priority
      || (o.candidates[a].priority == o.candidates[b].priority && less(o.candidates[a].domain, o.candidates[b].domain))
  }

  ghost predicate IsBestOwned(less: (string, string) -> bool, o: Org, owner: map<string, string>, d: string) {
    exists a: nat :: BestOwned(less, o, owner, a) && o.candidates[a].domain == d
  }

  /** In a ranked list the first owned authoritative candidate is the best-ranked one. */
  lemma FirstOwnedIsBest(less: (string, string) -> bool, o: Org, owner: map<string, string>, a: nat)
    requires StrictTotal(less) && Ranked(less, o.candidates)
    ensures BestOwned(less, o, owner, a) <==>
            OwnsAuthoritatively(o, owner, a) && forall b: nat :: b < a ==> !OwnsAuthoritatively(o, owner, b)
  {
    if BestOwned(less, o, owner, a) {
      forall b: nat | b < a ensures !OwnsAuthoritatively(o, owner, b) {
        NotBothBefore(less, o.candidates, b, a);
      }
    }
  }

  lemma NotBothBefore(less: (string, string) -> bool, cands: seq<Candidate>, a: nat, b: nat)
    requires StrictTotal(less) && Ranked(less, cands) && a < b < |cands|
    ensures !(cands[b].priority < cands[a].priority)
    ensures !(cands[b].priority == cands[a].priority && less(cands[b].domain, cands[a].domain))
  {
    assert less(cands[a].domain, cands[b].domain) && less(cands[b].domain, cands[a].domain) ==>
        less(cands[a].domain, cands[a].domain);
  }

  lemma StatusIffBestOwned(less: (string, string) -> bool, o: Org, owner: map<string, string>, s: Status, d: string)
    requires StrictTotal(less) && Ranked(less, o.candidates) && StatusIs(o, owner, s)
    ensures s == Verified(d) <==> IsBestOwned(less, o, owner, d)
  {
    forall a: nat
      ensures BestOwned(less, o, owner, a) <==>
              OwnsAuthoritatively(o, owner, a) && forall b: nat :: b < a ==> !OwnsAuthoritatively(o, owner, b)
    {
      FirstOwnedIsBest(less, o, owner, a);
    }
    if s.Verified? {
      var a: nat :| OwnsAuthoritatively(o, owner, a) && o.candidates[a].domain == s.domain
                    && forall b: nat :: b < a ==> !OwnsAuthoritatively(o, owner, b);
      assert BestOwned(less, o, owner, a);
      forall b: nat | BestOwned(less, o, owner, b) ensures b == a {
        assert !(a < b) && !(b < a);
      }
    }
  }

  method DecideStatus(o: Org, owner: map<string, string>) returns (s: Status)
    ensures StatusIs(o, owner, s)
  {
    for a := 0 to |o.candidates|
      invariant forall b: nat :: b < a ==> !OwnsAuthoritatively(o, owner, b)
    {
      if OwnsAuthoritatively(o, owner, a) {
        return Verified(o.candidates[a].domain);
      }
    }
    s := if o.noDomainAsserted then NoDomain else Pending;
  }

  /** Two owner maps that agree on the organisation's candidates give it one status. */
  lemma StatusIsDetermined(o: Org, owner: map<string, string>, other: map<string, string>, s: Status, t: Status)
    requires StatusIs(o, owner, s) && StatusIs(o, other, t)
    requires forall a: nat :: OwnsAuthoritatively(o, owner, a) <==> OwnsAuthoritatively(o, other, a)
    ensures s == t
  {
    if s.Verified? {
      var a: nat :| OwnsAuthoritatively(o, owner, a) && o.candidates[a].domain == s.domain
                    && forall b: nat :: b < a ==> !OwnsAuthoritatively(o, owner, b);
      assert OwnsAuthoritatively(o, other, a);
      var c: nat :| OwnsAuthoritatively(o, other, c) && o.candidates[c].domain == t.domain
                    && forall b: nat :: b < c ==> !OwnsAuthoritatively(o, other, b);
      assert !(a < c) && !(c < a);
    }
  }

  method DecideStatuses(orgs: seq<Org>, owner: map<string, string>) returns (status: seq<Status>)
    ensures |status| == |orgs| && forall g :: 0 <= g < |orgs| ==> StatusIs(orgs[g], owner, status[g])
  {
    status := [];
    for g := 0 to |orgs|
      invariant |status| == g && forall h :: 0 <= h < g ==> StatusIs(orgs[h], owner, status[h])
    {
      var s := DecideStatus(orgs[g], owner);
      status := status + [s];
    }
  }

  /** No two VERIFIED organisations share a verified domain. */
  lemma VerifiedDomainsAreUnique(orgs: seq<Org>, owner: map<string, string>, status: seq<Status>, g: nat, h: nat)
    requires DistinctIds(orgs) && |status| == |orgs| && g < |orgs| && h < |orgs| && g != h
    requires StatusIs(orgs[g], owner, status[g]) && StatusIs(orgs[h], owner, status[h])
    requires status[g].Verified? && status[h].Verified?
    ensures status[g].domain != status[h].domain
  {
    assert g < h || h < g;
  }

  ghost predicate OwnerIsVerified(orgs: seq<Org>, owner: map<string, string>, status: seq<Status>, d: string)
    requires |status| == |orgs|
  {
    d in owner && exists g :: 0 <= g < |orgs| && owner[d] == orgs[g].id && status[g].Verified?
  }

  /** A domain with an authoritative claim verifies somebody: its owner is VERIFIED. */
  lemma AuthoritativeDomainVerifiesItsOwner(less: (string, string) -> bool, orgs: seq<Org>,
                                            owner: map<string, string>, status: seq<Status>, h: nat, b: nat)
    requires WellRanked(orgs) && OwnersAre(less, orgs, owner)
    requires |status| == |orgs| && forall g :: 0 <= g < |orgs| ==> StatusIs(orgs[g], owner, status[g])
    requires h < |orgs| && b < |orgs[h].candidates| && orgs[h].candidates[b].authoritative
    ensures OwnerIsVerified(orgs, owner, status, orgs[h].candidates[b].domain)
  {
    var d := orgs[h].candidates[b].domain;
    assert Claims(orgs[h], d);
    assert d in owner;
    var g, a :| OwnsBy(less, orgs, d, g, a) && owner[d] == orgs[g].id;
    AuthoritativeClaimWins(less, orgs, d, g, a, h, b);
    assert OwnsAuthoritatively(orgs[g], owner, a);
    assert StatusIs(orgs[g], owner, status[g]);
    assert status[g].Verified?;
  }

  // ---------- observed domains are split exactly ----------

  /** The observed domains whose evidence is attached to one organisation. */
  ghost function Attached(o: Org, owner: map<string, string>, observed: set<string>): set<string> {
    set a | 0 <= a < |o.candidates| && o.candidates[a].domain in owner && owner[o.candidates[a].domain] == o.id
            && o.candidates[a].domain in observed :: o.candidates[a].domain
  }

  ghost function AttachedSets(orgs: seq<Org>, owner: map<string, string>,
                              observed: set<string>): (sets: seq<set<string>>)
    ensures |sets| == |orgs| && forall g :: 0 <= g < |orgs| ==> sets[g] == Attached(orgs[g], owner, observed)
  {
    seq(|orgs|, g requires 0 <= g < |orgs| => Attached(orgs[g], owner, observed))
  }

  ghost function TotalSize(sets: seq<set<string>>): nat {
    if sets == [] then 0 else |sets[0]| + TotalSize(sets[1..])
  }

  ghost function UnionOf(sets: seq<set<string>>): set<string> {
    if sets == [] then {} else sets[0] + UnionOf(sets[1..])
  }

  lemma {:induction false} UnionMembers(sets: seq<set<string>>, d: string)
    ensures d in UnionOf(sets) <==> exists g :: 0 <= g < |sets| && d in sets[g]
  {
    if sets == [] {
    } else {
      UnionMembers(sets[1..], d);
      if d in UnionOf(sets[1..]) {
        var g :| 0 <= g < |sets[1..]| && d in sets[1..][g];
        assert d in sets[g + 1];
      }
      if g :| 0 <= g < |sets| && d in sets[g] && g > 0 {
        assert d in sets[1..][g - 1];
      }
    }
  }

  lemma {:induction false} DisjointSizesAdd(sets: seq<set<string>>)
    requires forall g, h :: 0 <= g < h < |sets| ==> sets[g] !! sets[h]
    ensures TotalSize(sets) == |UnionOf(sets)|
  {
    if sets == [] {
    } else {
      DisjointSizesAdd(sets[1..]);
      forall d | d in sets[0] ensures d !in UnionOf(sets[1..]) {
        UnionMembers(sets[1..], d);
      }
      assert sets[0] !! UnionOf(sets[1..]);
    }
  }

  lemma AttachedOnce(orgs: seq<Org>, owner: map<string, string>, observed: set<string>, g: nat, h: nat)
    requires DistinctIds(orgs) && g < h < |orgs|
    ensures Attached(orgs[g], owner, observed) !! Attached(orgs[h], owner, observed)
  {
    forall d | d in Attached(orgs[g], owner, observed) ensures d !in Attached(orgs[h], owner, observed) {
      AttachedIsOwned(orgs[g], owner, observed, d);
      AttachedIsOwned(orgs[h], owner, observed, d);
    }
  }

  lemma InsideAndOutside(a: set<string>, b: set<string>)
    ensures |a| == |a - b| + |a * b|
  {
    assert a == (a - b) + a * b;
  }

  /** Every observed domain is an orphan or counts for exactly one organisation. */
  lemma ObservedDomainsSplit(less: (string, string) -> bool, orgs: seq<Org>, owner: map<string, string>,
                             observed: set<string>)
    requires DistinctIds(orgs) && OwnersAre(less, orgs, owner)
    ensures |observed| == |observed - owner.Keys| + TotalSize(AttachedSets(orgs, owner, observed))
    ensures UnionOf(AttachedSets(orgs, owner, observed)) == observed * owner.Keys
    ensures forall g, h :: 0 <= g < h < |orgs| ==>
            AttachedSets(orgs, owner, observed)[g] !! AttachedSets(orgs, owner, observed)[h]
  {
    var sets := AttachedSets(orgs, owner, observed);
    forall g: nat, h: nat | g < h < |orgs| ensures sets[g] !! sets[h] {
      AttachedOnce(orgs, owner, observed, g, h);
    }
    DisjointSizesAdd(sets);
    AttachedAreOwned(less, orgs, owner, observed);
    InsideAndOutside(observed, owner.Keys);
  }

  lemma AttachedIsOwned(o: Org, owner: map<string, string>, observed: set<string>, d: string)
    ensures d in Attached(o, owner, observed) <==> Claims(o, d) && d in owner && owner[d] == o.id && d in observed
  {
  }

  lemma AttachedAreOwned(less: (string, string) -> bool, orgs: seq<Org>, owner: map<string, string>,
                         observed: set<string>)
    requires OwnersAre(less, orgs, owner)
    ensures UnionOf(AttachedSets(orgs, owner, observed)) == observed * owner.Keys
  {
    forall d ensures d in UnionOf(AttachedSets(orgs, owner, observed)) <==> d in observed * owner.Keys {
      AttachedSomewhere(less, orgs, owner, observed, d);
    }
  }

  lemma AttachedSomewhere(less: (string, string) -> bool, orgs: seq<Org>, owner: map<string, string>,
                          observed: set<string>, d: string)
    requires OwnersAre(less, orgs, owner)
    ensures d in UnionOf(AttachedSets(orgs, owner, observed)) <==> d in observed && d in owner
  {
    var sets := AttachedSets(orgs, owner, observed);
    UnionMembers(sets, d);
    if d in UnionOf(sets) {
      var g :| 0 <= g < |sets| && d in sets[g];
      AttachedIsOwned(orgs[g], owner, observed, d);
    }
    if d in observed && d in owner {
      var g, a :| OwnsBy(less, orgs, d, g, a) && owner[d] == orgs[g].id;
      AttachedIsOwned(orgs[g], owner, observed, d);
      assert d in sets[g];
    }
  }
}
