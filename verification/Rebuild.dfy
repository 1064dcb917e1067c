/** Two builds from the same records in different orders: what authority/build.js keeps stable. */
module Rebuild {
  import opened Orders
  import opened Records
  import opened Merge
  import opened Identity
  import opened Organisations
  import opened Domains
  import opened Build
  import opened Keyless

  /** A dataset built from its records, with the separation of hashes that its ids rely on. */
  datatype Built = Built(w: World, records: seq<SourceRecord>, dataset: Dataset) {
    ghost predicate Valid() {
      w.Ordered() && DatasetOk(w, records, dataset) && HashSeparates(w.hash, PksOf(dataset.drafts))
    }

    /** Record `i` belongs to organisation `g`. */
    predicate In(i: nat, g: nat) {
      g < |dataset.drafts| && i < |records| && i in dataset.drafts[g].group
    }
  }

  /** The records of `b` are those of `a` in another order. */
  ghost predicate Rebuilt(a: Built, b: Built, p: seq<nat>, q: seq<nat>) {
    && a.Valid() && b.Valid() && Reordering(a.records, b.records, p, q)
    && a.w == b.w
  }

  lemma RebuiltBack(a: Built, b: Built, p: seq<nat>, q: seq<nat>)
    requires Rebuilt(a, b, p, q)
    ensures Rebuilt(b, a, q, p)
  {
    ReorderingInverse(a.records, b.records, p, q);
  }

  lemma RecordHasOrganisation(a: Built, i: nat) returns (g: nat)
    requires a.Valid() && i < |a.records|
    ensures a.In(i, g)
  {
    assert InSomeGroup(GroupsOf(a.dataset.drafts), i);
    g :| 0 <= g < |GroupsOf(a.dataset.drafts)| && i in GroupsOf(a.dataset.drafts)[g];
  }

  // ---------- ids ----------

  /** Rebuilding from the same records in another order gives the organisation of every record with
      a strong identifier the same id, the unsuffixed hash of its primary key. */
  lemma RebuildKeepsAnchoredIds(a: Built, b: Built, p: seq<nat>, q: seq<nat>, i: nat, x: nat, y: nat)
    requires Rebuilt(a, b, p, q) && a.In(i, x) && a.records[i].ids != map[] && b.In(p[i], y)
    ensures a.dataset.ids[x] == b.dataset.ids[y] == BaseId(a.dataset.drafts[x].pk, a.w.hash)
  {
    var da, db := a.dataset, b.dataset;
    RecordIsAnchored(a.w.less, a.records, GroupsOf(da.drafts)[x], i);
    KeysAreOfGroups(a.w, a.records, da);
    KeysAreOfGroups(b.w, b.records, db);
    AnchoredIdsIgnoreRecordOrder(a.w.less, a.w.hash, a.records, GroupsOf(da.drafts), PksOf(da.drafts), da.ids, x,
                                 b.records, GroupsOf(db.drafts), PksOf(db.drafts), db.ids, y, p, q, i);
  }

  /** No other record without identifiers has the name and domain of record `i`, or record `i` carries
      an identifier itself. */
  ghost predicate HasItsOwnKey(a: Built, i: nat)
    requires i < |a.records|
  {
    a.records[i].ids != map[] ||
    forall j :: 0 <= j < |a.records| && j != i && a.records[j].ids == map[] ==>
      KeylessKey(a.w, a.records[j]) != KeylessKey(a.w, a.records[i])
  }

  lemma OwnKeyIsFirst(a: Built, i: nat)
    requires i < |a.records| && HasItsOwnKey(a, i) && a.records[i].ids == map[]
    ensures FirstOfItsKey(a.w, a.records, i)
  {
  }

  lemma OwnKeyMoves(a: Built, b: Built, p: seq<nat>, q: seq<nat>, i: nat)
    requires Rebuilt(a, b, p, q) && i < |a.records| && HasItsOwnKey(a, i)
    ensures HasItsOwnKey(b, p[i])
  {
    forall j | 0 <= j < |b.records| && j != p[i] ensures q[j] != i && b.records[j] == a.records[q[j]] {
      assert p[q[j]] == j;
    }
  }

  /** The organisation of a record keeps its id in every order of the records, when the record carries a
      strong identifier or shares its name and domain with no other record that carries none. */
  lemma RebuildKeepsOwnIds(a: Built, b: Built, p: seq<nat>, q: seq<nat>, i: nat, x: nat, y: nat)
    requires Rebuilt(a, b, p, q) && a.In(i, x) && b.In(p[i], y) && HasItsOwnKey(a, i)
    ensures a.dataset.ids[x] == b.dataset.ids[y]
  {
    if a.records[i].ids != map[] {
      RebuildKeepsAnchoredIds(a, b, p, q, i, x, y);
    } else {
      OwnKeyMoves(a, b, p, q, i);
      OwnKeyIsFirst(a, i);
      OwnKeyIsFirst(b, p[i]);
      KeylessIdIffFirst(a.w, a.records, a.dataset, x, i);
      KeylessIdIffFirst(b.w, b.records, b.dataset, y, p[i]);
    }
  }

  /** Two records without identifiers that share their name and domain: the first of that key has the
      unsuffixed id, and any order that moves another before it gives it a different one. */
  lemma RebuildMovesSharedIds(a: Built, b: Built, p: seq<nat>, q: seq<nat>, i: nat, j: nat, x: nat, y: nat)
    requires Rebuilt(a, b, p, q) && a.In(i, x) && b.In(p[i], y) && FirstOfItsKey(a.w, a.records, i)
    requires j < |a.records| && a.records[i].ids == a.records[j].ids == map[] && p[j] < p[i]
    requires KeylessKey(a.w, a.records[i]) == KeylessKey(a.w, a.records[j])
    ensures a.dataset.ids[x] == BaseId(a.dataset.drafts[x].pk, a.w.hash) != b.dataset.ids[y]
  {
    KeylessIdIffFirst(a.w, a.records, a.dataset, x, i);
    KeylessIdIffFirst(b.w, b.records, b.dataset, y, p[i]);
    assert b.records[p[i]] == a.records[i] && b.records[p[j]] == a.records[j];
    KeylessStandsAlone(a.records, GroupsOf(a.dataset.drafts), x, i);
    assert DraftOk(a.w, a.records, a.dataset.drafts[x]);
    KeylessDraft(a.w, a.records, a.dataset.drafts[x], i);
  }

  // ---------- candidate domains ----------

  /** The members of an organisation are the members of its counterpart. */
  lemma MembersMove(a: Built, b: Built, p: seq<nat>, q: seq<nat>, i: nat, x: nat, y: nat, j: nat)
    requires Rebuilt(a, b, p, q) && a.In(i, x) && b.In(p[i], y) && a.In(j, x)
    ensures b.In(p[j], y)
  {
    var ga, gb := GroupsOf(a.dataset.drafts), GroupsOf(b.dataset.drafts);
    assert i in ga[x] && j in ga[x];
    ReorderingKeepsOrganisations(a.records, b.records, p, q, i, j);
    MembersOfAGroup(b.records, gb, y, p[i], p[j]);
  }

  /** Some record of the group proposes the domain with this priority. */
  ghost predicate ProposedAt(records: seq<SourceRecord>, group: seq<nat>, d: string, priority: int) {
    exists j :: j in group && j < |records| && records[j].domain == Some(d) && Proposal(records[j]).priority == priority
  }

  ghost predicate LeastProposed(records: seq<SourceRecord>, group: seq<nat>, c: Candidate) {
    ProposedAt(records, group, c.domain, c.priority)
    && forall n :: ProposedAt(records, group, c.domain, n) ==> c.priority <= n
  }

  /** The candidate of a domain is its least proposal; with approved priorities nothing else matters. */
  lemma BestIsLeastProposed(records: seq<SourceRecord>, group: seq<nat>, c: Candidate)
    requires IsBest(records, group, |group|, c)
    ensures LeastProposed(records, group, c)
  {
    var k: nat :| IsBestAt(records, group, |group|, c, k);
    assert group[k] in group;
    forall n | ProposedAt(records, group, c.domain, n) ensures c.priority <= n {
      var j :| j in group && j < |records| && records[j].domain == Some(c.domain) && Proposal(records[j]).priority == n;
      var m: nat :| m < |group| && group[m] == j;
      assert Proposes(records, group, m, c.domain);
    }
  }

  lemma ProposedMoves(a: Built, b: Built, p: seq<nat>, q: seq<nat>, i: nat, x: nat, y: nat, d: string, n: int)
    requires Rebuilt(a, b, p, q) && a.In(i, x) && b.In(p[i], y)
    requires ProposedAt(a.records, a.dataset.drafts[x].group, d, n)
    ensures ProposedAt(b.records, b.dataset.drafts[y].group, d, n)
  {
    var j :| j in a.dataset.drafts[x].group && j < |a.records| && a.records[j].domain == Some(d)
        && Proposal(a.records[j]).priority == n;
    MembersMove(a, b, p, q, i, x, y, j);
    assert b.records[p[j]] == a.records[j];
  }

  lemma CandidateMoves(a: Built, b: Built, p: seq<nat>, q: seq<nat>, i: nat, x: nat, y: nat, c: Candidate)
    requires Rebuilt(a, b, p, q) && ApprovedPriorities(a.records) && ApprovedPriorities(b.records)
    requires a.In(i, x) && b.In(p[i], y) && c in a.dataset.drafts[x].candidates
    ensures c in b.dataset.drafts[y].candidates
  {
    var da, db := a.dataset.drafts[x], b.dataset.drafts[y];
    assert DraftOk(a.w, a.records, da) && DraftOk(b.w, b.records, db);
    BestIsLeastProposed(a.records, da.group, c);
    ProposedMoves(a, b, p, q, i, x, y, c.domain, c.priority);
    var e := CandidateOf(b, y, c.domain, c.priority);
    BestIsLeastProposed(b.records, db.group, e);
    RebuiltBack(a, b, p, q);
    ProposedMoves(b, a, q, p, p[i], y, x, e.domain, e.priority);
    BestIsWellRanked(a.records, da.group, c);
    BestIsWellRanked(b.records, db.group, e);
    assert c == e;
  }

  /** A proposed domain has a candidate. */
  lemma CandidateOf(b: Built, y: nat, d: string, n: int) returns (e: Candidate)
    requires b.Valid() && y < |b.dataset.drafts| && ProposedAt(b.records, b.dataset.drafts[y].group, d, n)
    ensures e in b.dataset.drafts[y].candidates && e.domain == d
            && IsBest(b.records, b.dataset.drafts[y].group, |b.dataset.drafts[y].group|, e)
  {
    var db := b.dataset.drafts[y];
    assert DraftOk(b.w, b.records, db);
    var j :| j in db.group && j < |b.records| && b.records[j].domain == Some(d) && Proposal(b.records[j]).priority == n;
    var k: nat :| k < |db.group| && db.group[k] == j;
    assert Proposes(b.records, db.group, k, d);
    assert HasDomain(db.candidates, d);
    var z :| 0 <= z < |db.candidates| && db.candidates[z].domain == d;
    e := db.candidates[z];
  }

  lemma CandidatesAscend(w: World, records: seq<SourceRecord>, d: Draft)
    requires w.Ordered() && DraftOk(w, records, d)
    ensures StrictlySorted(CandidateLess(w.locale), d.candidates)
  {
    assert Ranked(w.locale, d.candidates);
  }

  lemma CandidateLessIsAsymmetric(locale: (string, string) -> bool)
    requires StrictTotal(locale)
    ensures Asymmetric(CandidateLess(locale))
  {
    CandidateLessIsWeak(locale);
    var lt := CandidateLess(locale);
    forall x, y | lt(x, y) ensures !lt(y, x) {
      assert lt(y, x) ==> lt(x, x);
    }
  }

  /** The ranked candidates of an organisation are the same list in every order of the records. */
  lemma RebuildKeepsCandidates(a: Built, b: Built, p: seq<nat>, q: seq<nat>, i: nat, x: nat, y: nat)
    requires Rebuilt(a, b, p, q) && ApprovedPriorities(a.records) && ApprovedPriorities(b.records)
    requires a.In(i, x) && b.In(p[i], y)
    ensures a.dataset.drafts[x].candidates == b.dataset.drafts[y].candidates
  {
    var da, db := a.dataset.drafts[x], b.dataset.drafts[y];
    RebuiltBack(a, b, p, q);
    forall c ensures c in da.candidates <==> c in db.candidates {
      if c in da.candidates { CandidateMoves(a, b, p, q, i, x, y, c); }
      if c in db.candidates { CandidateMoves(b, a, q, p, p[i], y, x, c); }
    }
    CandidatesAscend(a.w, a.records, da);
    CandidatesAscend(b.w, b.records, db);
    CandidateLessIsAsymmetric(a.w.locale);
    StrictlySortedIsUnique(CandidateLess(a.w.locale), da.candidates, db.candidates);
  }

  // ---------- owners ----------

  /** Every record that proposes the domain carries a strong identifier or has a key of its own. */
  ghost predicate StableDomain(a: Built, d: string) {
    forall i :: 0 <= i < |a.records| && a.records[i].domain == Some(d) ==> HasItsOwnKey(a, i)
  }

  lemma PrioritiesMove(a: Built, b: Built, p: seq<nat>, q: seq<nat>)
    requires Rebuilt(a, b, p, q) && ApprovedPriorities(a.records)
    ensures ApprovedPriorities(b.records)
  {
    forall j | 0 <= j < |b.records| ensures b.records[j] == a.records[q[j]] {
      assert p[q[j]] == j;
    }
  }

  lemma StableDomainMoves(a: Built, b: Built, p: seq<nat>, q: seq<nat>, d: string)
    requires Rebuilt(a, b, p, q) && StableDomain(a, d)
    ensures StableDomain(b, d)
  {
    forall j | 0 <= j < |b.records| && b.records[j].domain == Some(d) ensures HasItsOwnKey(b, j) {
      assert p[q[j]] == j && b.records[j] == a.records[q[j]];
      OwnKeyMoves(a, b, p, q, q[j]);
    }
  }

  lemma ClaimHasRecord(a: Built, g: nat, d: string) returns (i: nat)
    requires a.Valid() && g < |a.dataset.drafts| && Claims(a.dataset.Orgs()[g], d)
    ensures a.In(i, g) && a.records[i].domain == Some(d)
  {
    var x := a.dataset.drafts[g];
    assert DraftOk(a.w, a.records, x);
    var k :| 0 <= k < |x.candidates| && x.candidates[k].domain == d;
    var m: nat :| IsBestAt(a.records, x.group, |x.group|, x.candidates[k], m);
    i := x.group[m];
  }

  lemma ClaimantsAreKept(a: Built, b: Built, p: seq<nat>, q: seq<nat>, d: string)
    requires Rebuilt(a, b, p, q) && ApprovedPriorities(a.records) && StableDomain(a, d)
    ensures ClaimantsHaveTwins(a.dataset.Orgs(), b.dataset.Orgs(), d)
  {
    PrioritiesMove(a, b, p, q);
    forall g: nat | g < |a.dataset.drafts| && Claims(a.dataset.Orgs()[g], d)
      ensures HasTwin(a.dataset.Orgs()[g], b.dataset.Orgs())
    {
      var i := ClaimHasRecord(a, g, d);
      var h := RecordHasOrganisation(b, p[i]);
      RebuildKeepsOwnIds(a, b, p, q, i, g, h);
      RebuildKeepsCandidates(a, b, p, q, i, g, h);
      assert Twins(a.dataset.Orgs()[g], b.dataset.Orgs()[h]);
    }
  }

  /** The owner of a domain is the same in every order of the records, when every record that proposes
      it carries a strong identifier or has a key of its own. */
  lemma RebuildKeepsOwner(a: Built, b: Built, p: seq<nat>, q: seq<nat>, d: string)
    requires Rebuilt(a, b, p, q) && ApprovedPriorities(a.records) && StableDomain(a, d)
    ensures d in a.dataset.owner <==> d in b.dataset.owner
    ensures d in a.dataset.owner ==> a.dataset.owner[d] == b.dataset.owner[d]
  {
    ClaimantsAreKept(a, b, p, q, d);
    RebuiltBack(a, b, p, q);
    PrioritiesMove(a, b, p, q);
    StableDomainMoves(a, b, p, q, d);
    ClaimantsAreKept(b, a, q, p, d);
    OwnersAgree(a.w.locale, a.dataset.Orgs(), b.dataset.Orgs(), a.dataset.owner, b.dataset.owner, d);
  }

  // ---------- statuses ----------

  lemma AssertionMoves(a: Built, b: Built, p: seq<nat>, q: seq<nat>, i: nat, x: nat, y: nat)
    requires Rebuilt(a, b, p, q) && a.In(i, x) && b.In(p[i], y)
    requires AssertsNoDomain(a.records, a.dataset.drafts[x].group)
    ensures AssertsNoDomain(b.records, b.dataset.drafts[y].group)
  {
    var j :| j in a.dataset.drafts[x].group && j < |a.records| && a.records[j].noDomainAsserted;
    MembersMove(a, b, p, q, i, x, y, j);
    assert b.records[p[j]] == a.records[j];
  }

  /** An organisation with a strong identifier or a key of its own keeps its id, its candidates, its status
      and its verified domain in every order of the records, when the same goes for all claimants of its
      candidate domains. */
  lemma RebuildKeepsStatus(a: Built, b: Built, p: seq<nat>, q: seq<nat>, i: nat, x: nat, y: nat)
    requires Rebuilt(a, b, p, q) && ApprovedPriorities(a.records)
    requires a.In(i, x) && b.In(p[i], y) && HasItsOwnKey(a, i)
    requires forall k :: 0 <= k < |a.dataset.drafts[x].candidates| ==>
             StableDomain(a, a.dataset.drafts[x].candidates[k].domain)
    ensures a.dataset.Orgs()[x] == b.dataset.Orgs()[y] && a.dataset.status[x] == b.dataset.status[y]
  {
    PrioritiesMove(a, b, p, q);
    RebuildKeepsOwnIds(a, b, p, q, i, x, y);
    RebuildKeepsCandidates(a, b, p, q, i, x, y);
    AssertionIsKept(a, b, p, q, i, x, y);
    var o := a.dataset.Orgs()[x];
    forall k: nat ensures OwnsAuthoritatively(o, a.dataset.owner, k) <==> OwnsAuthoritatively(o, b.dataset.owner, k) {
      if k < |o.candidates| { RebuildKeepsOwner(a, b, p, q, o.candidates[k].domain); }
    }
    StatusIsDetermined(o, a.dataset.owner, b.dataset.owner, a.dataset.status[x], b.dataset.status[y]);
  }

  lemma AssertionIsKept(a: Built, b: Built, p: seq<nat>, q: seq<nat>, i: nat, x: nat, y: nat)
    requires Rebuilt(a, b, p, q) && a.In(i, x) && b.In(p[i], y)
    requires a.dataset.drafts[x].candidates == b.dataset.drafts[y].candidates
    ensures a.dataset.drafts[x].noDomainAsserted == b.dataset.drafts[y].noDomainAsserted
  {
    RebuiltBack(a, b, p, q);
    assert DraftOk(a.w, a.records, a.dataset.drafts[x]) && DraftOk(b.w, b.records, b.dataset.drafts[y]);
    if AssertsNoDomain(a.records, a.dataset.drafts[x].group) { AssertionMoves(a, b, p, q, i, x, y); }
    if AssertsNoDomain(b.records, b.dataset.drafts[y].group) { AssertionMoves(b, a, q, p, p[i], y, x); }
  }
}
