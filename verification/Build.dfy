/** authority/build.js from the merge to the emitted dataset, with its guarantees for every input. */
module Build {
  import opened Orders
  import opened Records
  import opened Merge
  import opened Identity
  import opened Organisations
  import opened Domains

  // ---------- one organisation per group ----------

  /** The non-null values of one scheme, record by record. */
  function ValueList(records: seq<SourceRecord>, group: seq<nat>, s: Scheme): seq<string> {
    if group == [] then []
    else
      var i := group[|group| - 1];
      ValueList(records, group[..|group| - 1], s)
          + if i < |records| && s in records[i].ids then [records[i].ids[s]] else []
  }

  lemma {:induction false} ValueListAre(records: seq<SourceRecord>, group: seq<nat>, s: Scheme, v: string)
    ensures v in ValueList(records, group, s) <==> v in Values(records, group, s)
  {
    if group == [] {
    } else {
      assert group == group[..|group| - 1] + [group[|group| - 1]];
      ValueListAre(records, group[..|group| - 1], s, v);
    }
  }

  /** The identifiers of an organisation: per scheme, the first of its sorted values. */
  function IdentifierMap(less: (string, string) -> bool, records: seq<SourceRecord>,
                         group: seq<nat>): map<Scheme, string> {
    map s | s in SCHEMES && SortBy(less, ValueList(records, group, s)) != [] ::
        SortBy(less, ValueList(records, group, s))[0]
  }

  lemma IdentifierMapIsLeast(less: (string, string) -> bool, records: seq<SourceRecord>, group: seq<nat>)
    requires StrictTotal(less)
    ensures IdentifierMap(less, records, group) == Identifiers(less, records, group)
  {
    StrictTotalIsWeak(less);
    forall s: Scheme
      ensures s in IdentifierMap(less, records, group) <==> s in Identifiers(less, records, group)
      ensures s in IdentifierMap(less, records, group) ==>
              IdentifierMap(less, records, group)[s] == Identifiers(less, records, group)[s]
    {
      EverySchemeIsListed(s);
      FirstSortedIsLeast(less, records, group, s);
    }
  }

  lemma FirstSortedIsLeast(less: (string, string) -> bool, records: seq<SourceRecord>, group: seq<nat>, s: Scheme)
    requires StrictTotal(less) && StrictWeak(less)
    ensures SortBy(less, ValueList(records, group, s)) != [] <==> Values(records, group, s) != {}
    ensures Values(records, group, s) != {} ==>
              SortBy(less, ValueList(records, group, s)) != []
                  && SortBy(less, ValueList(records, group, s))[0] == Least(less, Values(records, group, s))
  {
    var list, all := ValueList(records, group, s), Values(records, group, s);
    forall v ensures v in list <==> v in all {
      ValueListAre(records, group, s, v);
    }
    if list == [] {
      assert all == {};
    } else {
      assert list[0] in list;
      SortedHeadIsMinimal(less, list);
      var m, l := SortBy(less, list)[0], Least(less, all);
      assert !less(l, m);
      assert m == l || less(l, m);
    }
  }

  /** What the build takes from its surroundings: the code-unit order of `sort`, the order of
      `localeCompare`, the choice of a name for a group, SHA-1, and the digits of it that an id keeps. */
  datatype World = World(less: (string, string) -> bool, locale: (string, string) -> bool,
                         nameOf: seq<SourceRecord> -> string, sha: string -> string, hash: string -> string) {
    ghost predicate Ordered() {
      StrictTotal(less) && StrictTotal(locale)
    }
  }

  datatype Draft = Draft(group: seq<nat>, ids: map<Scheme, string>, candidates: seq<Candidate>,
      noDomainAsserted: bool, pk: string)

  function FirstDomain(candidates: seq<Candidate>): string {
    if candidates == [] then "" else candidates[0].domain
  }

  ghost predicate AssertsNoDomain(records: seq<SourceRecord>, group: seq<nat>) {
    exists i :: i in group && i < |records| && records[i].noDomainAsserted
  }

  ghost predicate DraftOk(w: World, records: seq<SourceRecord>, d: Draft)
    requires w.Ordered()
  {
    && d.ids == Identifiers(w.less, records, d.group)
    && CandidatesAre(records, d.group, d.candidates) && Ranked(w.locale, d.candidates)
    && d.pk == PrimaryKey(d.ids, w.nameOf(RecordsAt(records, d.group)), FirstDomain(d.candidates), w.sha)
    && (d.noDomainAsserted <==> d.candidates == [] && AssertsNoDomain(records, d.group))
  }

  /** Section 3 for one group. */
  method DraftOrganisation(w: World, records: seq<SourceRecord>, group: seq<nat>) returns (d: Draft)
    requires w.Ordered() && forall k :: 0 <= k < |group| ==> group[k] < |records|
    ensures d.group == group && DraftOk(w, records, d)
  {
    var ids := IdentifierMap(w.less, records, group);
    IdentifierMapIsLeast(w.less, records, group);
    var candidates := CollectCandidates(w.locale, records, group);
    var asserted := exists i :: i in group && i < |records| && records[i].noDomainAsserted;
    var pk := PrimaryKey(ids, w.nameOf(RecordsAt(records, group)), FirstDomain(candidates), w.sha);
    d := Draft(group, ids, candidates, candidates == [] && asserted, pk);
  }

  function GroupsOf(drafts: seq<Draft>): (groups: seq<seq<nat>>)
    ensures |groups| == |drafts| && forall g :: 0 <= g < |drafts| ==> groups[g] == drafts[g].group
  {
    seq(|drafts|, g requires 0 <= g < |drafts| => drafts[g].group)
  }

  function PksOf(drafts: seq<Draft>): (pks: seq<string>)
    ensures |pks| == |drafts| && forall g :: 0 <= g < |drafts| ==> pks[g] == drafts[g].pk
  {
    seq(|drafts|, g requires 0 <= g < |drafts| => drafts[g].pk)
  }

  function Without<T>(s: seq<T>, y: nat): seq<T>
    requires y < |s|
  {
    s[..y] + s[y + 1..]
  }

  lemma WithoutCounts<T>(s: seq<T>, y: nat)
    requires y < |s|
    ensures multiset(s) == multiset(Without(s, y)) + multiset{s[y]}
  {
    assert s == s[..y] + [s[y]] + s[y + 1..];
  }

  lemma GroupsOfWithout(a: seq<Draft>, y: nat)
    requires y < |a|
    ensures multiset(GroupsOf(a)) == multiset(GroupsOf(Without(a, y))) + multiset{a[y].group}
  {
    WithoutCounts(GroupsOf(a), y);
    assert GroupsOf(Without(a, y)) == Without(GroupsOf(a), y);
  }

  lemma SameWithout<T>(x: multiset<T>, y: multiset<T>, e: T)
    requires x + multiset{e} == y + multiset{e}
    ensures x == y
  {
    forall d ensures x[d] == y[d] {
      assert (x + multiset{e})[d] == (y + multiset{e})[d];
    }
  }

  lemma {:induction false} GroupsOfPermutation(a: seq<Draft>, b: seq<Draft>)
    requires multiset(a) == multiset(b)
    ensures multiset(GroupsOf(a)) == multiset(GroupsOf(b))
    decreases |a|
  {
    SameMembers(a, b);
    if a != [] {
      var y := Counterpart(b, a, 0);
      WithoutCounts(a, 0);
      WithoutCounts(b, y);
      SameWithout(multiset(Without(a, 0)), multiset(Without(b, y)), a[0]);
      GroupsOfPermutation(Without(a, 0), Without(b, y));
      GroupsOfWithout(a, 0);
      GroupsOfWithout(b, y);
    }
  }

  method DraftAll(w: World, records: seq<SourceRecord>, groups: seq<seq<nat>>) returns (drafts: seq<Draft>)
    requires w.Ordered() && IsGrouping(records, groups)
    ensures GroupsOf(drafts) == groups && forall g :: 0 <= g < |drafts| ==> DraftOk(w, records, drafts[g])
  {
    drafts := [];
    for g := 0 to |groups|
      invariant |drafts| == g
      invariant forall h :: 0 <= h < g ==> drafts[h].group == groups[h] && DraftOk(w, records, drafts[h])
    {
      assert forall k :: 0 <= k < |groups[g]| ==> groups[g][k] in groups[g];
      var d := DraftOrganisation(w, records, groups[g]);
      drafts := drafts + [d];
    }
  }

  function PkLess(locale: (string, string) -> bool): (Draft, Draft) -> bool {
    (a: Draft, b: Draft) => locale(a.pk, b.pk)
  }

  lemma PkLessIsWeak(locale: (string, string) -> bool)
    requires StrictTotal(locale)
    ensures StrictWeak(PkLess(locale))
  {
    StrictTotalIsWeak(locale);
    var lt := PkLess(locale);
    forall x ensures !lt(x, x) {
      assert !locale(x.pk, x.pk);
    }
    forall x, y, z | lt(x, y) && lt(y, z) ensures lt(x, z) {
      assert locale(x.pk, y.pk) && locale(y.pk, z.pk) ==> locale(x.pk, z.pk);
    }
    forall x, y, z | lt(x, z) ensures lt(x, y) || lt(y, z) {
      assert locale(x.pk, z.pk) ==> locale(x.pk, y.pk) || locale(y.pk, z.pk);
    }
  }

  function FirstRecord(d: Draft): int {
    if d.group == [] then -1 else d.group[0]
  }

  /** Primary keys ascend, and equal ones stand in the order of the organisations' first records. */
  ghost predicate InKeyOrder(w: World, drafts: seq<Draft>) {
    forall g, h :: 0 <= g < h < |drafts| ==>
      w.locale(drafts[g].pk, drafts[h].pk)
      || (drafts[g].pk == drafts[h].pk && FirstRecord(drafts[g]) < FirstRecord(drafts[h]))
  }

  lemma SortedIsInKeyOrder(w: World, drafts: seq<Draft>)
    requires w.Ordered() && Sorted(PkLess(w.locale), drafts) && Stable(PkLess(w.locale), FirstRecord, drafts)
    ensures InKeyOrder(w, drafts)
  {
    forall g, h | 0 <= g < h < |drafts|
      ensures w.locale(drafts[g].pk, drafts[h].pk)
              || (drafts[g].pk == drafts[h].pk && FirstRecord(drafts[g]) < FirstRecord(drafts[h]))
    {
      assert !PkLess(w.locale)(drafts[h], drafts[g]);
    }
  }

  /** The organisations in primary key order; those with one key stay in the order of their first records. */
  method SortDrafts(w: World, records: seq<SourceRecord>, drafts: seq<Draft>) returns (sorted: seq<Draft>)
    requires w.Ordered() && IsGrouping(records, GroupsOf(drafts)) && FirstsAscend(GroupsOf(drafts))
    requires forall g :: 0 <= g < |drafts| ==> DraftOk(w, records, drafts[g])
    ensures IsGrouping(records, GroupsOf(sorted))
    ensures InKeyOrder(w, sorted)
    ensures forall g :: 0 <= g < |sorted| ==> DraftOk(w, records, sorted[g])
  {
    sorted := SortBy(PkLess(w.locale), drafts);
    PkLessIsWeak(w.locale);
    SortIsSorted(PkLess(w.locale), drafts);
    SortIsPermutation(PkLess(w.locale), drafts);
    FirstRecordsAscend(drafts);
    SortIsStable(PkLess(w.locale), FirstRecord, drafts);
    SortedIsInKeyOrder(w, sorted);
    GroupsOfPermutation(drafts, sorted);
    ReorderedGrouping(records, GroupsOf(drafts), GroupsOf(sorted));
    forall g | 0 <= g < |sorted| ensures DraftOk(w, records, sorted[g]) {
      var h := Counterpart(drafts, sorted, g);
    }
  }

  lemma FirstRecordsAscend(drafts: seq<Draft>)
    requires FirstsAscend(GroupsOf(drafts))
    ensures forall g, h :: 0 <= g < h < |drafts| ==> FirstRecord(drafts[g]) < FirstRecord(drafts[h])
  {
    forall g, h | 0 <= g < h < |drafts| ensures FirstRecord(drafts[g]) < FirstRecord(drafts[h]) {
      assert GroupsOf(drafts)[g][0] < GroupsOf(drafts)[h][0];
    }
  }

  // ---------- the dataset ----------

  function OrgsOf(drafts: seq<Draft>, ids: seq<string>): (orgs: seq<Org>)
    requires |ids| == |drafts|
    ensures |orgs| == |drafts|
    ensures forall g :: 0 <= g < |drafts| ==> orgs[g] == Org(ids[g], drafts[g].candidates, drafts[g].noDomainAsserted)
  {
    seq(|drafts|, g requires 0 <= g < |drafts| => Org(ids[g], drafts[g].candidates, drafts[g].noDomainAsserted))
  }

  function RowsOf(drafts: seq<Draft>, ids: seq<string>): (rows: seq<Row>)
    requires |ids| == |drafts|
    ensures |rows| == |drafts| && forall g :: 0 <= g < |drafts| ==> rows[g] == Row(ids[g], drafts[g].ids - {Uuid})
  {
    seq(|drafts|, g requires 0 <= g < |drafts| => Row(ids[g], drafts[g].ids - {Uuid}))
  }

  datatype Dataset = Dataset(drafts: seq<Draft>, ids: seq<string>, owner: map<string, string>,
                             contest: map<string, seq<string>>, status: seq<Status>, collisions: nat)
  {
    function Orgs(): seq<Org>
      requires |ids| == |drafts|
    {
      OrgsOf(drafts, ids)
    }

    function Rows(): seq<Row>
      requires |ids| == |drafts|
    {
      RowsOf(drafts, ids)
    }
  }

  /** What the build guarantees of its output, whatever its input. */
  ghost predicate DatasetOk(w: World, records: seq<SourceRecord>, d: Dataset)
    requires w.Ordered()
  {
    && |d.ids| == |d.status| == |d.drafts|
    && IsGrouping(records, GroupsOf(d.drafts))
    && InKeyOrder(w, d.drafts)
    && (forall g :: 0 <= g < |d.drafts| ==> DraftOk(w, records, d.drafts[g]))
    && AllAssigned(PksOf(d.drafts), w.hash, d.ids)
    && DistinctIds(d.Orgs()) && DistinctDomains(d.Orgs())
    && OwnersAre(w.locale, d.Orgs(), d.owner) && ContestsAre(d.Orgs(), d.owner, d.contest)
    && (forall g :: 0 <= g < |d.drafts| ==> StatusIs(d.Orgs()[g], d.owner, d.status[g]))
    && d.collisions == 0
  }

  /** Sections 2 and 3: one draft per merged group, in primary key order. */
  method MergeAndDraft(w: World, nodeLess: (Node, Node) -> bool, records: seq<SourceRecord>)
      returns (drafts: seq<Draft>)
    requires w.Ordered()
    ensures IsGrouping(records, GroupsOf(drafts))
    ensures InKeyOrder(w, drafts)
    ensures forall g :: 0 <= g < |drafts| ==> DraftOk(w, records, drafts[g])
  {
    var uf := MergeRecords(records, nodeLess);
    var groups := GroupRecords(records, uf);
    drafts := DraftAll(w, records, groups);
    drafts := SortDrafts(w, records, drafts);
  }

  method BuildDataset(w: World, nodeLess: (Node, Node) -> bool, records: seq<SourceRecord>) returns (d: Dataset)
    requires w.Ordered()
    ensures DatasetOk(w, records, d)
  {
    var drafts := MergeAndDraft(w, nodeLess, records);
    var ids := AssignIds(PksOf(drafts), w.hash);
    OrgsAreDistinct(w, records, drafts, ids);
    var owner, contest := AssignOwners(w.locale, OrgsOf(drafts, ids));
    var status := DecideStatuses(OrgsOf(drafts, ids), owner);
    RowsNeverCollide(w, records, drafts, ids);
    NothingCollides(RowsOf(drafts, ids));
    var collisions := CountCollisions(RowsOf(drafts, ids));
    d := Dataset(drafts, ids, owner, contest, status, collisions);
  }

  lemma NothingCollides(rows: seq<Row>)
    requires forall key :: !Collides(rows, key)
    ensures (set key | key in HeldKeys(rows) && Collides(rows, key)) == {}
  {
  }

  lemma OrgsAreDistinct(w: World, records: seq<SourceRecord>, drafts: seq<Draft>, ids: seq<string>)
    requires w.Ordered() && |ids| == |drafts|
    requires forall g :: 0 <= g < |drafts| ==> DraftOk(w, records, drafts[g])
    requires forall i, j :: 0 <= i < j < |ids| ==> ids[i] != ids[j]
    ensures DistinctIds(OrgsOf(drafts, ids)) && DistinctDomains(OrgsOf(drafts, ids))
  {
    var orgs := OrgsOf(drafts, ids);
    forall g, a, b | 0 <= g < |orgs| && 0 <= a < b < |orgs[g].candidates|
      ensures orgs[g].candidates[a].domain != orgs[g].candidates[b].domain
    {
      assert DraftOk(w, records, drafts[g]);
    }
  }

  /** The emitted row of every organisation publishes the least value per scheme. */
  lemma RowsArePublished(w: World, records: seq<SourceRecord>, drafts: seq<Draft>, ids: seq<string>)
    requires w.Ordered() && |ids| == |drafts| && forall g :: 0 <= g < |drafts| ==> DraftOk(w, records, drafts[g])
    ensures RowsPublished(w.less, records, GroupsOf(drafts), ids, RowsOf(drafts, ids))
  {
    forall g | 0 <= g < |drafts| ensures RowsOf(drafts, ids)[g]
        == PublishedRow(w.less, records, GroupsOf(drafts)[g], ids[g]) {
      assert DraftOk(w, records, drafts[g]);
    }
  }

  lemma RowsNeverCollide(w: World, records: seq<SourceRecord>, drafts: seq<Draft>, ids: seq<string>)
    requires w.Ordered() && |ids| == |drafts| && IsGrouping(records, GroupsOf(drafts))
    requires forall g :: 0 <= g < |drafts| ==> DraftOk(w, records, drafts[g])
    ensures forall key :: !Collides(RowsOf(drafts, ids), key)
  {
    RowsArePublished(w, records, drafts, ids);
    PublishedRowsNeverCollide(w.less, records, GroupsOf(drafts), RowsOf(drafts, ids));
  }

  lemma KeysAreOfGroups(w: World, records: seq<SourceRecord>, d: Dataset)
    requires w.Ordered() && DatasetOk(w, records, d)
    ensures PrimaryKeysOf(w.less, records, GroupsOf(d.drafts), PksOf(d.drafts))
  {
    forall g | 0 <= g < |d.drafts|
      ensures PrimaryKeyOfGroup(Identifiers(w.less, records, GroupsOf(d.drafts)[g]), PksOf(d.drafts)[g])
    {
      var x := d.drafts[g];
      assert DraftOk(w, records, x);
      PrimaryKeyIsOfGroup(x.ids, w.nameOf(RecordsAt(records, x.group)), FirstDomain(x.candidates), w.sha);
    }
  }

  // ---------- guarantees over all organisations ----------

  /** No two organisations of a dataset have the same verified domain. */
  lemma DatasetVerifiesEachDomainOnce(w: World, records: seq<SourceRecord>, d: Dataset, g: nat, h: nat)
    requires w.Ordered() && DatasetOk(w, records, d)
    requires g < |d.status| && h < |d.status| && g != h && d.status[g].Verified? && d.status[h].Verified?
    ensures d.status[g].domain != d.status[h].domain
  {
    VerifiedDomainsAreUnique(d.Orgs(), d.owner, d.status, g, h);
  }

  /** The candidates of every organisation stand by rising priority number, then by domain. */
  lemma CandidatesRise(w: World, records: seq<SourceRecord>, d: Dataset, g: nat, i: nat, j: nat)
    requires w.Ordered() && DatasetOk(w, records, d) && g < |d.drafts| && i < j < |d.drafts[g].candidates|
    ensures var c := d.drafts[g].candidates;
            c[i].priority < c[j].priority || (c[i].priority == c[j].priority && w.locale(c[i].domain, c[j].domain))
  {
    assert DraftOk(w, records, d.drafts[g]);
  }

  /** The domain an organisation is VERIFIED with is one of its authoritative candidates that it owns, and
      every other one of these has a higher priority number, or the same and a later domain. */
  lemma VerifiedWithLowestPriority(w: World, records: seq<SourceRecord>, d: Dataset, g: nat) returns (a: nat)
    requires w.Ordered() && DatasetOk(w, records, d) && g < |d.status| && d.status[g].Verified?
    ensures var c := d.drafts[g].candidates;
            && a < |c| && c[a].authoritative && c[a].domain == d.status[g].domain
            && c[a].domain in d.owner && d.owner[c[a].domain] == d.ids[g]
            && forall b: nat :: b < |c| && b != a && c[b].authoritative && c[b].domain in d.owner
                                && d.owner[c[b].domain] == d.ids[g] ==>
                 c[a].priority < c[b].priority
                 || (c[a].priority == c[b].priority && w.locale(c[a].domain, c[b].domain))
  {
    VerifiedIffBestRanked(w, records, d, g, d.status[g].domain);
    var o := d.Orgs()[g];
    a :| BestOwned(w.locale, o, d.owner, a) && o.candidates[a].domain == d.status[g].domain;
    forall b: nat | b < |o.candidates| && o.candidates[b].authoritative && o.candidates[b].domain in d.owner
                    && d.owner[o.candidates[b].domain] == o.id
      ensures OwnsAuthoritatively(o, d.owner, b)
    {
    }
  }

  /** An organisation is VERIFIED with a domain exactly when that domain is the best-ranked of the
      authoritative candidates it owns. */
  lemma VerifiedIffBestRanked(w: World, records: seq<SourceRecord>, d: Dataset, g: nat, domain: string)
    requires w.Ordered() && DatasetOk(w, records, d) && g < |d.status|
    ensures d.status[g] == Verified(domain) <==> IsBestOwned(w.locale, d.Orgs()[g], d.owner, domain)
  {
    assert DraftOk(w, records, d.drafts[g]);
    StatusIffBestOwned(w.locale, d.Orgs()[g], d.owner, d.status[g], domain);
  }

  /** A domain that some record proposes with an approved priority makes its owner VERIFIED. */
  lemma ApprovedDomainIsVerified(w: World, records: seq<SourceRecord>, d: Dataset, i: nat)
    requires w.Ordered() && DatasetOk(w, records, d) && ApprovedPriorities(records)
    requires i < |records| && records[i].domain.Some? && records[i].domainPriority.Some?
    ensures OwnerIsVerified(d.Orgs(), d.owner, d.status, records[i].domain.value)
  {
    var groups := GroupsOf(d.drafts);
    DatasetIsWellRanked(w, records, d);
    assert InSomeGroup(groups, i);
    var h :| 0 <= h < |groups| && i in groups[h];
    var k: nat :| k < |groups[h]| && groups[h][k] == i;
    var domain := records[i].domain.value;
    assert Proposes(records, d.drafts[h].group, k, domain);
    assert DraftOk(w, records, d.drafts[h]);
    assert HasDomain(d.drafts[h].candidates, domain);
    var b: nat :| b < |d.drafts[h].candidates| && d.drafts[h].candidates[b].domain == domain;
    BestIsWellRanked(records, d.drafts[h].group, d.drafts[h].candidates[b]);
    assert d.Orgs()[h].candidates[b].authoritative;
    AuthoritativeDomainVerifiesItsOwner(w.locale, d.Orgs(), d.owner, d.status, h, b);
  }

  lemma DatasetIsWellRanked(w: World, records: seq<SourceRecord>, d: Dataset)
    requires w.Ordered() && DatasetOk(w, records, d) && ApprovedPriorities(records)
    ensures WellRanked(d.Orgs())
  {
    var orgs := d.Orgs();
    forall g, a | 0 <= g < |orgs| && 0 <= a < |orgs[g].candidates|
      ensures orgs[g].candidates[a].authoritative <==> orgs[g].candidates[a].priority < UNAPPROVED
    {
      assert DraftOk(w, records, d.drafts[g]);
      BestIsWellRanked(records, d.drafts[g].group, orgs[g].candidates[a]);
    }
  }
}
