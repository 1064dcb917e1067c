/** Organisations without a strong identifier: each is a single record, and their ids are told apart by
    the suffixes of authority/build.js, section 4. */
module Keyless {
  import opened Records
  import opened Merge
  import opened Identity
  import opened Organisations
  import opened Domains
  import opened Build

  /** The primary key that a record without a strong identifier gives its organisation. */
  function KeylessKey(w: World, r: SourceRecord): string {
    "nd:" + w.sha(w.nameOf([r]) + "|" + if r.domain.Some? then r.domain.value else "")
  }

  lemma NoIdentifierNoLink(records: seq<SourceRecord>, i: nat, j: nat)
    requires i < |records| && records[i].ids == map[] && SameOrganisation(records, i, j)
    ensures i == j
  {
    var c :| IsChain(records, c) && c[0] == i && c[|c| - 1] == j;
    assert |c| > 1 ==> Shares(records, c[0], c[0 + 1]);
  }

  /** A record without a strong identifier is an organisation of its own. */
  lemma KeylessStandsAlone(records: seq<SourceRecord>, groups: seq<seq<nat>>, g: nat, i: nat)
    requires IsGrouping(records, groups) && g < |groups| && i in groups[g] && i < |records| && records[i].ids == map[]
    ensures groups[g] == [i]
  {
    forall j | j in groups[g] ensures j == i {
      assert SameOrganisation(records, i, j);
      NoIdentifierNoLink(records, i, j);
    }
    forall k | 0 <= k < |groups[g]| ensures groups[g][k] == i {
      assert groups[g][k] in groups[g];
    }
    OneMember(groups[g], i);
  }

  lemma OneMember(group: seq<nat>, i: nat)
    requires group != [] && Ascending(group) && forall k :: 0 <= k < |group| ==> group[k] == i
    ensures group == [i]
  {
    if |group| > 1 { FirstTwoDiffer(group); }
  }

  lemma FirstTwoDiffer(group: seq<nat>)
    requires Ascending(group) && |group| > 1
    ensures group[0] != group[1]
  {
  }

  /** An organisation without identifiers consists of one record without identifiers. */
  lemma KeylessIsOneRecord(w: World, records: seq<SourceRecord>, groups: seq<seq<nat>>, g: nat) returns (i: nat)
    requires w.Ordered() && IsGrouping(records, groups) && g < |groups|
             && Identifiers(w.less, records, groups[g]) == map[]
    ensures groups[g] == [i] && i < |records| && records[i].ids == map[]
  {
    i := groups[g][0];
    assert i in groups[g];
    RecordIsAnchored(w.less, records, groups[g], i);
    KeylessStandsAlone(records, groups, g, i);
  }

  lemma OneRecordHasNoIdentifier(w: World, records: seq<SourceRecord>, i: nat)
    requires w.Ordered() && i < |records| && records[i].ids == map[]
    ensures Identifiers(w.less, records, [i]) == map[]
  {
    forall s: Scheme ensures Values(records, [i], s) == {} {
    }
    assert Identifiers(w.less, records, [i]).Keys == {};
  }

  lemma OneCandidate(records: seq<SourceRecord>, i: nat, cands: seq<Candidate>)
    requires i < |records| && CandidatesAre(records, [i], cands)
    ensures FirstDomain(cands) == if records[i].domain.Some? then records[i].domain.value else ""
    ensures forall a :: 0 <= a < |cands| ==> cands[a].domain == FirstDomain(cands)
  {
    forall a | 0 <= a < |cands| ensures records[i].domain == Some(cands[a].domain) {
      assert IsBest(records, [i], 1, cands[a]);
    }
    if records[i].domain.Some? {
      assert Proposes(records, [i], 0, records[i].domain.value);
      assert HasDomain(cands, records[i].domain.value);
    }
  }

  lemma RecordsAtOne(records: seq<SourceRecord>, i: nat)
    requires i < |records|
    ensures RecordsAt(records, [i]) == [records[i]]
  {
    assert [i][..0] == [];
  }

  lemma KeylessDraft(w: World, records: seq<SourceRecord>, d: Draft, i: nat)
    requires w.Ordered() && DraftOk(w, records, d) && d.group == [i] && i < |records| && records[i].ids == map[]
    ensures d.ids == map[] && d.pk == KeylessKey(w, records[i])
    ensures forall a :: 0 <= a < |d.candidates| ==> d.candidates[a].domain == FirstDomain(d.candidates)
  {
    OneRecordHasNoIdentifier(w, records, i);
    OneCandidate(records, i, d.candidates);
    RecordsAtOne(records, i);
    StrongestIsCarried(map[], SCHEMES);
  }

  // ---------- who gets the unsuffixed id ----------

  /** No earlier record without identifiers has the key of record `i`. */
  ghost predicate FirstOfItsKey(w: World, records: seq<SourceRecord>, i: nat)
    requires i < |records|
  {
    forall j :: 0 <= j < i && records[j].ids == map[] ==> KeylessKey(w, records[j]) != KeylessKey(w, records[i])
  }

  /** Organisations with one primary key stand in the order of their first records. */
  lemma SameKeyInOrder(w: World, records: seq<SourceRecord>, d: Dataset, x: nat, y: nat)
    requires w.Ordered() && DatasetOk(w, records, d) && x < |d.drafts| && y < |d.drafts|
             && d.drafts[x].pk == d.drafts[y].pk
    ensures x < y ==> FirstRecord(d.drafts[x]) < FirstRecord(d.drafts[y])
  {
    assert !w.locale(d.drafts[x].pk, d.drafts[y].pk);
  }

  /** An organisation that shares its key with a keyless one is keyless too. */
  lemma SharedKeyIsKeyless(w: World, records: seq<SourceRecord>, d: Dataset, x: nat, y: nat)
    requires w.Ordered() && DatasetOk(w, records, d) && x < |d.drafts| && y < |d.drafts| && x != y
    requires d.drafts[x].pk == d.drafts[y].pk
    ensures Identifiers(w.less, records, d.drafts[y].group) == map[]
  {
    KeysAreOfGroups(w, records, d);
    if Identifiers(w.less, records, GroupsOf(d.drafts)[y]) != map[] {
      StrongKeyIsUnique(w.less, records, GroupsOf(d.drafts), PksOf(d.drafts), y, x);
    }
  }

  /** The keyless organisation of record `i` stands before every other one with its key exactly when
      record `i` is the first of its key. */
  lemma FirstInKeyOrder(w: World, records: seq<SourceRecord>, d: Dataset, x: nat, i: nat)
    requires w.Ordered() && DatasetOk(w, records, d)
    requires x < |d.drafts| && i in d.drafts[x].group && i < |records| && records[i].ids == map[]
    ensures d.drafts[x].pk !in PksOf(d.drafts)[..x] <==> FirstOfItsKey(w, records, i)
  {
    var groups := GroupsOf(d.drafts);
    KeylessStandsAlone(records, groups, x, i);
    assert DraftOk(w, records, d.drafts[x]);
    KeylessDraft(w, records, d.drafts[x], i);
    if d.drafts[x].pk in PksOf(d.drafts)[..x] {
      EarlierKeyEarlierRecord(w, records, d, x, i);
    }
    if !FirstOfItsKey(w, records, i) {
      EarlierRecordEarlierKey(w, records, d, x, i);
    }
  }

  lemma NotFirst(w: World, records: seq<SourceRecord>, i: nat, j: nat)
    requires j < i < |records| && records[j].ids == map[]
    requires KeylessKey(w, records[j]) == KeylessKey(w, records[i])
    ensures !FirstOfItsKey(w, records, i)
  {
  }

  lemma EarlierKeyEarlierRecord(w: World, records: seq<SourceRecord>, d: Dataset, x: nat, i: nat)
    requires w.Ordered() && DatasetOk(w, records, d) && x < |d.drafts| && d.drafts[x].group == [i] && i < |records|
    requires d.drafts[x].pk == KeylessKey(w, records[i]) && d.drafts[x].pk in PksOf(d.drafts)[..x]
    ensures !FirstOfItsKey(w, records, i)
  {
    var y :| 0 <= y < x && PksOf(d.drafts)[..x][y] == d.drafts[x].pk;
    var j := SharedKeyRecord(w, records, d, x, y);
    SameKeyInOrder(w, records, d, y, x);
    NotFirst(w, records, i, j);
  }

  lemma EarlierRecordEarlierKey(w: World, records: seq<SourceRecord>, d: Dataset, x: nat, i: nat)
    requires w.Ordered() && DatasetOk(w, records, d) && x < |d.drafts| && d.drafts[x].group == [i] && i < |records|
    requires d.drafts[x].pk == KeylessKey(w, records[i]) && !FirstOfItsKey(w, records, i)
    ensures d.drafts[x].pk in PksOf(d.drafts)[..x]
  {
    var j: nat :| j < i && records[j].ids == map[] && KeylessKey(w, records[j]) == KeylessKey(w, records[i]);
    var y := KeylessOrganisation(w, records, d, j);
    SameKeyInOrder(w, records, d, x, y);
    assert x != y;
    assert PksOf(d.drafts)[..x][y] == d.drafts[x].pk;
  }

  lemma SharedKeyRecord(w: World, records: seq<SourceRecord>, d: Dataset, x: nat, y: nat) returns (j: nat)
    requires w.Ordered() && DatasetOk(w, records, d) && x < |d.drafts| && y < |d.drafts| && x != y
    requires d.drafts[x].pk == d.drafts[y].pk
    ensures d.drafts[y].group == [j] && j < |records| && records[j].ids == map[]
            && KeylessKey(w, records[j]) == d.drafts[y].pk
  {
    SharedKeyIsKeyless(w, records, d, x, y);
    j := KeylessIsOneRecord(w, records, GroupsOf(d.drafts), y);
    assert DraftOk(w, records, d.drafts[y]);
    KeylessDraft(w, records, d.drafts[y], j);
  }

  lemma KeylessOrganisation(w: World, records: seq<SourceRecord>, d: Dataset, j: nat) returns (y: nat)
    requires w.Ordered() && DatasetOk(w, records, d) && j < |records| && records[j].ids == map[]
    ensures y < |d.drafts| && d.drafts[y].group == [j] && d.drafts[y].pk == KeylessKey(w, records[j])
  {
    var groups := GroupsOf(d.drafts);
    assert InSomeGroup(groups, j);
    y :| 0 <= y < |groups| && j in groups[y];
    KeylessStandsAlone(records, groups, y, j);
    assert DraftOk(w, records, d.drafts[y]);
    KeylessDraft(w, records, d.drafts[y], j);
  }

  /** A keyless organisation has the unsuffixed id exactly when its record is the first, in source order,
      of those without identifiers that have its name and domain. */
  lemma KeylessIdIffFirst(w: World, records: seq<SourceRecord>, d: Dataset, x: nat, i: nat)
    requires w.Ordered() && DatasetOk(w, records, d) && HashSeparates(w.hash, PksOf(d.drafts))
    requires x < |d.drafts| && i in d.drafts[x].group && i < |records| && records[i].ids == map[]
    ensures d.ids[x] == BaseId(KeylessKey(w, records[i]), w.hash) <==> FirstOfItsKey(w, records, i)
  {
    FirstInKeyOrder(w, records, d, x, i);
    KeylessStandsAlone(records, GroupsOf(d.drafts), x, i);
    assert DraftOk(w, records, d.drafts[x]);
    KeylessDraft(w, records, d.drafts[x], i);
    BaseIdIffFirst(PksOf(d.drafts), w.hash, d.ids, x);
  }
}
