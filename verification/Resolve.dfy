/** organisation/resolve.js: the identifier index over the published dataset and `resolveIdentity`. */
module Resolve {
  import opened Orders
  import opened Records
  import opened Merge
  import opened Identity
  import opened Organisations
  import opened Normalise

  /** The schemes the live resolver indexes, in the order it consults them. */
  const SUPPLIED: seq<Scheme> := [Cn, Sra, Frn]

  /** A lookup key. A null normal form prints as "null", which no normaliser returns. */
  type Key = (Scheme, Option<string>)

  function KeyFor(s: Scheme, raw: string): Key {
    (s, NormaliseFor(s, Some(raw)))
  }

  ghost predicate RowHasKey(row: Row, key: Key) {
    key.0 in SUPPLIED && key.0 in row.ids && KeyFor(key.0, row.ids[key.0]) == key
  }

  /** The last row that holds the key, as a later `set` overwrites an earlier one. */
  ghost predicate LastHolder(rows: seq<Row>, n: nat, key: Key, a: nat) {
    a < n <= |rows| && RowHasKey(rows[a], key) && forall b :: a < b < n ==> !RowHasKey(rows[b], key)
  }

  ghost predicate IndexedAt(rows: seq<Row>, n: nat, index: map<Key, string>, key: Key)
    requires n <= |rows|
  {
    && (key in index <==> exists a: nat :: a < n && RowHasKey(rows[a], key))
    && (key in index ==> exists a: nat :: LastHolder(rows, n, key, a) && index[key] == rows[a].organisationId)
  }

  ghost predicate IndexIs(rows: seq<Row>, n: nat, index: map<Key, string>)
    requires n <= |rows|
  {
    forall key: Key :: IndexedAt(rows, n, index, key)
  }

  /** The row has overwritten the keys it has under these schemes, and no others. */
  ghost predicate Overwritten(row: Row, schemes: seq<Scheme>, before: map<Key, string>, after: map<Key, string>) {
    forall key: Key ::
      && (key in after <==> key in before || (RowHasKey(row, key) && key.0 in schemes))
      && (key in after ==>
          after[key] == if RowHasKey(row, key) && key.0 in schemes then row.organisationId else before[key])
  }

  lemma OverwriteOne(row: Row, schemes: seq<Scheme>, s: Scheme, before: map<Key, string>, after: map<Key, string>)
    requires Overwritten(row, schemes, before, after) && s in SUPPLIED
    ensures Overwritten(row, schemes + [s], before,
                if s in row.ids then after[KeyFor(s, row.ids[s]) := row.organisationId] else after)
  {
  }

  method IndexRow(row: Row, before: map<Key, string>) returns (after: map<Key, string>)
    ensures forall key: Key :: key in after <==> key in before || RowHasKey(row, key)
    ensures forall key: Key :: key in after ==>
            after[key] == if RowHasKey(row, key) then row.organisationId else before[key]
  {
    after := before;
    for t := 0 to |SUPPLIED|
      invariant Overwritten(row, SUPPLIED[..t], before, after)
    {
      OverwriteOne(row, SUPPLIED[..t], SUPPLIED[t], before, after);
      var s := SUPPLIED[t];
      assert SUPPLIED[..t + 1] == SUPPLIED[..t] + [s];
      if s in row.ids {
        after := after[KeyFor(s, row.ids[s]) := row.organisationId];
      }
    }
    assert SUPPLIED[..|SUPPLIED|] == SUPPLIED;
  }

  lemma IndexGrows(rows: seq<Row>, n: nat, before: map<Key, string>, after: map<Key, string>)
    requires n < |rows| && IndexIs(rows, n, before)
    requires forall key: Key :: key in after <==> key in before || RowHasKey(rows[n], key)
    requires forall key: Key :: key in after ==>
             after[key] == if RowHasKey(rows[n], key) then rows[n].organisationId else before[key]
    ensures IndexIs(rows, n + 1, after)
  {
    var m := n + 1;
    forall key: Key ensures IndexedAt(rows, m, after, key) {
      assert IndexedAt(rows, n, before, key);
      IndexGrowsAt(rows, n, before, after, key);
    }
  }

  lemma IndexGrowsAt(rows: seq<Row>, n: nat, before: map<Key, string>, after: map<Key, string>, key: Key)
    requires n < |rows| && IndexedAt(rows, n, before, key)
    requires key in after <==> key in before || RowHasKey(rows[n], key)
    requires key in after ==> after[key] == if RowHasKey(rows[n], key) then rows[n].organisationId else before[key]
    ensures IndexedAt(rows, n + 1, after, key)
  {
    if RowHasKey(rows[n], key) {
      assert LastHolder(rows, n + 1, key, n);
    } else {
      HoldersStay(rows, n, before, key);
    }
  }

  lemma HoldersStay(rows: seq<Row>, n: nat, index: map<Key, string>, key: Key)
    requires n < |rows| && IndexedAt(rows, n, index, key) && !RowHasKey(rows[n], key)
    ensures IndexedAt(rows, n + 1, index, key)
  {
    if key in index {
      var a: nat :| LastHolder(rows, n, key, a) && index[key] == rows[a].organisationId;
      LastHolderStays(rows, n, key, a);
    } else {
      NoHolderStays(rows, n, key);
    }
  }

  lemma LastHolderStays(rows: seq<Row>, n: nat, key: Key, a: nat)
    requires n < |rows| && LastHolder(rows, n, key, a) && !RowHasKey(rows[n], key)
    ensures LastHolder(rows, n + 1, key, a)
  {
  }

  lemma NoHolderStays(rows: seq<Row>, n: nat, key: Key)
    requires n < |rows| && !RowHasKey(rows[n], key) && !exists a: nat :: a < n && RowHasKey(rows[a], key)
    ensures !exists a: nat :: a < n + 1 && RowHasKey(rows[a], key)
  {
  }

  /** Some organisation of the dataset has the id. */
  ghost predicate HasRow(rows: seq<Row>, id: string) {
    exists a :: 0 <= a < |rows| && rows[a].organisationId == id
  }

  method LoadAuthority(rows: seq<Row>) returns (byIdentifier: map<Key, string>, byId: map<string, Row>)
    ensures IndexIs(rows, |rows|, byIdentifier)
    ensures forall id :: id in byId <==> HasRow(rows, id)
  {
    byIdentifier, byId := map[], map[];
    for n := 0 to |rows|
      invariant IndexIs(rows, n, byIdentifier)
      invariant forall id :: id in byId <==> exists a :: 0 <= a < n && rows[a].organisationId == id
    {
      byId := byId[rows[n].organisationId := rows[n]];
      var next := IndexRow(rows[n], byIdentifier);
      IndexGrows(rows, n, byIdentifier, next);
      byIdentifier := next;
    }
  }

  // ---------- the index agrees with a linear scan ----------

  /** Published values are results of the normalisers. */
  ghost predicate Normalised(rows: seq<Row>) {
    forall a, s :: 0 <= a < |rows| && s in SUPPLIED && s in rows[a].ids ==>
      exists raw :: NormaliseFor(s, raw) == Some(rows[a].ids[s])
  }

  lemma KeyOfNormalised(rows: seq<Row>, a: nat, s: Scheme)
    requires Normalised(rows) && a < |rows| && s in SUPPLIED && s in rows[a].ids
    ensures KeyFor(s, rows[a].ids[s]) == (s, Some(rows[a].ids[s]))
  {
    var raw :| NormaliseFor(s, raw) == Some(rows[a].ids[s]);
    NormaliseForIsIdempotent(s, raw, rows[a].ids[s]);
  }

  /** Without collisions, last-write-wins finds exactly the organisation of any row with the key. */
  lemma IndexAgreesWithScan(rows: seq<Row>, index: map<Key, string>, a: nat, key: Key)
    requires Normalised(rows) && IndexIs(rows, |rows|, index) && a < |rows| && RowHasKey(rows[a], key)
    requires forall k :: !Collides(rows, k)
    ensures key in index && index[key] == rows[a].organisationId
  {
    assert IndexedAt(rows, |rows|, index, key);
    var b: nat :| LastHolder(rows, |rows|, key, b) && index[key] == rows[b].organisationId;
    var s := key.0;
    KeyOfNormalised(rows, a, s);
    KeyOfNormalised(rows, b, s);
    EverySchemeIsListed(s);
    assert Holds(rows[a], (s, rows[a].ids[s])) && Holds(rows[b], (s, rows[a].ids[s]));
    assert !Collides(rows, (s, rows[a].ids[s]));
  }

  // ---------- resolveIdentity ----------

  /** The raw identifiers of a request; absent and empty ones are not supplied. */
  datatype Request = Request(ids: map<Scheme, string>, name: string, domain: string)

  datatype Resolution = Found(id: string) | New(id: string) | Conflict(ids: set<string>)

  predicate Supplies(r: Request, s: Scheme) {
    (s == Cn || s == Sra || s == Frn) && s in r.ids && r.ids[s] != ""
  }

  lemma OnlyThreeAreSupplied(s: Scheme)
    ensures s in SUPPLIED <==> s == Cn || s == Sra || s == Frn
  {
    assert SUPPLIED[0] == Cn && SUPPLIED[1] == Sra && SUPPLIED[2] == Frn;
  }

  /** The organisations that the supplied identifiers match. */
  ghost function Matched(r: Request, index: map<Key, string>): set<string> {
    set s | s in SUPPLIED && Supplies(r, s) && KeyFor(s, r.ids[s]) in index :: index[KeyFor(s, r.ids[s])]
  }

  function NormalisedFacts(r: Request): map<Scheme, string> {
    map s | s in SUPPLIED && s in r.ids && NormaliseFor(s, Some(r.ids[s])).Some? ::
        NormaliseFor(s, Some(r.ids[s])).value
  }

  function ComputedId(r: Request, sha: string -> string, hash: string -> string): string {
    BaseId(PrimaryKey(NormalisedFacts(r), r.name, r.domain, sha), hash)
  }

  /** The loop over the supplied identifiers. */
  method MatchSupplied(r: Request, index: map<Key, string>) returns (matched: set<string>)
    ensures matched == Matched(r, index)
  {
    matched := {};
    for t := 0 to |SUPPLIED|
      invariant matched == set s | s in SUPPLIED[..t] && Supplies(r, s) && KeyFor(s, r.ids[s]) in index ::
                index[KeyFor(s, r.ids[s])]
    {
      var s := SUPPLIED[t];
      assert SUPPLIED[..t + 1] == SUPPLIED[..t] + [s];
      if Supplies(r, s) && KeyFor(s, r.ids[s]) in index {
        matched := matched + {index[KeyFor(s, r.ids[s])]};
      }
    }
    assert SUPPLIED[..|SUPPLIED|] == SUPPLIED;
  }

  method ResolveIdentity(r: Request, index: map<Key, string>, known: set<string>, sha: string -> string,
                         hash: string -> string)
      returns (res: Resolution)
    ensures |Matched(r, index)| > 1 ==> res == Conflict(Matched(r, index))
    ensures |Matched(r, index)| == 1 ==> res.Found? && Matched(r, index) == {res.id}
    ensures Matched(r, index) == {} ==>
              res == if ComputedId(r, sha, hash) in known then Found(ComputedId(r, sha, hash))
                  else New(ComputedId(r, sha, hash))
  {
    var matched := MatchSupplied(r, index);
    if |matched| > 1 {
      return Conflict(matched);
    }
    if matched != {} {
      var id :| id in matched;
      OnlyMember(matched, id);
      return Found(id);
    }
    var computed := ComputedId(r, sha, hash);
    res := if computed in known then Found(computed) else New(computed);
  }

  lemma OnlyMember(s: set<string>, x: string)
    requires x in s && |s| <= 1
    ensures s == {x}
  {
    SubsetIsSmaller({x}, s);
    if y :| y in s && y != x {
      SubsetIsSmaller({x, y}, s);
    }
  }

  /** What a request finds, in terms of the rows: the organisations that publish an identifier with
      the same normal form as one that is supplied. */
  ghost predicate Names(rows: seq<Row>, r: Request, id: string) {
    exists a: nat, s :: a < |rows| && rows[a].organisationId == id && Supplies(r, s) && s in rows[a].ids
                        && NormaliseFor(s, Some(r.ids[s])) == Some(rows[a].ids[s])
  }

  lemma MatchIsNamed(rows: seq<Row>, index: map<Key, string>, r: Request, s: Scheme)
    requires Normalised(rows) && IndexIs(rows, |rows|, index)
    requires Supplies(r, s) && KeyFor(s, r.ids[s]) in index
    ensures Names(rows, r, index[KeyFor(s, r.ids[s])])
  {
    var key := KeyFor(s, r.ids[s]);
    assert IndexedAt(rows, |rows|, index, key);
    var a: nat :| LastHolder(rows, |rows|, key, a) && index[key] == rows[a].organisationId;
    KeyOfNormalised(rows, a, s);
  }

  lemma NamedIsMatched(rows: seq<Row>, index: map<Key, string>, r: Request, a: nat, s: Scheme)
    requires Normalised(rows) && IndexIs(rows, |rows|, index) && forall k :: !Collides(rows, k)
    requires a < |rows| && Supplies(r, s) && s in rows[a].ids && NormaliseFor(s, Some(r.ids[s])) == Some(rows[a].ids[s])
    ensures KeyFor(s, r.ids[s]) in index && index[KeyFor(s, r.ids[s])] == rows[a].organisationId
  {
    KeyOfNormalised(rows, a, s);
    IndexAgreesWithScan(rows, index, a, KeyFor(s, r.ids[s]));
  }

  lemma MatchedAreNamed(rows: seq<Row>, index: map<Key, string>, r: Request, id: string)
    requires Normalised(rows) && IndexIs(rows, |rows|, index) && forall k :: !Collides(rows, k)
    ensures id in Matched(r, index) <==> Names(rows, r, id)
  {
    if id in Matched(r, index) {
      var s :| s in SUPPLIED && Supplies(r, s) && KeyFor(s, r.ids[s]) in index && index[KeyFor(s, r.ids[s])] == id;
      MatchIsNamed(rows, index, r, s);
    }
    if Names(rows, r, id) {
      var a: nat, s :| a < |rows| && rows[a].organisationId == id && Supplies(r, s) && s in rows[a].ids
                       && NormaliseFor(s, Some(r.ids[s])) == Some(rows[a].ids[s]);
      NamedIsMatched(rows, index, r, a, s);
    }
  }

  /** The identifier supplied for a scheme denotes the number that the row publishes under it. */
  ghost predicate DenotesPublished(r: Request, s: Scheme, row: Row) {
    && s in r.ids && s in row.ids && NumberIn(r.ids[s]) == NumberIn(row.ids[s])
    && (s == Cn ==> ShortNumber(r.ids[s]) && ShortNumber(row.ids[s]))
    && (s == Sra || s == Frn ==> HasDigit(r.ids[s]))
    && (s == Cn || s == Sra || s == Frn)
  }

  lemma DigitsAreSupplied(r: Request, s: Scheme, row: Row)
    requires DenotesPublished(r, s, row)
    ensures Supplies(r, s)
  {
  }

  /** A number names the organisation that publishes it, however it is written: with or without leading
      zeros and, for SRA numbers and FRNs, with other characters around the digits. */
  lemma NumberIsNamedIff(rows: seq<Row>, r: Request, a: nat, s: Scheme)
    requires Normalised(rows) && a < |rows| && Supplies(r, s) && s in rows[a].ids
    requires s == Cn ==> ShortNumber(r.ids[s]) && ShortNumber(rows[a].ids[s])
    ensures NormaliseFor(s, Some(r.ids[s])) == Some(rows[a].ids[s]) <==> DenotesPublished(r, s, rows[a])
    ensures DenotesPublished(r, s, rows[a]) ==> Names(rows, r, rows[a].organisationId)
  {
    OnlyThreeAreSupplied(s);
    KeyOfNormalised(rows, a, s);
    var raw, v := r.ids[s], rows[a].ids[s];
    if s == Cn {
      CompanyNumbersAgreeIff(raw, v);
    } else {
      NumericIdsAgreeIff(raw, v);
      NumericIdsAgreeIff(v, raw);
    }
  }

  /** Resolution over a published dataset: a request that names one organisation finds it, one that
      names two always conflicts, and one that names none is answered with its computed id, which is
      new exactly when no organisation has it. */
  method ResolveOverDataset(rows: seq<Row>, r: Request, sha: string -> string, hash: string -> string)
      returns (res: Resolution)
    requires Normalised(rows) && forall k :: !Collides(rows, k)
    ensures res.Conflict? <==> exists x, y :: x != y && Names(rows, r, x) && Names(rows, r, y)
    ensures res.Conflict? ==> forall x :: x in res.ids <==> Names(rows, r, x)
    ensures forall x :: Names(rows, r, x) && !res.Conflict? ==> res == Found(x)
    ensures forall a: nat, s :: a < |rows| && DenotesPublished(r, s, rows[a]) && !res.Conflict? ==>
            res == Found(rows[a].organisationId)
    ensures res.New? ==> !HasRow(rows, res.id) && res.id == ComputedId(r, sha, hash)
    ensures res.Found? ==> HasRow(rows, res.id) && (Names(rows, r, res.id) || res.id == ComputedId(r, sha, hash))
    ensures (forall x :: !Names(rows, r, x)) ==>
              res == if HasRow(rows, ComputedId(r, sha, hash)) then Found(ComputedId(r, sha, hash))
                  else New(ComputedId(r, sha, hash))
  {
    var index, byId := LoadAuthority(rows);
    res := ResolveIdentity(r, index, byId.Keys, sha, hash);
    forall x ensures x in Matched(r, index) <==> Names(rows, r, x) {
      MatchedAreNamed(rows, index, r, x);
    }
    TwoMembers(Matched(r, index));
    forall a: nat, s | a < |rows| && DenotesPublished(r, s, rows[a])
      ensures Names(rows, r, rows[a].organisationId)
    {
      DigitsAreSupplied(r, s, rows[a]);
      NumberIsNamedIff(rows, r, a, s);
    }
    assert Matched(r, index) == {} || |Matched(r, index)| >= 1;
    if x :| x in Matched(r, index) {
      assert Names(rows, r, x);
    }
  }

  // ---------- identifiers that are carried but not published ----------

  function NormalOf(r: Request, s: Scheme): Option<string>
    requires Supplies(r, s)
  {
    NormaliseFor(s, Some(r.ids[s]))
  }

  /** Records of the group carry the supplied identifier. */
  ghost predicate CarriesSupplied(records: seq<SourceRecord>, group: seq<nat>, r: Request, s: Scheme)
    requires Supplies(r, s)
  {
    NormalOf(r, s).Some? && NormalOf(r, s).value in Values(records, group, s)
  }

  /** The group publishes the supplied identifier: it is the least of its values. */
  ghost predicate PublishesSupplied(less: (string, string) -> bool, records: seq<SourceRecord>, group: seq<nat>,
                                    r: Request, s: Scheme)
    requires StrictTotal(less) && Supplies(r, s)
  {
    CarriesSupplied(records, group, r, s) && Least(less, Values(records, group, s)) == NormalOf(r, s).value
  }

  /** A request with at least one identifier, all of which the group carries. */
  ghost predicate CarriedBy(records: seq<SourceRecord>, group: seq<nat>, r: Request) {
    && (exists s :: Supplies(r, s))
    && forall s :: Supplies(r, s) ==> CarriesSupplied(records, group, r, s)
  }

  ghost predicate SomePublished(less: (string, string) -> bool, records: seq<SourceRecord>, group: seq<nat>, r: Request)
    requires StrictTotal(less)
  {
    exists s :: Supplies(r, s) && PublishesSupplied(less, records, group, r, s)
  }

  /** The primary key computed for a request. */
  function RequestKey(r: Request, sha: string -> string): string {
    PrimaryKey(NormalisedFacts(r), r.name, r.domain, sha)
  }

  lemma FactIsSupplied(r: Request, s: Scheme)
    ensures s in NormalisedFacts(r) <==> Supplies(r, s) && NormalOf(r, s).Some?
    ensures s in NormalisedFacts(r) ==> NormalisedFacts(r)[s] == NormalOf(r, s).value
  {
    OnlyThreeAreSupplied(s);
    NormalFormIsNotOfEmpty(s);
  }

  /** The computed key in full: company number, FRN, SRA number, or the hash of name and domain. */
  lemma RequestKeyIs(r: Request, sha: string -> string)
    ensures RequestKey(r, sha) ==
            if Cn in r.ids && CompanyNumber(Some(r.ids[Cn])).Some? then
              "cn:" + CompanyNumber(Some(r.ids[Cn])).value
            else if Frn in r.ids && NumericId(Some(r.ids[Frn])).Some? then
              "frn:" + NumericId(Some(r.ids[Frn])).value
            else if Sra in r.ids && NumericId(Some(r.ids[Sra])).Some? then
              "sra:" + NumericId(Some(r.ids[Sra])).value
            else "nd:" + sha(r.name + "|" + r.domain)
  {
    forall s: Scheme ensures s in NormalisedFacts(r) <==> Supplies(r, s) && NormalOf(r, s).Some? {
      FactIsSupplied(r, s);
    }
    forall s: Scheme ensures NormaliseFor(s, Some("")).None? {
      NormalFormIsNotOfEmpty(s);
    }
    PrimaryKeyIs(NormalisedFacts(r), r.name, r.domain, sha);
  }

  /** The key of a carried request is that of one of its identifiers. */
  lemma CarriedKey(records: seq<SourceRecord>, group: seq<nat>, r: Request, sha: string -> string) returns (t: Scheme)
    requires CarriedBy(records, group, r)
    ensures Supplies(r, t) && NormalOf(r, t).Some? && RequestKey(r, sha) == KeyOf(t, NormalOf(r, t).value)
  {
    var facts := NormalisedFacts(r);
    var s :| Supplies(r, s);
    assert CarriesSupplied(records, group, r, s);
    FactIsSupplied(r, s);
    EverySchemeIsListed(s);
    StrongestIsCarried(facts, SCHEMES);
    t := Strongest(facts, SCHEMES).value;
    FactIsSupplied(r, t);
  }

  /** A key that no organisation uses and that hashes apart from all of theirs gives an unused id. */
  lemma FreshKeyFreshId(pks: seq<string>, hash: string -> string, ids: seq<string>, pk: string, h: nat)
    requires AllAssigned(pks, hash, ids) && HashSeparates(hash, pks + [pk]) && h < |ids| && pk !in pks
    ensures ids[h] != BaseId(pk, hash)
  {
    assert IdAssigned(pks, hash, ids, h);
    var all := pks + [pk];
    assert all[h] == pks[h] && all[|pks|] == pk;
    assert hash(pks[h]) != hash(pk) && |hash(pks[h])| == |hash(pk)|;
    var base := BaseId(pks[h], hash);
    assert base[4..] == hash(pks[h]) && BaseId(pk, hash)[4..] == hash(pk);
  }

  lemma UnpublishedKeyIsFresh(less: (string, string) -> bool, records: seq<SourceRecord>, groups: seq<seq<nat>>,
                              pks: seq<string>,
                              g: nat, h: nat, s: Scheme, v: string)
    requires StrictTotal(less) && IsGrouping(records, groups) && PrimaryKeysOf(less, records, groups, pks)
    requires g < |groups| && h < |groups| && v in Values(records, groups[g], s)
    requires Least(less, Values(records, groups[g], s)) != v
    ensures pks[h] != KeyOf(s, v)
  {
    var ids := Identifiers(less, records, groups[h]);
    assert PrimaryKeyOfGroup(ids, pks[h]);
    StrongestIsCarried(ids, SCHEMES);
    match Strongest(ids, SCHEMES)
    case Some(t) =>
      if pks[h] == KeyOf(s, v) {
        KeyIsInjective(t, ids[t], s, v);
        GroupsShareNoValue(records, groups, g, h, s, v);
        assert false;
      }
    case None =>
      var w: string :| pks[h] == "nd:" + w;
      KeylessIsNotStrong(s, v, w);
  }

  /** A row that shows why the request names the organisation. */
  lemma NamingRow(rows: seq<Row>, r: Request, id: string) returns (a: nat, s: Scheme)
    requires Names(rows, r, id)
    ensures a < |rows| && rows[a].organisationId == id && Supplies(r, s)
    ensures s in rows[a].ids && NormalOf(r, s) == Some(rows[a].ids[s])
  {
    a, s :| a < |rows| && rows[a].organisationId == id && Supplies(r, s) && s in rows[a].ids
            && NormaliseFor(s, Some(r.ids[s])) == Some(rows[a].ids[s]);
  }

  lemma NamedOnlyByPublisher(less: (string, string) -> bool, records: seq<SourceRecord>, groups: seq<seq<nat>>,
                             ids: seq<string>, rows: seq<Row>, g: nat, r: Request, id: string)
    requires StrictTotal(less) && IsGrouping(records, groups) && RowsPublished(less, records, groups, ids, rows)
    requires g < |groups| && CarriedBy(records, groups[g], r) && Names(rows, r, id)
    ensures id == ids[g] && SomePublished(less, records, groups[g], r)
  {
    var a, s := NamingRow(rows, r, id);
    assert CarriesSupplied(records, groups[g], r, s);
    PublishedIsValue(less, records, groups[a], ids[a], s);
    GroupsShareNoValue(records, groups, a, g, s, rows[a].ids[s]);
    assert PublishesSupplied(less, records, groups[g], r, s);
  }

  lemma PublisherIsNamed(less: (string, string) -> bool, records: seq<SourceRecord>, groups: seq<seq<nat>>,
                         ids: seq<string>, rows: seq<Row>, g: nat, r: Request)
    requires StrictTotal(less) && RowsPublished(less, records, groups, ids, rows)
    requires g < |groups| && SomePublished(less, records, groups[g], r)
    ensures Names(rows, r, ids[g])
  {
    var s :| Supplies(r, s) && PublishesSupplied(less, records, groups[g], r, s);
    EverySchemeIsListed(s);
    assert rows[g].ids[s] == NormalOf(r, s).value;
  }

  /** A group may carry several values of one scheme but publishes the least. A request all of whose
      identifiers the group carries names its organisation exactly when one of them is published, and
      never names another. */
  lemma CarriedIsNamedIffPublished(less: (string, string) -> bool, records: seq<SourceRecord>, groups: seq<seq<nat>>,
                                   ids: seq<string>, rows: seq<Row>, g: nat, r: Request)
    requires StrictTotal(less) && IsGrouping(records, groups) && RowsPublished(less, records, groups, ids, rows)
    requires g < |groups| && CarriedBy(records, groups[g], r)
    ensures forall id :: Names(rows, r, id) <==> id == ids[g] && SomePublished(less, records, groups[g], r)
  {
    if SomePublished(less, records, groups[g], r) {
      PublisherIsNamed(less, records, groups, ids, rows, g, r);
    }
    forall id | Names(rows, r, id) ensures id == ids[g] && SomePublished(less, records, groups[g], r) {
      NamedOnlyByPublisher(less, records, groups, ids, rows, g, r, id);
    }
  }

  lemma UnpublishedComputesFreshId(less: (string, string) -> bool, records: seq<SourceRecord>, groups: seq<seq<nat>>,
                                   pks: seq<string>, sha: string -> string, hash: string -> string,
                                   ids: seq<string>, g: nat, r: Request)
    requires StrictTotal(less) && IsGrouping(records, groups) && PrimaryKeysOf(less, records, groups, pks)
    requires AllAssigned(pks, hash, ids) && HashSeparates(hash, pks + [RequestKey(r, sha)])
    requires g < |groups| && CarriedBy(records, groups[g], r) && !SomePublished(less, records, groups[g], r)
    ensures ComputedId(r, sha, hash) !in ids
  {
    var t := CarriedKey(records, groups[g], r, sha);
    var v := NormalOf(r, t).value;
    assert CarriesSupplied(records, groups[g], r, t) && !PublishesSupplied(less, records, groups[g], r, t);
    forall h | 0 <= h < |pks| ensures pks[h] != KeyOf(t, v) {
      UnpublishedKeyIsFresh(less, records, groups, pks, g, h, t, v);
    }
    forall h | 0 <= h < |ids| ensures ids[h] != BaseId(KeyOf(t, v), hash) {
      FreshKeyFreshId(pks, hash, ids, KeyOf(t, v), h);
    }
  }
}
