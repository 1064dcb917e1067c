/** Section 3 of authority/build.js (the identifiers of an organisation), the collision count of
    authority/integrity-report.js, and the order stability of anchored ids. */
module Organisations {
  import opened Orders
  import opened Records
  import opened Merge
  import opened Identity

  // ---------- the identifiers of one group ----------

  ghost function Values(records: seq<SourceRecord>, group: seq<nat>, s: Scheme): set<string> {
    set i | i in group && i < |records| && s in records[i].ids :: records[i].ids[s]
  }

  /** For every scheme, the least of the distinct values the group's records carry. */
  ghost function Identifiers(less: (string, string) -> bool, records: seq<SourceRecord>,
                             group: seq<nat>): map<Scheme, string>
    requires StrictTotal(less)
  {
    map s: Scheme | Values(records, group, s) != {} :: Least(less, Values(records, group, s))
  }

  /** A record with a strong identifier gives its organisation one. */
  lemma RecordIsAnchored(less: (string, string) -> bool, records: seq<SourceRecord>, group: seq<nat>, i: nat)
    requires StrictTotal(less) && i in group && i < |records|
    ensures records[i].ids != map[] ==> Identifiers(less, records, group) != map[]
  {
    if records[i].ids != map[] {
      assert records[i].ids.Keys != {};
      var s: Scheme :| s in records[i].ids;
      assert records[i].ids[s] in Values(records, group, s);
      assert s in Identifiers(less, records, group);
    }
  }

  /** One row of organisations.ndjson: the id and the published identifiers. */
  datatype Row = Row(organisationId: string, ids: map<Scheme, string>)

  ghost function PublishedRow(less: (string, string) -> bool, records: seq<SourceRecord>, group: seq<nat>,
                              id: string): Row
    requires StrictTotal(less)
  {
    Row(id, Identifiers(less, records, group) - {Uuid})
  }

  /** The rows of organisations.ndjson, one per group. */
  ghost predicate RowsPublished(less: (string, string) -> bool, records: seq<SourceRecord>, groups: seq<seq<nat>>,
                                ids: seq<string>, rows: seq<Row>)
    requires StrictTotal(less)
  {
    |rows| == |ids| == |groups| && forall g :: 0 <= g < |rows| ==>
        rows[g] == PublishedRow(less, records, groups[g], ids[g])
  }

  lemma PublishedIsValue(less: (string, string) -> bool, records: seq<SourceRecord>, group: seq<nat>, id: string,
                         s: Scheme)
    requires StrictTotal(less) && s in PublishedRow(less, records, group, id).ids
    ensures PublishedRow(less, records, group, id).ids[s] in Values(records, group, s)
    ensures PublishedRow(less, records, group, id).ids[s] == Least(less, Values(records, group, s))
  {
  }

  /** No value of any scheme is carried by two groups. */
  lemma GroupsShareNoValue(records: seq<SourceRecord>, groups: seq<seq<nat>>, g: nat, h: nat, s: Scheme, v: string)
    requires IsGrouping(records, groups) && g < |groups| && h < |groups|
    requires v in Values(records, groups[g], s) && v in Values(records, groups[h], s)
    ensures g == h
  {
    var i :| i in groups[g] && i < |records| && s in records[i].ids && records[i].ids[s] == v;
    var j :| j in groups[h] && j < |records| && s in records[j].ids && records[j].ids[s] == v;
    assert Shares(records, i, j);
    SameOrganisationRefl(records, i);
    SameOrganisationStep(records, i, i, j);
  }

  // ---------- the integrity report ----------

  ghost predicate Holds(row: Row, key: (Scheme, string)) {
    key.0 in PUBLISHED && key.0 in row.ids && row.ids[key.0] == key.1
  }

  /** The published identifiers that two rows with different ids hold. */
  ghost predicate Collides(rows: seq<Row>, key: (Scheme, string)) {
    exists a, b :: 0 <= a < |rows| && 0 <= b < |rows| && Holds(rows[a], key) && Holds(rows[b], key)
                   && rows[a].organisationId != rows[b].organisationId
  }

  ghost function HeldKeys(rows: seq<Row>): set<(Scheme, string)> {
    set a, s | 0 <= a < |rows| && s in PUBLISHED && s in rows[a].ids :: (s, rows[a].ids[s])
  }

  ghost function Holders(rows: seq<Row>, key: (Scheme, string)): set<string> {
    set a | 0 <= a < |rows| && Holds(rows[a], key) :: rows[a].organisationId
  }

  ghost predicate Indexed(rows: seq<Row>, index: map<(Scheme, string), set<string>>) {
    forall key :: (key in index <==> key in HeldKeys(rows)) && (key in index ==> index[key] == Holders(rows, key))
  }

  /** The index after the first `t` schemes of one more row. */
  ghost predicate RowIndexedAt(row: Row, t: nat, before: map<(Scheme, string), set<string>>,
                               after: map<(Scheme, string), set<string>>, key: (Scheme, string))
    requires t <= |PUBLISHED|
  {
    var held := Holds(row, key) && key.0 in PUBLISHED[..t];
    && (key in after <==> key in before || held)
    && (key in after ==>
        after[key] == (if key in before then before[key] else {}) + if held then {row.organisationId} else {})
  }

  ghost predicate RowIndexed(row: Row, t: nat, before: map<(Scheme, string), set<string>>,
                             after: map<(Scheme, string), set<string>>)
    requires t <= |PUBLISHED|
  {
    forall key {:trigger RowIndexedAt(row, t, before, after, key)} :: RowIndexedAt(row, t, before, after, key)
  }

  function AddHolder(index: map<(Scheme, string), set<string>>, key: (Scheme, string),
                     id: string): map<(Scheme, string), set<string>> {
    index[key := (if key in index then index[key] else {}) + {id}]
  }

  /** The index after one scheme of a row, if the row has an identifier of that scheme. */
  function IndexScheme(row: Row, s: Scheme, index: map<(Scheme, string), set<string>>): map<(Scheme, string),
                       set<string>> {
    if s in row.ids then AddHolder(index, (s, row.ids[s]), row.organisationId) else index
  }

  lemma RowIndexedNext(row: Row, t: nat, before: map<(Scheme, string), set<string>>,
                       after: map<(Scheme, string), set<string>>)
    requires t < |PUBLISHED| && RowIndexed(row, t, before, after)
    ensures RowIndexed(row, t + 1, before, IndexScheme(row, PUBLISHED[t], after))
  {
    var u, next := t + 1, IndexScheme(row, PUBLISHED[t], after);
    assert PUBLISHED[..t + 1] == PUBLISHED[..t] + [PUBLISHED[t]];
    forall key ensures RowIndexedAt(row, u, before, next, key) {
      assert RowIndexedAt(row, t, before, after, key);
      assert key.0 in PUBLISHED[..u] <==> key.0 in PUBLISHED[..t] || key.0 == PUBLISHED[t];
    }
  }

  /** `byStrongId` after one more row: every published identifier of the row gains its id. */
  method IndexRow(row: Row, before: map<(Scheme, string), set<string>>)
      returns (after: map<(Scheme, string), set<string>>)
    ensures RowIndexed(row, |PUBLISHED|, before, after)
  {
    after := before;
    for t := 0 to |PUBLISHED|
      invariant RowIndexed(row, t, before, after)
    {
      RowIndexedNext(row, t, before, after);
      var s := PUBLISHED[t];
      if s in row.ids {
        var key := (s, row.ids[s]);
        after := after[key := (if key in after then after[key] else {}) + {row.organisationId}];
      }
    }
  }

  lemma IndexGrows(rows: seq<Row>, i: nat, before: map<(Scheme, string), set<string>>,
                   after: map<(Scheme, string), set<string>>)
    requires i < |rows| && Indexed(rows[..i], before) && RowIndexed(rows[i], |PUBLISHED|, before, after)
    ensures Indexed(rows[..i + 1], after)
  {
    var r, r' := rows[..i], rows[..i + 1];
    assert PUBLISHED[..|PUBLISHED|] == PUBLISHED;
    forall key: (Scheme, string)
      ensures (key in after <==> key in HeldKeys(r')) && (key in after ==> after[key] == Holders(r', key))
    {
      assert RowIndexedAt(rows[i], |PUBLISHED|, before, after, key);
      HeldKeysGrow(rows, i, key);
      HoldersGrow(rows, i, key);
      if key !in before { NotHeldHasNoHolder(r, key); }
    }
  }

  lemma HeldKeysGrow(rows: seq<Row>, i: nat, key: (Scheme, string))
    requires i < |rows|
    ensures key in HeldKeys(rows[..i + 1]) <==> key in HeldKeys(rows[..i]) || Holds(rows[i], key)
  {
    if key in HeldKeys(rows[..i]) {
      var a :| 0 <= a < i && Holds(rows[..i][a], key);
      assert rows[..i + 1][a] == rows[..i][a];
    }
    assert rows[..i + 1][i] == rows[i];
  }

  lemma HoldersGrow(rows: seq<Row>, i: nat, key: (Scheme, string))
    requires i < |rows|
    ensures Holders(rows[..i + 1], key) == Holders(rows[..i], key)
            + if Holds(rows[i], key) then {rows[i].organisationId} else {}
  {
    forall x | x in Holders(rows[..i], key) ensures x in Holders(rows[..i + 1], key) {
      var a :| 0 <= a < i && Holds(rows[..i][a], key) && rows[..i][a].organisationId == x;
      assert rows[..i + 1][a] == rows[..i][a];
    }
    assert rows[..i + 1][i] == rows[i];
  }

  lemma NotHeldHasNoHolder(rows: seq<Row>, key: (Scheme, string))
    requires key !in HeldKeys(rows)
    ensures Holders(rows, key) == {}
  {
  }

  lemma TwoMembers<T>(s: set<T>)
    ensures |s| > 1 <==> exists x, y :: x in s && y in s && x != y
  {
    if |s| > 1 {
      var x :| x in s;
      assert |s - {x}| > 0;
      var y :| y in s - {x};
    }
    if x, y :| x in s && y in s && x != y {
      assert {x, y} <= s && |{x, y}| == 2;
      SubsetIsSmaller({x, y}, s);
    }
  }

  lemma ManyHoldersCollide(rows: seq<Row>, key: (Scheme, string))
    ensures |Holders(rows, key)| > 1 <==> Collides(rows, key)
  {
    TwoMembers(Holders(rows, key));
    if Collides(rows, key) {
      var a, b :| 0 <= a < |rows| && 0 <= b < |rows| && Holds(rows[a], key) && Holds(rows[b], key)
                   && rows[a].organisationId != rows[b].organisationId;
      assert rows[a].organisationId in Holders(rows, key) && rows[b].organisationId in Holders(rows, key);
    }
  }

  /** The collision count of `computeMetrics`: how many published identifiers two organisations hold. */
  method CountCollisions(rows: seq<Row>) returns (collisions: nat)
    ensures collisions == |set key | key in HeldKeys(rows) && Collides(rows, key)|
  {
    var index: map<(Scheme, string), set<string>> := map[];
    for i := 0 to |rows|
      invariant Indexed(rows[..i], index)
    {
      var next := IndexRow(rows[i], index);
      IndexGrows(rows, i, index, next);
      index := next;
    }
    assert rows[..|rows|] == rows;
    CollidingAre(rows, index);
    collisions := |set key | key in index && |index[key]| > 1|;
  }

  lemma CollidingAre(rows: seq<Row>, index: map<(Scheme, string), set<string>>)
    requires Indexed(rows, index)
    ensures (set key | key in index && |index[key]| > 1) == (set key | key in HeldKeys(rows) && Collides(rows, key))
  {
    forall key ensures key in index && |index[key]| > 1 <==> key in HeldKeys(rows) && Collides(rows, key) {
      ManyHoldersCollide(rows, key);
    }
  }

  /** Every published dataset passes the integrity check: no identifier of any scheme collides. */
  lemma PublishedRowsNeverCollide(less: (string, string) -> bool, records: seq<SourceRecord>, groups: seq<seq<nat>>,
                                  rows: seq<Row>)
    requires StrictTotal(less) && IsGrouping(records, groups) && |rows| == |groups|
    requires forall g :: 0 <= g < |rows| ==> rows[g] == PublishedRow(less, records, groups[g], rows[g].organisationId)
    ensures forall key :: !Collides(rows, key)
  {
    forall key, a, b | 0 <= a < |rows| && 0 <= b < |rows| && Holds(rows[a], key) && Holds(rows[b], key)
      ensures a == b
    {
      assert key.1 in Values(records, groups[a], key.0);
      assert key.1 in Values(records, groups[b], key.0);
      GroupsShareNoValue(records, groups, a, b, key.0, key.1);
    }
  }

  // ---------- ids do not depend on the order of the source records ----------

  /** `p` lists where each record of `a` stands in `b`, and `q` is its inverse. */
  ghost predicate Reordering(a: seq<SourceRecord>, b: seq<SourceRecord>, p: seq<nat>, q: seq<nat>) {
    && |a| == |b| == |p| == |q|
    && (forall i :: 0 <= i < |a| ==> p[i] < |a| && q[p[i]] == i && b[p[i]] == a[i])
    && (forall j :: 0 <= j < |a| ==> q[j] < |a| && p[q[j]] == j)
  }

  lemma ReorderingInverse(a: seq<SourceRecord>, b: seq<SourceRecord>, p: seq<nat>, q: seq<nat>)
    requires Reordering(a, b, p, q)
    ensures Reordering(b, a, q, p)
  {
    forall j | 0 <= j < |b| ensures a[q[j]] == b[j] {
      assert b[p[q[j]]] == a[q[j]];
    }
  }

  lemma ReorderingKeepsOrganisations(a: seq<SourceRecord>, b: seq<SourceRecord>, p: seq<nat>, q: seq<nat>, i: nat,
                                     j: nat)
    requires Reordering(a, b, p, q) && i < |a| && j < |a| && SameOrganisation(a, i, j)
    ensures SameOrganisation(b, p[i], p[j])
  {
    var c :| IsChain(a, c) && c[0] == i && c[|c| - 1] == j;
    forall k | 0 <= k < |c| ensures c[k] < |a| {
      if k > 0 { assert Shares(a, c[k - 1], c[k - 1 + 1]); }
    }
    var d := seq(|c|, k requires 0 <= k < |c| => p[c[k]]);
    forall k | 0 <= k < |d| - 1 ensures Shares(b, d[k], d[k + 1]) {
      assert Shares(a, c[k], c[k + 1]);
      assert b[p[c[k]]] == a[c[k]] && b[p[c[k + 1]]] == a[c[k + 1]];
    }
    assert IsChain(b, d) && d[0] == p[i] && d[|d| - 1] == p[j];
  }

  lemma ReorderingKeepsValues(a: seq<SourceRecord>, b: seq<SourceRecord>, p: seq<nat>, q: seq<nat>,
                              ga: seq<seq<nat>>, gb: seq<seq<nat>>, x: nat, y: nat, i: nat, s: Scheme)
    requires Reordering(a, b, p, q) && IsGrouping(a, ga) && IsGrouping(b, gb)
    requires x < |ga| && y < |gb| && i < |a| && i in ga[x] && p[i] in gb[y]
    ensures Values(a, ga[x], s) <= Values(b, gb[y], s)
  {
    forall v | v in Values(a, ga[x], s) ensures v in Values(b, gb[y], s) {
      var j :| j in ga[x] && j < |a| && s in a[j].ids && a[j].ids[s] == v;
      assert SameOrganisation(a, i, j);
      ReorderingKeepsOrganisations(a, b, p, q, i, j);
      MembersOfAGroup(b, gb, y, p[i], p[j]);
    }
  }

  /** The identifiers of the organisation of a record are the same in every order of the records. */
  lemma ReorderingKeepsIdentifiers(less: (string, string) -> bool, a: seq<SourceRecord>, b: seq<SourceRecord>,
                                   p: seq<nat>, q: seq<nat>,
                                   ga: seq<seq<nat>>, gb: seq<seq<nat>>, x: nat, y: nat, i: nat)
    requires StrictTotal(less) && Reordering(a, b, p, q) && IsGrouping(a, ga) && IsGrouping(b, gb)
    requires x < |ga| && y < |gb| && i < |a| && i in ga[x] && p[i] in gb[y]
    ensures Identifiers(less, a, ga[x]) == Identifiers(less, b, gb[y])
  {
    ReorderingInverse(a, b, p, q);
    forall s: Scheme ensures Values(a, ga[x], s) == Values(b, gb[y], s) {
      ReorderingKeepsValues(a, b, p, q, ga, gb, x, y, i, s);
      ReorderingKeepsValues(b, a, q, p, gb, ga, y, x, p[i], s);
    }
  }

  /** The primary keys of a build: the strongest identifier of each group, or a keyless hash. */
  ghost predicate PrimaryKeysOf(less: (string, string) -> bool, records: seq<SourceRecord>, groups: seq<seq<nat>>,
                                pks: seq<string>)
    requires StrictTotal(less)
  {
    |pks| == |groups| && forall g :: 0 <= g < |groups| ==>
        PrimaryKeyOfGroup(Identifiers(less, records, groups[g]), pks[g])
  }

  /** `pk` is the key of an organisation with these identifiers, whatever its name and domain. */
  ghost predicate PrimaryKeyOfGroup(ids: map<Scheme, string>, pk: string) {
    match Strongest(ids, SCHEMES)
    case Some(s) => s in ids && pk == KeyOf(s, ids[s])
    case None => exists h: string :: pk == "nd:" + h
  }

  lemma PrimaryKeyIsOfGroup(ids: map<Scheme, string>, name: string, domain: string, sha: string -> string)
    ensures PrimaryKeyOfGroup(ids, PrimaryKey(ids, name, domain, sha))
  {
    StrongestIsCarried(ids, SCHEMES);
  }

  lemma KeylessMeansNoIdentifier(ids: map<Scheme, string>)
    ensures Strongest(ids, SCHEMES).None? ==> ids == map[]
  {
    StrongestIsCarried(ids, SCHEMES);
    if Strongest(ids, SCHEMES).None? {
      forall s: Scheme ensures s !in ids { EverySchemeIsListed(s); }
      assert ids == map[];
    }
  }

  /** An organisation with a strong identifier shares its primary key with no other. */
  lemma StrongKeyIsUnique(less: (string, string) -> bool, records: seq<SourceRecord>, groups: seq<seq<nat>>,
                          pks: seq<string>, g: nat, h: nat)
    requires StrictTotal(less) && IsGrouping(records, groups) && PrimaryKeysOf(less, records, groups, pks)
    requires g < |groups| && h < |groups| && g != h
    requires Identifiers(less, records, groups[g]) != map[]
    ensures pks[g] != pks[h]
  {
    var ids, other := Identifiers(less, records, groups[g]), Identifiers(less, records, groups[h]);
    StrongestIsCarried(ids, SCHEMES);
    StrongestIsCarried(other, SCHEMES);
    KeylessMeansNoIdentifier(ids);
    assert PrimaryKeyOfGroup(ids, pks[g]) && PrimaryKeyOfGroup(other, pks[h]);
    var t := Strongest(ids, SCHEMES).value;
    match Strongest(other, SCHEMES)
    case Some(u) =>
      if pks[g] == pks[h] {
        KeyIsInjective(t, ids[t], u, other[u]);
        GroupsShareNoValue(records, groups, g, h, t, ids[t]);
        assert false;
      }
    case None =>
      var w: string :| pks[h] == "nd:" + w;
      KeylessIsNotStrong(t, ids[t], w);
  }

  lemma StrongOrganisationHasBaseId(less: (string, string) -> bool, records: seq<SourceRecord>, groups: seq<seq<nat>>,
                                    pks: seq<string>, hash: string -> string, ids: seq<string>, g: nat)
    requires StrictTotal(less) && IsGrouping(records, groups) && PrimaryKeysOf(less, records, groups, pks)
    requires HashSeparates(hash, pks) && AllAssigned(pks, hash, ids)
    requires g < |groups| && Identifiers(less, records, groups[g]) != map[]
    ensures ids[g] == BaseId(pks[g], hash)
  {
    forall h | 0 <= h < g ensures pks[h] != pks[g] {
      StrongKeyIsUnique(less, records, groups, pks, g, h);
    }
    BaseIdIffFirst(pks, hash, ids, g);
  }

  /** Two builds from the same records in any two orders give the organisation of record `i` the
      same unsuffixed id, provided it carries a strong identifier. */
  lemma AnchoredIdsIgnoreRecordOrder(less: (string, string) -> bool, hash: string -> string,
                                     a: seq<SourceRecord>, ga: seq<seq<nat>>, pa: seq<string>, ia: seq<string>, x: nat,
                                     b: seq<SourceRecord>, gb: seq<seq<nat>>, pb: seq<string>, ib: seq<string>, y: nat,
                                     p: seq<nat>, q: seq<nat>, i: nat)
    requires StrictTotal(less) && Reordering(a, b, p, q)
    requires IsGrouping(a, ga) && PrimaryKeysOf(less, a, ga, pa) && HashSeparates(hash, pa) && AllAssigned(pa, hash, ia)
    requires IsGrouping(b, gb) && PrimaryKeysOf(less, b, gb, pb) && HashSeparates(hash, pb) && AllAssigned(pb, hash, ib)
    requires i < |a| && x < |ga| && i in ga[x] && y < |gb| && p[i] in gb[y]
    requires Identifiers(less, a, ga[x]) != map[]
    ensures ia[x] == ib[y] == BaseId(pa[x], hash)
  {
    ReorderingKeepsIdentifiers(less, a, b, p, q, ga, gb, x, y, i);
    var ids := Identifiers(less, a, ga[x]);
    StrongOrganisationHasBaseId(less, a, ga, pa, hash, ia, x);
    StrongOrganisationHasBaseId(less, b, gb, pb, hash, ib, y);
    assert PrimaryKeyOfGroup(ids, pa[x]) && PrimaryKeyOfGroup(ids, pb[y]);
    KeylessMeansNoIdentifier(ids);
  }
}
