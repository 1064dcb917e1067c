/** organisation/resolve.js on the dataset that authority/build.js emits: which carried identifiers are
    found again. */
module Lookup {
  import opened Records
  import opened Orders
  import opened Merge
  import opened Identity
  import opened Organisations
  import opened Build
  import opened Normalise
  import Resolve

  /** The identifiers of the source records are results of the normalisers. */
  ghost predicate FromNormalisers(records: seq<SourceRecord>) {
    forall i, s :: 0 <= i < |records| && s in Resolve.SUPPLIED && s in records[i].ids ==>
      exists raw :: NormaliseFor(s, raw) == Some(records[i].ids[s])
  }

  /** Every dataset the build emits meets the conditions under which lookups are unambiguous. */
  lemma DatasetIsResolvable(w: World, records: seq<SourceRecord>, d: Dataset)
    requires w.Ordered() && DatasetOk(w, records, d) && FromNormalisers(records)
    ensures Resolve.Normalised(d.Rows())
    ensures forall key :: !Collides(d.Rows(), key)
  {
    RowsNeverCollide(w, records, d.drafts, d.ids);
    var rows := d.Rows();
    forall a, s | 0 <= a < |rows| && s in Resolve.SUPPLIED && s in rows[a].ids
      ensures exists raw :: NormaliseFor(s, raw) == Some(rows[a].ids[s])
    {
      assert DraftOk(w, records, d.drafts[a]);
      ValueIsNormal(records, d.drafts[a].group, s, rows[a].ids[s]);
    }
  }

  lemma ValueIsNormal(records: seq<SourceRecord>, group: seq<nat>, s: Scheme, v: string)
    requires FromNormalisers(records) && s in Resolve.SUPPLIED && v in Values(records, group, s)
    ensures v != "" && NormaliseFor(s, Some(v)) == Some(v) && exists raw :: NormaliseFor(s, raw) == Some(v)
  {
    var i :| i in group && i < |records| && s in records[i].ids && records[i].ids[s] == v;
    var raw :| NormaliseFor(s, raw) == Some(v);
    NormaliseForIsIdempotent(s, raw, v);
    NormalFormIsNotEmpty(s, raw);
  }

  // ---------- requests that an organisation carries ----------

  /** Every identifier of the request is carried by organisation `g`. */
  ghost predicate Carried(records: seq<SourceRecord>, d: Dataset, g: nat, r: Resolve.Request)
    requires g < |d.drafts|
  {
    Resolve.CarriedBy(records, d.drafts[g].group, r)
  }

  /** One of its identifiers is the value that organisation `g` publishes. */
  ghost predicate Published(w: World, records: seq<SourceRecord>, d: Dataset, g: nat, r: Resolve.Request)
    requires w.Ordered() && g < |d.drafts|
  {
    Resolve.SomePublished(w.less, records, d.drafts[g].group, r)
  }

  lemma CarriedIsNamed(w: World, records: seq<SourceRecord>, d: Dataset, g: nat, r: Resolve.Request)
    requires w.Ordered() && DatasetOk(w, records, d) && g < |d.drafts| && Carried(records, d, g, r)
    ensures forall id :: Resolve.Names(d.Rows(), r, id) <==> id == d.ids[g] && Published(w, records, d, g, r)
  {
    RowsArePublished(w, records, d.drafts, d.ids);
    Resolve.CarriedIsNamedIffPublished(w.less, records, GroupsOf(d.drafts), d.ids, d.Rows(), g, r);
  }

  lemma UnpublishedIsFresh(w: World, records: seq<SourceRecord>, d: Dataset, g: nat, r: Resolve.Request)
    requires w.Ordered() && DatasetOk(w, records, d) && g < |d.drafts| && Carried(records, d, g, r)
    requires !Published(w, records, d, g, r) && HashSeparates(w.hash, PksOf(d.drafts) + [Resolve.RequestKey(r, w.sha)])
    ensures Resolve.ComputedId(r, w.sha, w.hash) !in d.ids
            && !Resolve.HasRow(d.Rows(), Resolve.ComputedId(r, w.sha, w.hash))
  {
    KeysAreOfGroups(w, records, d);
    Resolve.UnpublishedComputesFreshId(w.less, records, GroupsOf(d.drafts), PksOf(d.drafts), w.sha, w.hash, d.ids, g,
        r);
  }

  /** The answer that a request carried by organisation `g` should get. */
  ghost predicate AnswersCarried(w: World, records: seq<SourceRecord>, d: Dataset, g: nat, r: Resolve.Request,
                                 res: Resolve.Resolution)
    requires w.Ordered() && g < |d.drafts| && |d.ids| == |d.drafts|
  {
    if Published(w, records, d, g, r) then res == Resolve.Found(d.ids[g])
    else res == Resolve.New(Resolve.ComputedId(r, w.sha, w.hash)) && res.id !in d.ids
  }

  /** A lookup by identifiers that organisation `g` carries. It finds the organisation when one of them
      is a published value; otherwise it is answered with a new id, provided its key hashes apart from
      the primary keys in use. */
  method ResolveCarried(w: World, records: seq<SourceRecord>, d: Dataset, g: nat, r: Resolve.Request)
      returns (res: Resolve.Resolution)
    requires w.Ordered() && DatasetOk(w, records, d) && FromNormalisers(records)
    requires g < |d.drafts| && Carried(records, d, g, r)
    ensures Published(w, records, d, g, r) ==> res == Resolve.Found(d.ids[g])
    ensures HashSeparates(w.hash, PksOf(d.drafts) + [Resolve.RequestKey(r, w.sha)]) ==>
            AnswersCarried(w, records, d, g, r, res)
  {
    DatasetIsResolvable(w, records, d);
    res := Resolve.ResolveOverDataset(d.Rows(), r, w.sha, w.hash);
    CarriedIsNamed(w, records, d, g, r);
    if Published(w, records, d, g, r) {
      assert Resolve.Names(d.Rows(), r, d.ids[g]);
    } else if HashSeparates(w.hash, PksOf(d.drafts) + [Resolve.RequestKey(r, w.sha)]) {
      UnpublishedIsFresh(w, records, d, g, r);
    }
  }

  // ---------- requests by name and domain ----------

  /** A request without any usable identifier, by the name and the domain of organisation `g`. */
  predicate ByNameAndDomain(w: World, records: seq<SourceRecord>, d: Dataset, g: nat, r: Resolve.Request)
    requires g < |d.drafts|
  {
    && Resolve.NormalisedFacts(r) == map[]
    && r.name == w.nameOf(RecordsAt(records, d.drafts[g].group)) && r.domain == FirstDomain(d.drafts[g].candidates)
  }

  lemma NamingNeedsFacts(rows: seq<Row>, r: Resolve.Request, id: string)
    ensures Resolve.Names(rows, r, id) ==> Resolve.NormalisedFacts(r) != map[]
  {
    if Resolve.Names(rows, r, id) {
      var a, s := Resolve.NamingRow(rows, r, id);
      assert s in Resolve.NormalisedFacts(r);
    }
  }

  /** Some organisation has the unsuffixed id of every primary key in use. */
  lemma BaseIdIsTaken(pks: seq<string>, hash: string -> string, ids: seq<string>, g: nat)
    requires AllAssigned(pks, hash, ids) && HashSeparates(hash, pks) && g < |ids|
    ensures BaseId(pks[g], hash) in ids
  {
    var a := FirstWithKey(pks, g);
    BaseIdIffFirst(pks, hash, ids, a);
    assert ids[a] in ids;
  }

  /** A lookup by the name and domain of a keyless organisation finds the first organisation of that
      key, so it finds the organisation itself exactly when its id has no suffix. */
  method ResolveKeyless(w: World, records: seq<SourceRecord>, d: Dataset, g: nat, r: Resolve.Request)
      returns (res: Resolve.Resolution)
    requires w.Ordered() && DatasetOk(w, records, d) && FromNormalisers(records)
    requires HashSeparates(w.hash, PksOf(d.drafts))
    requires g < |d.drafts| && d.drafts[g].ids == map[] && ByNameAndDomain(w, records, d, g, r)
    ensures res == Resolve.Found(BaseId(d.drafts[g].pk, w.hash))
    ensures res == Resolve.Found(d.ids[g]) <==> d.drafts[g].pk !in PksOf(d.drafts)[..g]
  {
    DatasetIsResolvable(w, records, d);
    res := Resolve.ResolveOverDataset(d.Rows(), r, w.sha, w.hash);
    forall id ensures !Resolve.Names(d.Rows(), r, id) {
      NamingNeedsFacts(d.Rows(), r, id);
    }
    assert DraftOk(w, records, d.drafts[g]);
    BaseIdIsTaken(PksOf(d.drafts), w.hash, d.ids, g);
    BaseIdIffFirst(PksOf(d.drafts), w.hash, d.ids, g);
    TakenIdHasRow(d, BaseId(d.drafts[g].pk, w.hash));
  }

  lemma TakenIdHasRow(d: Dataset, id: string)
    requires |d.ids| == |d.drafts| && id in d.ids
    ensures Resolve.HasRow(d.Rows(), id)
  {
    var a :| 0 <= a < |d.ids| && d.ids[a] == id;
    assert d.Rows()[a].organisationId == id;
  }

  // ---------- one firm with two company numbers ----------

  /** Two records that share an FRN and carry different company numbers. */
  function TwoNumbers(f: string, c: string, e: string): seq<SourceRecord> {
    [SourceRecord(map[Cn := c, Frn := f], None, None, false, ""),
     SourceRecord(map[Cn := e, Frn := f], None, None, false, "")]
  }

  /** An FRN and two different company numbers, each in normal form. */
  predicate NormalNumbers(f: string, c: string, e: string) {
    && NormaliseFor(Frn, Some(f)) == Some(f)
    && NormaliseFor(Cn, Some(c)) == Some(c) && NormaliseFor(Cn, Some(e)) == Some(e) && c != e
  }

  lemma TwoNumbersAreNormal(f: string, c: string, e: string)
    requires NormalNumbers(f, c, e)
    ensures FromNormalisers(TwoNumbers(f, c, e))
  {
  }

  /** A request with one company number. */
  function ByNumber(v: string): Resolve.Request {
    Resolve.Request(map[Cn := v], "", "")
  }

  lemma NumberIsCarried(less: (string, string) -> bool, records: seq<SourceRecord>, group: seq<nat>, v: string,
                        sha: string -> string)
    requires StrictTotal(less) && NormaliseFor(Cn, Some(v)) == Some(v) && v in Values(records, group, Cn)
    ensures Resolve.CarriedBy(records, group, ByNumber(v)) && Resolve.RequestKey(ByNumber(v), sha) == KeyOf(Cn, v)
    ensures Resolve.SomePublished(less, records, group, ByNumber(v)) ==> Least(less, Values(records, group, Cn)) == v
  {
    var r := ByNumber(v);
    NormalFormIsNotOfEmpty(Cn);
    assert Resolve.Supplies(r, Cn) && Resolve.CarriesSupplied(records, group, r, Cn);
    var t := Resolve.CarriedKey(records, group, r, sha);
  }

  lemma TwoNumbersShare(f: string, c: string, e: string, groups: seq<seq<nat>>, g: nat)
    requires IsGrouping(TwoNumbers(f, c, e), groups) && g < |groups|
    ensures 0 in groups[g] && 1 in groups[g]
  {
    var records := TwoNumbers(f, c, e);
    assert Shares(records, 0, 1) && Shares(records, 1, 0) by {
      assert Frn in records[0].ids && Frn in records[1].ids;
    }
    SameOrganisationRefl(records, 0);
    SameOrganisationRefl(records, 1);
    SameOrganisationStep(records, 0, 0, 1);
    SameOrganisationStep(records, 1, 1, 0);
    var i := groups[g][0];
    assert i in groups[g] && (i == 0 || i == 1);
    MembersOfAGroup(records, groups, g, i, 0);
    MembersOfAGroup(records, groups, g, i, 1);
  }

  lemma TwoNumbersShareOneGroup(f: string, c: string, e: string, groups: seq<seq<nat>>, g: nat, h: nat)
    requires IsGrouping(TwoNumbers(f, c, e), groups) && g < |groups| && h < |groups|
    ensures g == h
  {
    TwoNumbersShare(f, c, e, groups, g);
    TwoNumbersShare(f, c, e, groups, h);
    SameOrganisationRefl(TwoNumbers(f, c, e), 0);
  }

  lemma TwoNumbersAreOneFirm(f: string, c: string, e: string, groups: seq<seq<nat>>)
    requires IsGrouping(TwoNumbers(f, c, e), groups)
    ensures |groups| == 1
  {
    assert InSomeGroup(groups, 0);
    if |groups| > 1 { TwoNumbersShareOneGroup(f, c, e, groups, 0, 1); }
  }

  lemma TwoNumbersAreCarried(f: string, c: string, e: string, group: seq<nat>)
    requires 0 in group && 1 in group
    ensures Values(TwoNumbers(f, c, e), group, Cn) == {c, e}
  {
    var records := TwoNumbers(f, c, e);
    assert records[0].ids[Cn] == c && records[1].ids[Cn] == e;
    forall v | v in Values(records, group, Cn) ensures v in {c, e} {
      var i :| i in group && i < |records| && Cn in records[i].ids && records[i].ids[Cn] == v;
    }
  }

  /** The promise that an organisation always resolves to the same id fails on every such pair of records,
      for every order of values and every hash that separates the two keys with digests of one length:
      the dataset holds one organisation, and a lookup by one of its two company numbers is answered
      with a new id. */
  method LookUpOtherNumber(w: World, nodeLess: (Node, Node) -> bool, f: string, c: string, e: string)
      returns (d: Dataset, v: string, res: Resolve.Resolution)
    requires w.Ordered() && NormalNumbers(f, c, e) && HashSeparates(w.hash, [KeyOf(Cn, c), KeyOf(Cn, e)])
    ensures DatasetOk(w, TwoNumbers(f, c, e), d) && |d.ids| == 1
            && v in Values(TwoNumbers(f, c, e), d.drafts[0].group, Cn)
    ensures res == Resolve.New(BaseId(KeyOf(Cn, v), w.hash)) && res.id != d.ids[0]
  {
    d := BuildDataset(w, nodeLess, TwoNumbers(f, c, e));
    v := if w.less(c, e) then e else c;
    TwoNumbersAreOneFirm(f, c, e, GroupsOf(d.drafts));
    TwoNumbersShare(f, c, e, GroupsOf(d.drafts), 0);
    TwoNumbersAreCarried(f, c, e, d.drafts[0].group);
    TwoNumbersAreNormal(f, c, e);
    OtherNumberIsUnpublished(w, f, c, e, d, v);
    NumberIsCarried(w.less, TwoNumbers(f, c, e), d.drafts[0].group, v, w.sha);
    res := ResolveCarried(w, TwoNumbers(f, c, e), d, 0, ByNumber(v));
    assert d.ids[0] in d.ids;
  }

  lemma OtherNumberIsUnpublished(w: World, f: string, c: string, e: string, d: Dataset, v: string)
    requires w.Ordered() && NormalNumbers(f, c, e) && HashSeparates(w.hash, [KeyOf(Cn, c), KeyOf(Cn, e)])
    requires DatasetOk(w, TwoNumbers(f, c, e), d) && |d.drafts| == 1
    requires Values(TwoNumbers(f, c, e), d.drafts[0].group, Cn) == {c, e}
    requires v == if w.less(c, e) then e else c
    ensures Least(w.less, {c, e}) != v && HashSeparates(w.hash, PksOf(d.drafts) + [KeyOf(Cn, v)])
  {
    TheOtherIsLeast(w.less, c, e);
    OnlyKey(w, f, c, e, d, if w.less(c, e) then c else e);
    EitherOrderSeparates(w.hash, KeyOf(Cn, c), KeyOf(Cn, e));
    TwoStrings(KeyOf(Cn, c), KeyOf(Cn, e));
    TwoStrings(KeyOf(Cn, e), KeyOf(Cn, c));
  }

  lemma TwoStrings(x: string, y: string)
    ensures [x] + [y] == [x, y]
  {
  }

  lemma OnlyKey(w: World, f: string, c: string, e: string, d: Dataset, least: string)
    requires w.Ordered() && |d.drafts| == 1 && DatasetOk(w, TwoNumbers(f, c, e), d)
    requires Values(TwoNumbers(f, c, e), d.drafts[0].group, Cn) == {c, e} && least == Least(w.less, {c, e})
    ensures PksOf(d.drafts) == [KeyOf(Cn, least)]
  {
    KeyIsTheLeastNumber(w, f, c, e, d.drafts[0], least);
  }

  lemma TheOtherIsLeast(less: (string, string) -> bool, x: string, y: string)
    requires StrictTotal(less) && x != y
    ensures Least(less, {x, y}) == if less(x, y) then x else y
  {
    assert less(x, y) && less(y, x) ==> less(x, x);
  }

  lemma KeyIsTheLeastNumber(w: World, f: string, c: string, e: string, x: Draft, least: string)
    requires w.Ordered() && DraftOk(w, TwoNumbers(f, c, e), x)
    requires Values(TwoNumbers(f, c, e), x.group, Cn) == {c, e} && least == Least(w.less, {c, e})
    ensures x.pk == KeyOf(Cn, least)
  {
    assert x.ids[Cn] == least;
    assert SCHEMES[0] == Cn;
  }

  lemma EitherOrderSeparates(hash: string -> string, x: string, y: string)
    requires HashSeparates(hash, [x, y])
    ensures HashSeparates(hash, [y, x])
  {
    var s := [x, y];
    assert s[0] == x && s[1] == y;
  }
}
