/** The reconstructability test of authority/integrity-report.js: can the id of an organisation be
    computed again from what its row publishes? */
module Integrity {
  import opened Records
  import opened Identity
  import opened Organisations
  import opened Domains
  import opened Build
  import opened Keyless
  import opened Normalise

  // ---------- the suffix ----------

  /** How many decimal digits stand at the end. */
  function DigitsAtEnd(s: string): (n: nat)
    ensures n <= |s|
  {
    if s == "" || !IsDigit(s[|s| - 1]) then 0 else 1 + DigitsAtEnd(s[..|s| - 1])
  }

  /** `replace(/-[0-9]+$/, '')`: a hyphen with digits up to the end goes. */
  function WithoutSuffix(id: string): string {
    var n := DigitsAtEnd(id);
    if n > 0 && n < |id| && id[|id| - n - 1] == '-' then id[..|id| - n - 1] else id
  }

  lemma {:induction false} DigitsAfterHyphen(s: string, t: string)
    requires AllDigits(t)
    ensures DigitsAtEnd(s + "-" + t) == |t|
  {
    var id := s + "-" + t;
    if t == "" {
      assert id[|id| - 1] == '-';
    } else {
      DigitsAfterHyphen(s, t[..|t| - 1]);
      assert id[..|id| - 1] == s + "-" + t[..|t| - 1] && id[|id| - 1] == t[|t| - 1];
    }
  }

  /** Taking the suffix off undoes putting it on. */
  lemma SuffixComesOff(base: string, n: nat)
    ensures WithoutSuffix(Suffixed(base, n)) == base
  {
    DecimalIsDigits(n);
    DigitsAfterHyphen(base, Decimal(n));
    assert Suffixed(base, n)[..|base|] == base;
  }

  // ---------- the test of one row ----------

  /** The domain that the report takes from a row: the verified one, else the first candidate. */
  function RowDomain(d: Dataset, g: nat): string
    requires g < |d.drafts| && g < |d.status|
  {
    if d.status[g].Verified? then d.status[g].domain else FirstDomain(d.drafts[g].candidates)
  }

  /** The primary key computed from the published identifiers, name and domain. */
  function RowKey(w: World, records: seq<SourceRecord>, d: Dataset, g: nat): string
    requires g < |d.drafts| && g < |d.status|
  {
    PrimaryKey(d.drafts[g].ids - {Uuid}, w.nameOf(RecordsAt(records, d.drafts[g].group)), RowDomain(d, g), w.sha)
  }

  predicate Reconstructs(w: World, records: seq<SourceRecord>, d: Dataset, g: nat)
    requires g < |d.drafts| && g < |d.status| && g < |d.ids|
  {
    var id := BaseId(RowKey(w, records, d, g), w.hash);
    id == d.ids[g] || id == WithoutSuffix(d.ids[g])
  }

  /** The strongest identifier of the organisation is published, or it has none. */
  predicate BasisIsPublished(ids: map<Scheme, string>) {
    Strongest(ids, SCHEMES) != Some(Uuid)
  }

  lemma {:induction false} StrongestWithout(ids: map<Scheme, string>, schemes: seq<Scheme>)
    ensures Strongest(ids, schemes) != Some(Uuid) ==> Strongest(ids - {Uuid}, schemes) == Strongest(ids, schemes)
  {
    if schemes == [] {
    } else {
      StrongestWithout(ids, schemes[1..]);
    }
  }

  lemma IdWithoutSuffix(pks: seq<string>, hash: string -> string, ids: seq<string>, g: nat)
    requires AllAssigned(pks, hash, ids) && g < |ids|
    ensures ids[g] == BaseId(pks[g], hash) || WithoutSuffix(ids[g]) == BaseId(pks[g], hash)
  {
    assert IdAssigned(pks, hash, ids, g);
    if ids[g] != BaseId(pks[g], hash) {
      var n: nat :| ids[g] == Suffixed(BaseId(pks[g], hash), n);
      SuffixComesOff(BaseId(pks[g], hash), n);
    }
  }

  /** An organisation whose row determines its key is reconstructed. */
  lemma SameKeyReconstructs(w: World, records: seq<SourceRecord>, d: Dataset, g: nat)
    requires w.Ordered() && DatasetOk(w, records, d) && g < |d.drafts| && RowKey(w, records, d, g) == d.drafts[g].pk
    ensures Reconstructs(w, records, d, g)
  {
    IdWithoutSuffix(PksOf(d.drafts), w.hash, d.ids, g);
  }

  lemma PublishedBasisGivesKey(w: World, records: seq<SourceRecord>, d: Dataset, g: nat)
    requires w.Ordered() && DatasetOk(w, records, d) && g < |d.drafts| && BasisIsPublished(d.drafts[g].ids)
    ensures RowKey(w, records, d, g) == d.drafts[g].pk
  {
    var x := d.drafts[g];
    assert DraftOk(w, records, x);
    StrongestWithout(x.ids, SCHEMES);
    StrongestIsCarried(x.ids, SCHEMES);
    if Strongest(x.ids, SCHEMES).None? { KeylessRowDomain(w, records, d, g); }
  }

  /** A keyless organisation has at most one candidate, so its row shows the domain it was keyed by. */
  lemma KeylessRowDomain(w: World, records: seq<SourceRecord>, d: Dataset, g: nat)
    requires w.Ordered() && DatasetOk(w, records, d) && g < |d.drafts| && Strongest(d.drafts[g].ids, SCHEMES).None?
    ensures RowDomain(d, g) == FirstDomain(d.drafts[g].candidates)
  {
    var x := d.drafts[g];
    assert DraftOk(w, records, x);
    KeylessMeansNoIdentifier(x.ids);
    var i := KeylessIsOneRecord(w, records, GroupsOf(d.drafts), g);
    KeylessDraft(w, records, x, i);
    assert StatusIs(d.Orgs()[g], d.owner, d.status[g]);
  }

  /** Without its `uuid` an organisation that rests on it has another key, of another scheme. */
  lemma HiddenBasisLosesKey(w: World, records: seq<SourceRecord>, d: Dataset, g: nat)
    requires w.Ordered() && DatasetOk(w, records, d) && g < |d.drafts| && !BasisIsPublished(d.drafts[g].ids)
    ensures RowKey(w, records, d, g) != d.drafts[g].pk
    ensures Identifiers(w.less, records, d.drafts[g].group) != map[]
  {
    var x := d.drafts[g];
    var rest := x.ids - {Uuid};
    assert DraftOk(w, records, x);
    StrongestIsCarried(x.ids, SCHEMES);
    StrongestIsCarried(rest, SCHEMES);
    match Strongest(rest, SCHEMES)
    case Some(t) =>
      if KeyOf(t, rest[t]) == KeyOf(Uuid, x.ids[Uuid]) { KeyIsInjective(t, rest[t], Uuid, x.ids[Uuid]); }
    case None =>
      KeylessIsNotStrong(Uuid, x.ids[Uuid], w.sha(w.nameOf(RecordsAt(records, x.group)) + "|" + RowDomain(d, g)));
  }

  lemma WithoutSuffixIsShorter(id: string)
    ensures WithoutSuffix(id) == id || |WithoutSuffix(id)| < |id|
  {
  }

  /** Another key that hashes apart does not give the id back, with or without its suffix. */
  lemma OtherKeyMisses(pks: seq<string>, hash: string -> string, ids: seq<string>, g: nat, key: string)
    requires AllAssigned(pks, hash, ids) && HashSeparates(hash, pks + [key]) && g < |ids|
    requires key != pks[g] && ids[g] == BaseId(pks[g], hash)
    ensures BaseId(key, hash) != ids[g] && BaseId(key, hash) != WithoutSuffix(ids[g])
  {
    var all := pks + [key];
    assert all[g] == pks[g] && all[|pks|] == key;
    assert hash(all[g]) != hash(all[|pks|]) && |hash(all[g])| == |hash(all[|pks|])|;
    assert ids[g][4..] == hash(pks[g]) && BaseId(key, hash)[4..] == hash(key);
    WithoutSuffixIsShorter(ids[g]);
  }

  lemma HashSeparatesFewer(hash: string -> string, pks: seq<string>, key: string)
    requires HashSeparates(hash, pks + [key])
    ensures HashSeparates(hash, pks)
  {
    var all := pks + [key];
    assert forall a :: 0 <= a < |pks| ==> all[a] == pks[a];
  }

  /** An organisation can be reconstructed from its row exactly when its strongest identifier is
      published, that is, when it does not rest on a `uuid`. A keyless one always can. */
  lemma ReconstructsIff(w: World, records: seq<SourceRecord>, d: Dataset, g: nat)
    requires w.Ordered() && DatasetOk(w, records, d) && g < |d.drafts|
    requires RowSeparates(w, records, d, g)
    ensures Reconstructs(w, records, d, g) <==> BasisIsPublished(d.drafts[g].ids)
  {
    if BasisIsPublished(d.drafts[g].ids) {
      PublishedBasisGivesKey(w, records, d, g);
      SameKeyReconstructs(w, records, d, g);
    } else {
      HiddenBasisLosesKey(w, records, d, g);
      KeysAreOfGroups(w, records, d);
      HashSeparatesFewer(w.hash, PksOf(d.drafts), RowKey(w, records, d, g));
      StrongOrganisationHasBaseId(w.less, records, GroupsOf(d.drafts), PksOf(d.drafts), w.hash, d.ids, g);
      OtherKeyMisses(PksOf(d.drafts), w.hash, d.ids, g, RowKey(w, records, d, g));
    }
  }

  /** The keys in use and the one computed from row `g` hash apart. */
  ghost predicate RowSeparates(w: World, records: seq<SourceRecord>, d: Dataset, g: nat)
    requires g < |d.drafts| == |d.status|
  {
    HashSeparates(w.hash, PksOf(d.drafts) + [RowKey(w, records, d, g)])
  }

  ghost predicate RowsSeparate(w: World, records: seq<SourceRecord>, d: Dataset)
    requires |d.drafts| == |d.status|
  {
    forall g: nat {:trigger RowSeparates(w, records, d, g)} :: g < |d.drafts| ==> RowSeparates(w, records, d, g)
  }

  /** The outcome of the test for every row. */
  function Tests(w: World, records: seq<SourceRecord>, d: Dataset): (tests: seq<bool>)
    requires |d.drafts| == |d.status| == |d.ids|
    ensures |tests| == |d.drafts| && forall g :: 0 <= g < |tests| ==> tests[g] == Reconstructs(w, records, d, g)
  {
    seq(|d.drafts|, g requires 0 <= g < |d.drafts| => Reconstructs(w, records, d, g))
  }

  /** The report's loop over the rows: how many pass, and which do not, in order. */
  method ListFailing(tests: seq<bool>) returns (passing: nat, failing: seq<nat>)
    ensures passing + |failing| == |tests| && (forall g: nat :: g in failing <==> g < |tests| && !tests[g])
    ensures forall a, b :: 0 <= a < b < |failing| ==> failing[a] < failing[b]
  {
    passing, failing := 0, [];
    for g := 0 to |tests|
      invariant passing + |failing| == g && forall h: nat :: h in failing <==> h < g && !tests[h]
      invariant forall a, b :: 0 <= a < b < |failing| ==> failing[a] < failing[b]
    {
      if tests[g] {
        passing := passing + 1;
      } else {
        assert forall a :: 0 <= a < |failing| ==> failing[a] in failing;
        failing := failing + [g];
      }
    }
  }

  /** The report lists the organisations that fail the test, which are those that rest on a `uuid`. */
  method ListNonReconstructable(w: World, records: seq<SourceRecord>, d: Dataset)
      returns (reconstructable: nat, failing: seq<nat>)
    requires w.Ordered() && DatasetOk(w, records, d)
    ensures reconstructable + |failing| == |d.drafts|
    ensures forall g: nat :: g in failing <==> g < |d.drafts| && !Tests(w, records, d)[g]
    ensures RowsSeparate(w, records, d) ==>
              forall g: nat :: g in failing <==> g < |d.drafts| && !BasisIsPublished(d.drafts[g].ids)
  {
    reconstructable, failing := ListFailing(Tests(w, records, d));
    forall g: nat | g < |d.drafts| && RowsSeparate(w, records, d)
      ensures Tests(w, records, d)[g] <==> BasisIsPublished(d.drafts[g].ids)
    {
      assert RowSeparates(w, records, d, g);
      ReconstructsIff(w, records, d, g);
    }
  }
}
