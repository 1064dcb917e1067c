/** trust-intelligence/provenance.js: signal validation, the version vector and the sorted manifest
    entries. Absent and null string fields are empty strings here; both fail the same test. */
module Provenance {
  import opened Orders

  datatype Signal = Signal(key: string, observed: bool, qualityModelVersion: string, collectedAt: string,
      sourceRowRef: string)

  /** Checks V-B and V-G for the signals of one domain. */
  ghost predicate SignalsOk(signals: seq<Signal>) {
    && (forall i :: 0 <= i < |signals| ==> 
          signals[i].key != "" &&
          (signals[i].observed ==>
             signals[i].qualityModelVersion != "" && signals[i].collectedAt != "" && signals[i].sourceRowRef != ""))
    && forall i, j :: 0 <= i < j < |signals| && signals[i].observed && signals[j].observed ==>
        signals[i].key != signals[j].key
  }

  predicate Referenced(s: Signal) {
    s.qualityModelVersion != "" && s.collectedAt != "" && s.sourceRowRef != ""
  }

  datatype Verdict = Accepted | MissingKey(at: nat) | MissingReference(at: nat) | DuplicateKey(at: nat)

  /** Some earlier observed signal has the key. */
  ghost predicate SeenBefore(signals: seq<Signal>, at: nat, key: string)
    requires at <= |signals|
  {
    exists j :: 0 <= j < at && signals[j].observed && signals[j].key == key
  }

  /** The test that failed at the reported signal; the tests before it passed. */
  ghost predicate Fails(signals: seq<Signal>, v: Verdict)
    requires v != Accepted && v.at < |signals|
  {
    var s := signals[v.at];
    match v
    case MissingKey(_) => s.key == ""
    case MissingReference(_) => s.key != "" && s.observed && !Referenced(s)
    case DuplicateKey(at) => s.key != "" && s.observed && Referenced(s) && SeenBefore(signals, at, s.key)
  }

  /** The inner loop of `validate`: it accepts exactly the signals that pass, and otherwise reports the
      first offending one with the test that it fails. */
  method ValidateSignals(signals: seq<Signal>) returns (v: Verdict)
    ensures v == Accepted <==> SignalsOk(signals)
    ensures v != Accepted ==>
            v.at < |signals| && SignalsOk(signals[..v.at]) && !SignalsOk(signals[..v.at + 1]) && Fails(signals, v)
  {
    var seenKeys: set<string> := {};
    for i := 0 to |signals|
      invariant SignalsOk(signals[..i])
      invariant forall k :: k in seenKeys <==> SeenBefore(signals, i, k)
    {
      var s := signals[i];
      assert signals[..i + 1] == signals[..i] + [s];
      assert signals[..i + 1][i] == s;
      if s.key == "" {
        return MissingKey(i);
      }
      if s.observed {
        if !Referenced(s) {
          return MissingReference(i);
        }
        if s.key in seenKeys {
          var j :| 0 <= j < i && signals[j].observed && signals[j].key == s.key;
          assert signals[..i + 1][j] == signals[j];
          return DuplicateKey(i);
        }
        seenKeys := seenKeys + {s.key};
      }
    }
    assert signals[..|signals|] == signals;
    return Accepted;
  }

  // ---------- the version vector ----------

  datatype Vector = Vector(aggregationMethodVersion: string, qualityModelVersions: map<string, string>)

  datatype VectorResult = Built(vector: Vector) | Conflict(key: string)

  /** The signals of the domains, one domain after the other. */
  function Flatten(domains: seq<string>, byDomain: map<string, seq<Signal>>): seq<Signal>
    requires forall d :: d in domains ==> d in byDomain
  {
    if domains == [] then [] else Flatten(domains[..|domains| - 1], byDomain) + byDomain[domains[|domains| - 1]]
  }

  lemma {:induction false} FlattenMembers(domains: seq<string>, byDomain: map<string, seq<Signal>>, s: Signal)
    requires forall d :: d in domains ==> d in byDomain
    ensures s in Flatten(domains, byDomain) <==> exists d :: d in domains && s in byDomain[d]
  {
    if domains == [] {
    } else {
      var front, last := domains[..|domains| - 1], domains[|domains| - 1];
      FlattenMembers(front, byDomain, s);
      assert domains == front + [last];
    }
  }

  /** All observed entries of one key carry one version. */
  ghost predicate Agree(list: seq<Signal>) {
    forall s, t :: s in list && t in list && s.observed && t.observed && s.key == t.key ==>
        s.qualityModelVersion == t.qualityModelVersion
  }

  /** Two observed entries of this key carry different versions. */
  ghost predicate Disagree(list: seq<Signal>, key: string) {
    exists s, t ::
        s in list && t in list && s.observed && t.observed && s.key == t.key == key
        && s.qualityModelVersion != t.qualityModelVersion
  }

  /** Exactly the observed keys, each with the version of its entries. */
  ghost predicate IsVersionMap(list: seq<Signal>, versions: map<string, string>) {
    && (forall s :: s in list && s.observed ==> s.key in versions && versions[s.key] == s.qualityModelVersion)
    && forall k :: k in versions ==> exists s :: s in list && s.observed && s.key == k
  }

  /** No observed key is a name that every JavaScript object inherits. */
  ghost predicate NoInherited(list: seq<Signal>, inherited: set<string>) {
    forall s :: s in list && s.observed ==> s.key !in inherited
  }

  /** The signals from which a vector can be built. The versions are kept in a plain object, where an
      inherited name is taken for an entry with another version. */
  ghost predicate Buildable(list: seq<Signal>, inherited: set<string>) {
    Agree(list) && NoInherited(list, inherited)
  }

  /** The key is observed with two versions, or it is observed and inherited. */
  ghost predicate Refused(list: seq<Signal>, inherited: set<string>, key: string) {
    Disagree(list, key) || (key in inherited && exists s :: s in list && s.observed && s.key == key)
  }

  lemma RefusedIsNotBuildable(list: seq<Signal>, inherited: set<string>, key: string)
    requires Refused(list, inherited, key)
    ensures !Buildable(list, inherited)
  {
  }

  /** What the fold has seen: a version map of keys that are not inherited. */
  ghost predicate FoldedTo(list: seq<Signal>, inherited: set<string>, versions: map<string, string>) {
    IsVersionMap(list, versions) && NoInherited(list, inherited)
  }

  lemma FoldedIsBuildable(list: seq<Signal>, inherited: set<string>, versions: map<string, string>)
    requires FoldedTo(list, inherited, versions)
    ensures Buildable(list, inherited)
  {
  }

  /** The loop over the signals of one domain; `inherited` holds the names that a plain object has from
      the start. */
  method FoldDomain(ghost before: seq<Signal>, signals: seq<Signal>, inherited: set<string>, start: map<string, string>)
      returns (versions: map<string, string>, conflict: string)
    requires FoldedTo(before, inherited, start) && forall s :: s in signals ==> s.key != ""
    ensures conflict == "" ==> FoldedTo(before + signals, inherited, versions)
    ensures conflict != "" ==> Refused(before + signals, inherited, conflict)
  {
    versions, conflict := start, "";
    for i := 0 to |signals|
      invariant conflict == "" && FoldedTo(before + signals[..i], inherited, versions)
    {
      var s := signals[i];
      ghost var met := before + signals[..i];
      assert before + signals[..i + 1] == met + [s];
      if s.observed {
        if s.key in versions && versions[s.key] != s.qualityModelVersion {
          VersionsDiffer(met, before + signals, s, versions);
          return versions, s.key;
        } else if s.key !in versions && s.key in inherited {
          assert s in before + signals;
          return versions, s.key;
        } else if s.key !in versions {
          versions := versions[s.key := s.qualityModelVersion];
          NewKey(met, s, versions);
        }
      }
    }
    assert signals[..|signals|] == signals;
  }

  lemma VersionsDiffer(met: seq<Signal>, all: seq<Signal>, s: Signal, versions: map<string, string>)
    requires IsVersionMap(met, versions) && (forall t :: t in met ==> t in all) && s in all && s.observed
    requires s.key in versions && versions[s.key] != s.qualityModelVersion
    ensures Disagree(all, s.key)
  {
    var t :| t in met && t.observed && t.key == s.key;
  }

  lemma NewKey(met: seq<Signal>, s: Signal, versions: map<string, string>)
    requires s.observed && s.key in versions && versions[s.key] == s.qualityModelVersion
    requires IsVersionMap(met, versions - {s.key}) && forall t :: t in met && t.observed ==> t.key != s.key
    ensures IsVersionMap(met + [s], versions)
  {
    forall k | k in versions ensures exists t :: t in met + [s] && t.observed && t.key == k {
      if k == s.key {
        assert s in met + [s];
      } else {
        assert k in versions - {s.key};
        var t :| t in met && t.observed && t.key == k;
        assert t in met + [s];
      }
    }
  }

  /** `buildVector`: it succeeds exactly when the observed entries agree and none of their keys is an
      inherited name, with the map they determine. */
  method BuildVector(domains: seq<string>, byDomain: map<string, seq<Signal>>, inherited: set<string>,
                     aggregationMethodVersion: string)
      returns (r: VectorResult)
    requires forall d :: d in domains ==> d in byDomain && forall s :: s in byDomain[d] ==> s.key != ""
    ensures r.Built? <==> Buildable(Flatten(domains, byDomain), inherited)
    ensures r.Conflict? ==> Refused(Flatten(domains, byDomain), inherited, r.key)
    ensures r.Built? ==>
            r.vector.aggregationMethodVersion == aggregationMethodVersion
            && IsVersionMap(Flatten(domains, byDomain), r.vector.qualityModelVersions)
  {
    var versions, conflict := map[], "";
    for i := 0 to |domains|
      invariant conflict == "" && FoldedTo(Flatten(domains[..i], byDomain), inherited, versions)
    {
      assert domains[..i + 1][..i] == domains[..i];
      versions, conflict := FoldDomain(Flatten(domains[..i], byDomain), byDomain[domains[i]], inherited, versions);
      if conflict != "" {
        RefusalStays(domains, byDomain, i + 1, inherited, conflict);
        RefusedIsNotBuildable(Flatten(domains, byDomain), inherited, conflict);
        return Conflict(conflict);
      }
    }
    assert domains[..|domains|] == domains;
    FoldedIsBuildable(Flatten(domains, byDomain), inherited, versions);
    return Built(Vector(aggregationMethodVersion, versions));
  }

  lemma RefusalStays(domains: seq<string>, byDomain: map<string, seq<Signal>>, n: nat, inherited: set<string>,
                     key: string)
    requires n <= |domains| && forall d :: d in domains ==> d in byDomain
    requires Refused(Flatten(domains[..n], byDomain), inherited, key)
    ensures Refused(Flatten(domains, byDomain), inherited, key)
  {
    forall s | s in Flatten(domains[..n], byDomain) ensures s in Flatten(domains, byDomain) {
      FlattenMembers(domains[..n], byDomain, s);
      FlattenMembers(domains, byDomain, s);
    }
  }

  /** One observed signal whose key every object inherits passes validation and agrees with itself, and
      still no vector is built from it. */
  method RefuseInheritedKey(s: Signal, inherited: set<string>) returns (v: Verdict, r: VectorResult)
    requires s.key != "" && s.key in inherited && s.observed && Referenced(s)
    ensures v == Accepted && Agree([s]) && r == Conflict(s.key)
  {
    v := ValidateSignals([s]);
    r := BuildVector(["a"], map["a" := [s]], inherited, "1");
    assert ["a"][..0] == [];
    assert Flatten(["a"], map["a" := [s]]) == [s];
    assert s in [s];
  }

  /** The order of the domains does not matter, neither for success nor for the vector. */
  lemma VectorIgnoresDomainOrder(domains: seq<string>, domains': seq<string>, byDomain: map<string, seq<Signal>>,
                                 inherited: set<string>)
    requires (forall d :: d in domains <==> d in domains') && forall d :: d in domains ==> d in byDomain
    ensures Buildable(Flatten(domains, byDomain), inherited) <==> Buildable(Flatten(domains', byDomain), inherited)
    ensures forall m, m' ::
            IsVersionMap(Flatten(domains, byDomain), m) && IsVersionMap(Flatten(domains', byDomain), m') ==> m == m'
  {
    var a, b := Flatten(domains, byDomain), Flatten(domains', byDomain);
    forall s ensures s in a <==> s in b {
      FlattenMembers(domains, byDomain, s);
      FlattenMembers(domains', byDomain, s);
    }
    forall m, m' | IsVersionMap(a, m) && IsVersionMap(b, m') ensures m == m' { }
  }

  // ---------- the manifest entries of a domain ----------

  datatype ManifestEntry = ManifestEntry(key: string, qualityModelVersion: string, collectedAt: string,
      sourceRowRef: string)

  function EntryOf(s: Signal): ManifestEntry {
    ManifestEntry(s.key, s.qualityModelVersion, s.collectedAt, s.sourceRowRef)
  }

  function ObservedOnes(signals: seq<Signal>): seq<Signal> {
    if signals == [] then []
    else
      var last := signals[|signals| - 1];
      ObservedOnes(signals[..|signals| - 1]) + if last.observed then [last] else []
  }

  predicate ByKey(less: (string, string) -> bool, a: Signal, b: Signal) {
    less(a.key, b.key)
  }

  function InKeyOrder(less: (string, string) -> bool, signals: seq<Signal>): seq<Signal> {
    SortBy((a, b) => ByKey(less, a, b), ObservedOnes(signals))
  }

  /** `observedSorted`. */
  function ObservedSorted(less: (string, string) -> bool, signals: seq<Signal>): seq<ManifestEntry> {
    var sorted := InKeyOrder(less, signals);
    seq(|sorted|, i requires 0 <= i < |sorted| => EntryOf(sorted[i]))
  }

  lemma {:induction false} ObservedMembers(signals: seq<Signal>)
    requires SignalsOk(signals)
    ensures forall s :: s in ObservedOnes(signals) <==> s in signals && s.observed
    ensures NoDuplicates(ObservedOnes(signals))
  {
    if signals == [] {
    } else {
      var front, last := signals[..|signals| - 1], signals[|signals| - 1];
      assert forall i :: 0 <= i < |front| ==> front[i] == signals[i];
      ObservedMembers(front);
      assert signals == front + [last];
    }
  }

  lemma SortedStrictly(less: (string, string) -> bool, signals: seq<Signal>)
    requires StrictTotal(less) && SignalsOk(signals)
    ensures var sorted := InKeyOrder(less, signals);
            && (forall s :: s in sorted <==> s in signals && s.observed)
            && forall i, j :: 0 <= i < j < |sorted| ==> less(sorted[i].key, sorted[j].key)
  {
    var byKey := (a, b) => ByKey(less, a, b);
    var observed, sorted := ObservedOnes(signals), InKeyOrder(less, signals);
    ObservedMembers(signals);
    StrictTotalIsWeak(less);
    assert StrictWeak(byKey);
    SortIsPermutation(byKey, observed);
    SortIsSorted(byKey, observed);
    SameMembers(sorted, observed);
    NoDuplicatesTransfers(observed, sorted);
    forall i, j | 0 <= i < j < |sorted| ensures less(sorted[i].key, sorted[j].key) {
      assert sorted[i] in signals && sorted[j] in signals && sorted[i] != sorted[j];
      assert !byKey(sorted[j], sorted[i]);
    }
  }

  /** The manifest lists exactly the observed signals, each with its own version, time and row. */
  lemma ManifestLists(less: (string, string) -> bool, signals: seq<Signal>, e: ManifestEntry)
    requires StrictTotal(less) && SignalsOk(signals)
    ensures e in ObservedSorted(less, signals) <==>
            exists s :: s in signals && s.observed && s.key == e.key && s.qualityModelVersion == e.qualityModelVersion
                        && s.collectedAt == e.collectedAt && s.sourceRowRef == e.sourceRowRef
  {
    SortedStrictly(less, signals);
    var sorted, entries := InKeyOrder(less, signals), ObservedSorted(less, signals);
    if e in entries {
      var i :| 0 <= i < |entries| && entries[i] == e;
      assert sorted[i] in sorted;
    }
    if s :| s in signals && s.observed && s.key == e.key && s.qualityModelVersion == e.qualityModelVersion
            && s.collectedAt == e.collectedAt && s.sourceRowRef == e.sourceRowRef {
      assert s in sorted;
      var i :| 0 <= i < |sorted| && sorted[i] == s;
      assert entries[i] == e;
    }
  }

  /** For validated signals the manifest lists exactly the observed ones, strictly by key, so it does
      not depend on the order in which they were supplied. */
  lemma ManifestIgnoresSignalOrder(less: (string, string) -> bool, signals: seq<Signal>, signals': seq<Signal>)
    requires StrictTotal(less) && SignalsOk(signals) && SignalsOk(signals') && forall s ::
             s in signals <==> s in signals'
    ensures ObservedSorted(less, signals) == ObservedSorted(less, signals')
  {
    SortedStrictly(less, signals);
    SortedStrictly(less, signals');
    StrictlySortedIsUnique((s, t) => ByKey(less, s, t), InKeyOrder(less, signals), InKeyOrder(less, signals'));
  }
}
