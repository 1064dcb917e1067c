/** organisation/identity.js and section 4 of authority/build.js: the primary key of an organisation
    and the assignment of collision-safe ids. SHA-1 is an arbitrary function. */
module Identity {
  import opened Records

  function Prefix(s: Scheme): string {
    match s
    case Cn => "cn"
    case Frn => "frn"
    case Sra => "sra"
    case FrcAudit => "frcAudit"
    case HmrcAml => "hmrcAml"
    case PbsFirm => "pbsFirm"
    case Ukprn => "ukprn"
    case Uuid => "uuid"
    case Lei => "lei"
  }

  function KeyOf(s: Scheme, v: string): string {
    Prefix(s) + ":" + v
  }

  /** The first scheme of the precedence list that the organisation carries. */
  function Strongest(ids: map<Scheme, string>, schemes: seq<Scheme>): Option<Scheme> {
    if schemes == [] then None
    else if schemes[0] in ids then Some(schemes[0])
    else Strongest(ids, schemes[1..])
  }

  function PrimaryKey(ids: map<Scheme, string>, name: string, domain: string, sha: string -> string): string {
    match Strongest(ids, SCHEMES)
    case Some(s) => if s in ids then KeyOf(s, ids[s]) else ""
    case None => "nd:" + sha(name + "|" + domain)
  }

  lemma {:induction false} StrongestIsCarried(ids: map<Scheme, string>, schemes: seq<Scheme>)
    ensures Strongest(ids, schemes).Some? ==> Strongest(ids, schemes).value in ids
    ensures Strongest(ids, schemes).None? <==> forall s :: s in schemes ==> s !in ids
  {
    if schemes == [] {
    } else {
      StrongestIsCarried(ids, schemes[1..]);
    }
  }

  /** The order of precedence in full. */
  lemma StrongestIs(ids: map<Scheme, string>)
    ensures Strongest(ids, SCHEMES) ==
            if Cn in ids then Some(Cn)
            else if Frn in ids then Some(Frn)
            else if Sra in ids then Some(Sra)
            else if FrcAudit in ids then Some(FrcAudit)
            else if HmrcAml in ids then Some(HmrcAml)
            else if PbsFirm in ids then Some(PbsFirm)
            else if Ukprn in ids then Some(Ukprn)
            else if Uuid in ids then Some(Uuid)
            else if Scheme.Lei in ids then Some(Scheme.Lei)
            else None
  {
    StrongestIsCarried(ids, SCHEMES);
    if Strongest(ids, SCHEMES).Some? {
      StrongestIsFirst(ids, SCHEMES);
      assert SCHEMES[0] == Cn && SCHEMES[1] == Frn && SCHEMES[2] == Sra && SCHEMES[3] == FrcAudit;
      assert SCHEMES[4] == HmrcAml && SCHEMES[5] == PbsFirm && SCHEMES[6] == Ukprn && SCHEMES[7] == Uuid;
      assert SCHEMES[8] == Scheme.Lei;
    } else {
      forall s: Scheme ensures s !in ids { EverySchemeIsListed(s); }
    }
  }

  /** The primary key in full: the strongest identifier, named by its scheme. */
  lemma PrimaryKeyIs(ids: map<Scheme, string>, name: string, domain: string, sha: string -> string)
    ensures PrimaryKey(ids, name, domain, sha) ==
            if Cn in ids then "cn:" + ids[Cn]
            else if Frn in ids then "frn:" + ids[Frn]
            else if Sra in ids then "sra:" + ids[Sra]
            else if FrcAudit in ids then "frcAudit:" + ids[FrcAudit]
            else if HmrcAml in ids then "hmrcAml:" + ids[HmrcAml]
            else if PbsFirm in ids then "pbsFirm:" + ids[PbsFirm]
            else if Ukprn in ids then "ukprn:" + ids[Ukprn]
            else if Uuid in ids then "uuid:" + ids[Uuid]
            else if Scheme.Lei in ids then "lei:" + ids[Scheme.Lei]
            else "nd:" + sha(name + "|" + domain)
  {
    StrongestIs(ids);
    if Strongest(ids, SCHEMES).Some? {
      KeyTexts(Strongest(ids, SCHEMES).value, ids[Strongest(ids, SCHEMES).value]);
    }
  }

  lemma KeyTexts(s: Scheme, v: string)
    ensures KeyOf(s, v) ==
            match s
            case Cn => "cn:" + v
            case Frn => "frn:" + v
            case Sra => "sra:" + v
            case FrcAudit => "frcAudit:" + v
            case HmrcAml => "hmrcAml:" + v
            case PbsFirm => "pbsFirm:" + v
            case Ukprn => "ukprn:" + v
            case Uuid => "uuid:" + v
            case Lei => "lei:" + v
  {
    match s
    case Cn => assert "cn" + ":" == "cn:";
    case Frn => assert "frn" + ":" == "frn:";
    case Sra => assert "sra" + ":" == "sra:";
    case FrcAudit => assert "frcAudit" + ":" == "frcAudit:";
    case HmrcAml => assert "hmrcAml" + ":" == "hmrcAml:";
    case PbsFirm => assert "pbsFirm" + ":" == "pbsFirm:";
    case Ukprn => assert "ukprn" + ":" == "ukprn:";
    case Uuid => assert "uuid" + ":" == "uuid:";
    case Lei => assert "lei" + ":" == "lei:";
  }

  lemma {:induction false} StrongestIsFirst(ids: map<Scheme, string>, schemes: seq<Scheme>)
    requires Strongest(ids, schemes).Some?
    ensures exists n :: 0 <= n < |schemes| && schemes[n] == Strongest(ids, schemes).value && schemes[n] in ids
                        && forall k :: 0 <= k < n ==> schemes[k] !in ids
  {
    if schemes[0] in ids {
      assert schemes[0] == Strongest(ids, schemes).value;
    } else {
      StrongestIsFirst(ids, schemes[1..]);
      var n :| 0 <= n < |schemes[1..]| && schemes[1..][n] == Strongest(ids, schemes).value && schemes[1..][n] in ids
               && forall k :: 0 <= k < n ==> schemes[1..][k] !in ids;
      forall k | 0 <= k < n + 1 ensures schemes[k] !in ids {
        if k > 0 { assert schemes[1..][k - 1] == schemes[k]; }
      }
      assert schemes[n + 1] == schemes[1..][n];
    }
  }

  // ---------- a printed key determines its scheme and its value ----------

  function UpToColon(s: string): string {
    if s == "" || s[0] == ':' then "" else [s[0]] + UpToColon(s[1..])
  }

  lemma {:induction false} UpToColonOfKey(p: string, v: string)
    requires ':' !in p
    ensures UpToColon(p + ":" + v) == p
  {
    var s := p + ":" + v;
    if p != "" {
      assert s[0] == p[0] && s[1..] == p[1..] + ":" + v;
      UpToColonOfKey(p[1..], v);
    } else {
      assert s[0] == ':';
    }
  }

  lemma KeyIsInjective(s: Scheme, v: string, t: Scheme, w: string)
    requires KeyOf(s, v) == KeyOf(t, w)
    ensures s == t && v == w
  {
    UpToColonOfKey(Prefix(s), v);
    UpToColonOfKey(Prefix(t), w);
    assert v == KeyOf(s, v)[|Prefix(s)| + 1..] && w == KeyOf(t, w)[|Prefix(t)| + 1..];
  }

  lemma KeylessIsNotStrong(s: Scheme, v: string, h: string)
    ensures KeyOf(s, v) != "nd:" + h
  {
    UpToColonOfKey(Prefix(s), v);
    UpToColonOfKey("nd", h);
    assert "nd:" + h == "nd" + ":" + h;
  }

  // ---------- decimal suffixes ----------

  function Digit(d: nat): char
    requires d < 10
  {
    ['0', '1', '2', '3', '4', '5', '6', '7', '8', '9'][d]
  }

  function Decimal(n: nat): string {
    if n < 10 then [Digit(n)] else Decimal(n / 10) + [Digit(n % 10)]
  }

  lemma {:induction false} DecimalIsDigits(n: nat)
    ensures Decimal(n) != "" && forall i :: 0 <= i < |Decimal(n)| ==> '0' <= Decimal(n)[i] <= '9'
  {
    if n < 10 {
    } else {
      DecimalIsDigits(n / 10);
    }
  }

  lemma {:induction false} DecimalIsInjective(m: nat, n: nat)
    requires Decimal(m) == Decimal(n)
    ensures m == n
    decreases m
  {
    assert Decimal(m)[|Decimal(m)| - 1] == Digit(m % 10);
    assert Decimal(n)[|Decimal(n)| - 1] == Digit(n % 10);
    if m >= 10 && n >= 10 {
      assert Decimal(m / 10) == Decimal(m)[..|Decimal(m)| - 1];
      assert Decimal(n / 10) == Decimal(n)[..|Decimal(n)| - 1];
      DecimalIsInjective(m / 10, n / 10);
    }
  }

  function Suffixed(base: string, n: nat): string {
    base + "-" + Decimal(n)
  }

  lemma SuffixedIsInjective(base: string, m: nat, n: nat)
    requires Suffixed(base, m) == Suffixed(base, n)
    ensures m == n
  {
    assert Decimal(m) == Suffixed(base, m)[|base| + 1..] && Decimal(n) == Suffixed(base, n)[|base| + 1..];
    DecimalIsInjective(m, n);
  }

  // ---------- assigning ids ----------

  function BaseId(pk: string, hash: string -> string): string {
    "ORG-" + hash(pk)
  }

  /** The id of the i-th organisation: its base id, or the first free suffix from 2 on. */
  ghost predicate IdAssigned(pks: seq<string>, hash: string -> string, ids: seq<string>, i: nat)
    requires i < |pks| && i < |ids|
  {
    var base := BaseId(pks[i], hash);
    if base !in ids[..i] then ids[i] == base
    else exists n: nat :: 2 <= n && ids[i] == Suffixed(base, n) && ids[i] !in ids[..i] &&
           forall m: nat :: 2 <= m < n ==> Suffixed(base, m) in ids[..i]
  }

  lemma {:induction false} SeenSuffixesAreFew(base: string, seen: set<string>, n: nat)
    requires 2 <= n && forall m: nat :: 2 <= m < n ==> Suffixed(base, m) in seen
    ensures n - 2 <= |seen|
    decreases n
  {
    if n == 2 {
    } else {
      var top := Suffixed(base, n - 1);
      forall m: nat | 2 <= m < n - 1 ensures Suffixed(base, m) in seen - {top} {
        if Suffixed(base, m) == top { SuffixedIsInjective(base, m, n - 1); }
      }
      SeenSuffixesAreFew(base, seen - {top}, n - 1);
    }
  }

  /** The suffix loop for one organisation: the first id that is still free. */
  method FreeId(base: string, seen: set<string>) returns (id: string)
    ensures id !in seen
    ensures base !in seen ==> id == base
    ensures base in seen ==> exists n: nat :: 2 <= n && id == Suffixed(base, n) && forall m: nat :: 2 <= m < n ==>
            Suffixed(base, m) in seen
  {
    id := base;
    if id in seen {
      var n := 2;
      while Suffixed(base, n) in seen
        invariant n >= 2 && forall m: nat :: 2 <= m < n ==> Suffixed(base, m) in seen
        decreases |seen| + 2 - n
      {
        SeenSuffixesAreFew(base, seen, n + 1);
        n := n + 1;
      }
      id := Suffixed(base, n);
    }
  }

  /** Section 4: ids are pairwise distinct for every hash function. */
  method AssignIds(pks: seq<string>, hash: string -> string) returns (ids: seq<string>)
    ensures |ids| == |pks|
    ensures forall i, j :: 0 <= i < j < |ids| ==> ids[i] != ids[j]
    ensures forall i :: 0 <= i < |ids| ==> IdAssigned(pks, hash, ids, i)
  {
    ids := [];
    var seen: set<string> := {};
    for i := 0 to |pks|
      invariant |ids| == i && (forall x :: x in seen <==> x in ids)
      invariant forall a, b :: 0 <= a < b < i ==> ids[a] != ids[b]
      invariant forall a :: 0 <= a < i ==> IdAssigned(pks, hash, ids, a)
    {
      var id := FreeId(BaseId(pks[i], hash), seen);
      assert (ids + [id])[..i] == ids;
      AssignedStays(pks, hash, ids, id);
      seen := seen + {id};
      ids := ids + [id];
    }
  }

  lemma AssignedStays(pks: seq<string>, hash: string -> string, ids: seq<string>, id: string)
    requires |ids| < |pks|
    requires forall a :: 0 <= a < |ids| ==> IdAssigned(pks, hash, ids, a)
    ensures forall a :: 0 <= a < |ids| ==> IdAssigned(pks, hash, ids + [id], a)
  {
    forall a | 0 <= a < |ids| ensures IdAssigned(pks, hash, ids + [id], a) {
      assert (ids + [id])[..a] == ids[..a];
      assert IdAssigned(pks, hash, ids, a);
    }
  }

  /** The keys in use have different digests of one length. */
  ghost predicate HashSeparates(hash: string -> string, pks: seq<string>) {
    && (forall a, b :: 0 <= a < |pks| && 0 <= b < |pks| && hash(pks[a]) == hash(pks[b]) ==> pks[a] == pks[b])
    && (forall a, b :: 0 <= a < |pks| && 0 <= b < |pks| ==> |hash(pks[a])| == |hash(pks[b])|)
  }

  ghost predicate AllAssigned(pks: seq<string>, hash: string -> string, ids: seq<string>) {
    |ids| == |pks| && forall i :: 0 <= i < |ids| ==> IdAssigned(pks, hash, ids, i)
  }

  /** An id that is the base id of a key belongs to an organisation with that key. */
  lemma BaseIdTellsKey(pks: seq<string>, hash: string -> string, ids: seq<string>, a: nat, i: nat)
    requires AllAssigned(pks, hash, ids) && HashSeparates(hash, pks) && a < |ids| && i < |ids|
    requires ids[a] == BaseId(pks[i], hash)
    ensures pks[a] == pks[i]
  {
    assert IdAssigned(pks, hash, ids, a);
    var base := BaseId(pks[a], hash);
    assert base[4..] == hash(pks[a]) && BaseId(pks[i], hash)[4..] == hash(pks[i]);
    assert |base| == |BaseId(pks[i], hash)|;
  }

  /** When the keys in use hash apart, an organisation keeps the unsuffixed id exactly when no
      organisation before it in the sorted list has its primary key. */
  lemma {:induction false} BaseIdIffFirst(pks: seq<string>, hash: string -> string, ids: seq<string>, i: nat)
    requires AllAssigned(pks, hash, ids) && HashSeparates(hash, pks) && i < |ids|
    ensures ids[i] == "ORG-" + hash(pks[i]) <==> pks[i] !in pks[..i]
    decreases i
  {
    assert IdAssigned(pks, hash, ids, i);
    if pks[i] in pks[..i] {
      var a := FirstWithKey(pks, i);
      BaseIdIffFirst(pks, hash, ids, a);
      assert ids[..i][a] == BaseId(pks[i], hash);
    } else {
      forall a | 0 <= a < i ensures ids[a] != BaseId(pks[i], hash) {
        assert pks[..i][a] == pks[a];
        if ids[a] == BaseId(pks[i], hash) { BaseIdTellsKey(pks, hash, ids, a, i); }
      }
    }
  }

  /** The first organisation with the key of the i-th. */
  lemma {:induction false} FirstWithKey(pks: seq<string>, i: nat) returns (a: nat)
    requires i < |pks|
    ensures a <= i && pks[a] == pks[i] && pks[a] !in pks[..a] && (pks[i] in pks[..i] ==> a < i)
    decreases i
  {
    if pks[i] in pks[..i] {
      var b :| 0 <= b < i && pks[..i][b] == pks[i];
      a := FirstWithKey(pks, b);
    } else {
      a := i;
    }
  }
}
