/** The data model of the Repository Authority build: source records and their strong identifiers. */
module Records {

  datatype Option<+T> = None | Some(value: T)

  /** The nine strong identifier schemes, named as in `r.k` of authority/build.js. */
  datatype Scheme = Cn | Frn | Sra | FrcAudit | HmrcAml | PbsFirm | Ukprn | Uuid | Lei

  /** The order in which the merge loop unites a record with its identifiers, which is also the
      precedence order of organisation/identity.js. */
  const SCHEMES: seq<Scheme> := [Cn, Frn, Sra, FrcAudit, HmrcAml, PbsFirm, Ukprn, Uuid, Lei]

  /** The schemes that organisations.ndjson publishes and the integrity report checks (no `uuid`). */
  const PUBLISHED: seq<Scheme> := [Cn, Frn, Sra, FrcAudit, HmrcAml, PbsFirm, Ukprn, Lei]

  lemma EverySchemeIsListed(s: Scheme)
    ensures s in SCHEMES
    ensures s in PUBLISHED <==> s != Uuid
  {
    match s
    case Cn => assert SCHEMES[0] == s && PUBLISHED[0] == s;
    case Frn => assert SCHEMES[1] == s && PUBLISHED[1] == s;
    case Sra => assert SCHEMES[2] == s && PUBLISHED[2] == s;
    case FrcAudit => assert SCHEMES[3] == s && PUBLISHED[3] == s;
    case HmrcAml => assert SCHEMES[4] == s && PUBLISHED[4] == s;
    case PbsFirm => assert SCHEMES[5] == s && PUBLISHED[5] == s;
    case Ukprn => assert SCHEMES[6] == s && PUBLISHED[6] == s;
    case Uuid => assert SCHEMES[7] == s;
    case Lei => assert SCHEMES[8] == s && PUBLISHED[7] == s;
  }

  /** A loaded record after normalisation: `ids` holds the non-null members of `r.k`, `domain` is
      null or a normalised domain, and a null `domainPriority` marks an unapproved manual domain.
      `details` stands for the rest of the record, from which a name is chosen. */
  datatype SourceRecord = SourceRecord(
    ids: map<Scheme, string>,
    domain: Option<string>,
    domainPriority: Option<int>,
    noDomainAsserted: bool,
    details: string)

  /** The records of a group, in the order of the group. */
  function RecordsAt(records: seq<SourceRecord>, group: seq<nat>): seq<SourceRecord> {
    if group == [] then []
    else
      var i := group[|group| - 1];
      RecordsAt(records, group[..|group| - 1]) + if i < |records| then [records[i]] else []
  }

  /** The records of a group stand in the order of its members. */
  lemma {:induction false} RecordsAtAre(records: seq<SourceRecord>, group: seq<nat>)
    requires forall k :: 0 <= k < |group| ==> group[k] < |records|
    ensures |RecordsAt(records, group)| == |group|
    ensures forall k :: 0 <= k < |group| ==> RecordsAt(records, group)[k] == records[group[k]]
  {
    if group == [] {
    } else {
      var n := |group| - 1;
      RecordsAtAre(records, group[..n]);
      assert RecordsAt(records, group) == RecordsAt(records, group[..n]) + [records[group[n]]];
    }
  }
}
