# Verified model of the organisation authority and its observatory

This project models five parts of the repository in Dafny and proves what they promise. To verify it, run
`dafny verify dfyconfig.toml` in this directory.

**The authority build** (`UnionFinds`, `Merge`, `Identity`, `Organisations`, `Domains`, `Build`,
`Keyless`, `Rebuild`, `Integrity`, `Normalise`, `Resolve`, `Lookup`). Source records that share a strong identifier are merged
with a mutable union-find; every class becomes one organisation with a collision-safe id; every domain
gets one owner; the published rows are indexed for lookups. `UnionFind` is a class with the two Maps of
the original and two ghost maps that describe them. Everything after it rests on one fact, that two
records end up in one group exactly when a chain of shared identifiers joins them: zero collisions,
unique ids and verified domains, and unambiguous lookups follow for every input, and ids, owners and
statuses that rest on strong identifiers survive any reordering of the sources.

**Exactly-once acquisition** (`Lifecycle`, `Ledgers`, `Acquisition`, `Processor`). Every durable append,
to the ledger or to the registry, is one action of a journal. `Processor` holds the imperative methods
over the ledger object. The methods for one company append exactly the actions that `Acquisition`
describes as a function of the I/O answers, and the two drivers leave exactly the run of the calls they
make. A crash leaves any prefix of a call's actions, and the next call reopens the files.
`EveryRunIsSafe` is the main result, which the drivers inherit; `CompletesLaterIff` says which
interrupted companies can still be completed, and which are abandoned.

**The stratified sampler** (`Apportionment`, `Selection`, `Floors`, `Sampler`). One representative per
registration, largest-remainder apportionment with floors and caps, and a two-pass greedy selection under
shared capacities. The targets are characterised so sharply that nothing is left to choose; the report of
unreachable floors is proved to describe the finished sample, and a floor to be missed only when it was
out of reach at its turn.

**Pools and bounded retries** (`Pools`, `Completion`). The worker pools are a state machine whose steps
lie between two awaits; whatever the schedule, the end is that of the sequential run. The completion loop
is a class with its state file; its termination measure survives pauses.

**Encodings and arithmetic** (`Canonical`, `Reading`, `Provenance`, `TrustScore`, `Lei`, `Csv`). Canonical JSON
text and an independent reader of it, the version vector, a weighted score with rounding, LEI check
digits, and a CSV printer with two parsers.

`Orders` and `Records` hold strict total orders, a stable sort and the shared data types.

Strings are sequences of characters. The code-unit order of `sort` and the order of `localeCompare` are
two strict total orders given as parameters (`less` and `locale` of a `World`), and SHA-1 is any
function. Answers of the network and the database are parameters (`Io`, `Processor.Lookup`, `Answer`,
`BatchAnswer`), so a result holds for all of them.

Where the code and its comments disagree, the model follows the code:

- authority/lib/unionfind.js:3-6 promises the least key of a set as its representative. The code keeps
  the root of the larger class. `LeastRootsAlwaysIff` says for which sequences of calls the promise holds
  throughout, `RepresentativeNeedNotBeLeast` shows one for which it fails. The partition, which is all
  that the build uses, does not depend on it.
- organisation/identity.js:5-7 promises that an organisation always resolves to the same id, in the batch
  build and in the live lookup. A group may carry several values of a scheme and publishes only the
  least, so a live lookup by another of its values computes a new id. `ResolveCarried` says exactly when,
  `LookUpOtherNumber` builds such a dataset from two records and looks the other number up.
- authority/build.js:162-163 calls the ids stable across rebuilds and independent of record order. Two
  records without identifiers that share name and domain share a key, and the suffix goes to the later
  one. `RebuildKeepsOwnIds` says whose ids are stable, `RebuildMovesSharedIds` how the others move.
- observatory/baseline/complete.js:14-16 promises that any interruption resumes cleanly. Attempts are
  saved only after a batch, so a crash inside a batch gives its domains one more run.
  `RunsAreBounded` counts it exactly, `CrashCostsAnAttempt` shows it.
- observatory/baseline/complete.js:116-126 counts attempts in a plain object. A domain named like a
  property that every object inherits, such as "constructor", never gets a number there and is never
  given up. The bounds hold for all other domains; `InheritedNameNeverEnds` shows the loop without end.
- trust-intelligence/provenance.js:99-107 keeps the versions in a plain object too, and reports a version
  conflict for an observed key of such a name. `BuildVector` says exactly when it succeeds,
  `RefuseInheritedKey` shows the lone key that is refused.
- observatory/collection/collection-session.js:128-134 counts an insert that returns neither a row nor an
  error both as persisted and as failed. `CountersCover` says when the counters add up to the total.
- domain-discovery-pilot/sampling/sample-candidates.js:58-60 calls the fallback key of an unnumbered row
  unique. `SameGroupIff` says exactly when it is not.
- A retry of a failed company is legal, but no caller in the repository retries a company interrupted
  between its claim and its outcome unless it was ambiguous before; `CompletesLaterIff` states this.

## Model

| member | source | states |
|---|---|---|
| UnionFinds.UnionFind.constructor | authority/lib/unionfind.js:9-12 | an empty structure: no key, no request |
| UnionFinds.UnionFind.Add | authority/lib/unionfind.js:14-20 | a new key becomes its own class of size 1; a known key changes nothing |
| UnionFinds.UnionFind.Find | authority/lib/unionfind.js:22-34 | returns the root of the class; both loops end; compression changes no representative and no size; the walk is at most log2 of the class size |
| UnionFinds.UnionFind.Compress | authority/lib/unionfind.js:26-32 | the compression loop alone: it ends, keeps the forest acyclic and leaves every key with its root |
| UnionFinds.UnionFind.Union | authority/lib/unionfind.js:36-48 | merges exactly the two classes under the root of the larger one, adds the sizes, and keeps "same root if and only if linked by the requests" |
| UnionFinds.Replay | authority/lib/unionfind.js:8-48 | any sequence of add, find and union calls keeps the invariant and leaves exactly its unions as requests |
| UnionFinds.SameRoot | authority/lib/unionfind.js:22-48 | after any sequence of add, find and union calls two keys have one root if and only if the calls link them |
| UnionFinds.LabelsRespectLinks | authority/lib/unionfind.js:36-48 | the closure of the requests is the least one: anything constant on every request is constant on every linked pair |
| UnionFinds.LinkKeepsForest | authority/lib/unionfind.js:45-46 | hanging the smaller root below the larger keeps an acyclic forest whose root sizes are class cardinalities and whose chains are logarithmic |
| UnionFinds.LinkKeepsJustified | authority/lib/unionfind.js:45-46 | after a merge two keys share a root exactly when the requests, with the new one, link them |
| UnionFinds.CompressKeepsForest | authority/lib/unionfind.js:26-32 | redirecting one node to its root keeps every part of the forest invariant |
| UnionFinds.ChainIsLogarithmic | authority/lib/unionfind.js:22-48 | 2 to the length of any parent chain is at most the cardinality of its class |
| UnionFinds.WinnerIgnoresArgumentOrder | authority/lib/unionfind.js:40-44 | which root survives does not depend on the order of the two arguments |
| UnionFinds.OpKeepsLeastRootsIff | authority/lib/unionfind.js:3-6 | the header says the representative of a set is its least key: when all representatives are least, one call keeps them so if and only if it does not hang a lesser root below the root of a strictly larger class |
| UnionFinds.LeastRootsAlwaysIff | authority/lib/unionfind.js:3-6 | over any sequence of calls every representative is least at all times if and only if no union in it hangs a lesser root below a strictly larger class |
| UnionFinds.RepresentativeNeedNotBeLeast | authority/lib/unionfind.js:3-6 | three keys whose representative is not the least one |
| Merge.RequestsLinkOrganisations | authority/build.js:100-115 | two records are linked by union requests exactly when a chain of records, each sharing a strong identifier with the next, joins them |
| Merge.MergeRecords | authority/build.js:100-115 | the merge loop requests exactly one union per record and strong identifier |
| Merge.GroupRecords | authority/build.js:117-124 | the grouping loop: every record in one group, and two records share a group exactly when identifiers chain them together |
| Merge.GroupByRoot | authority/build.js:119-124 | the Map from root to records, with its keys in insertion order and each list in source order |
| Merge.ReorderedGrouping | authority/build.js:254-254 | sorting the organisations keeps them the classes of the merge |
| Identity.KeyIsInjective | organisation/identity.js:68-79 | primary keys of different schemes or values are different strings |
| Identity.StrongestIsCarried | organisation/identity.js:68-79 | the precedence picks a scheme the organisation carries, and falls through to name and domain exactly when it carries none |
| Identity.PrimaryKeyIs | organisation/identity.js:68-79 | the key in full: company number, else FRN, SRA number, FRC audit, HMRC, PBS firm, UKPRN, uuid, LEI, each under its own name, else the hash of name and domain |
| Identity.FreeId | authority/build.js:258-262 | the suffix loop ends with an unused id: the base id if free, else the least free suffix from 2 |
| Identity.AssignIds | authority/build.js:251-266 | assigned ids are pairwise distinct for every hash function, collisions included |
| Identity.BaseIdIffFirst | authority/build.js:251-266 | when the keys in use hash apart, an organisation has the unsuffixed id if and only if no organisation before it in key order has its primary key |
| Organisations.GroupsShareNoValue | authority/build.js:100-124 | no value of any scheme is carried by records of two groups |
| Records.RecordsAtAre | authority/build.js:169-195 | the records of a group, from which its name is chosen, stand in the order of its members |
| Organisations.CountCollisions | authority/integrity-report.js:152-213 | the recomputed count is the number of published identifiers held by two different organisations |
| Organisations.PublishedRowsNeverCollide | authority/integrity-report.js:210-213 | for every input no identifier of any published scheme is held by two organisations |
| Integrity.ReconstructsIff | authority/integrity-report.js:171-206 | the id of an organisation can be computed again from its published row if and only if it does not rest on a uuid; a keyless one always can |
| Integrity.ListNonReconstructable | authority/integrity-report.js:171-206 | the report counts the rows that pass the test and lists the others, which are those that rest on a uuid |
| Organisations.StrongKeyIsUnique | organisation/identity.js:68-79 | an organisation with a strong identifier shares its primary key with no other |
| Organisations.ReorderingKeepsIdentifiers | authority/build.js:170-187 | the identifiers of a record's organisation are the same for every order of the source records |
| Organisations.AnchoredIdsIgnoreRecordOrder | authority/build.js:250-266 | if the hash separates the keys in use, every organisation with a strong identifier gets the same unsuffixed id in any record order |
| Domains.CollectCandidates | authority/build.js:197-211 | per domain the first proposal with the lowest priority number, complete, without duplicates, by rising priority number and then by domain |
| Domains.AssignOwners | authority/build.js:272-285 | every claimed domain gets the least claimant by priority and id; the contest lists exactly the losing claimants |
| Domains.OneOwner | authority/build.js:281-285 | the least claim on a domain is unique |
| Domains.AuthoritativeClaimWins | authority/build.js:202-207 | with source priorities below 99, one authoritative claimant anywhere makes the owner's claim authoritative |
| Domains.DecideStatuses | authority/build.js:300-330 | VERIFIED with the first authoritative owned domain, else NO_DOMAIN if asserted, else PENDING |
| Domains.VerifiedDomainsAreUnique | authority/build.js:313-315 | no two VERIFIED organisations share a verified domain |
| Domains.AuthoritativeDomainVerifiesItsOwner | authority/build.js:301-321 | a domain with an authoritative claim makes its owner VERIFIED |
| Domains.ObservedDomainsSplit | authority/build.js:332-335 | observed domains split exactly into orphans and those attached to one owner; nothing is counted twice |
| Build.DraftOrganisation | authority/build.js:169-246 | per group: the least value of every scheme, its candidates by rising priority number and then by domain, the primary key of these identifiers or of its name and first domain, and the no-domain assertion |
| Build.IdentifierMapIsLeast | authority/build.js:171-187 | sorting the distinct values and taking the first yields the least value, for every scheme |
| Build.SortDrafts | authority/build.js:252-254 | the organisations in primary key order are still the classes of the merge, each with its own identifiers; those with one key keep the order of their first records |
| Build.BuildDataset | authority/build.js:100-330 | the whole build: groups are the merge classes by rising primary key, ids distinct, candidates by rising priority number, owners least with the losers as contests, statuses decided, and the collision count is 0 for every input |
| Build.DatasetVerifiesEachDomainOnce | authority/build.js:300-330 | in every dataset the build emits, verified domains are unique |
| Build.ApprovedDomainIsVerified | authority/build.js:198-321 | a domain that any record proposes with an approved priority ends up verifying its owner |
| Build.VerifiedIffBestRanked | authority/build.js:300-321 | an organisation is VERIFIED with a domain if and only if it is an authoritative candidate that it owns and every other one of these has a higher priority number, or the same and a later domain |
| Build.CandidatesRise | authority/build.js:211-211 | in every dataset the candidates of an organisation stand by rising priority number, those of one priority in the order of their domains |
| Build.VerifiedWithLowestPriority | authority/build.js:300-321 | the candidate an organisation is VERIFIED with, and that no other owned authoritative candidate has a lower priority number, or the same and an earlier domain |
| Rebuild.RebuildKeepsAnchoredIds | authority/build.js:249-266 | rebuilding from reordered records gives the organisation of every record with a strong identifier the same id |
| Keyless.KeylessStandsAlone | authority/build.js:100-124 | a record without a strong identifier is an organisation of its own |
| Keyless.KeylessIdIffFirst | authority/build.js:251-266 | a keyless organisation has the unsuffixed id if and only if no earlier record without identifiers has its name and domain |
| Rebuild.RebuildKeepsOwnIds | authority/build.js:162-163 | the comment says ids are stable across rebuilds and independent of record order; this holds for every record that carries an identifier or shares its name and domain with no other record that carries none |
| Rebuild.RebuildMovesSharedIds | authority/build.js:162-163 | of records without identifiers that share name and domain the first has the unsuffixed id, and every order that moves another before it gives it a different id |
| Rebuild.RebuildKeepsCandidates | authority/build.js:197-211 | its ranked candidate list is the same in every order of the records |
| Rebuild.RebuildKeepsOwner | authority/build.js:272-285 | a domain has the same owner, or none, in every order of the records, when every record that proposes it carries a strong identifier or shares its name and domain with no other record without one |
| Rebuild.RebuildKeepsStatus | authority/build.js:300-330 | an organisation of such a record whose candidate domains are all of that kind keeps its id, its candidates, its status and its verified domain in every order of the records |
| Lookup.DatasetIsResolvable | organisation/resolve.js:91-102 | every dataset the build emits satisfies the conditions under which lookups are unambiguous |
| Normalise.CompanyNumberIsIdempotent | authority/lib/normalise.js:27-33 | normalising a company number twice is normalising it once, for every character-wise upper-casing that is stable and leaves digits alone |
| Normalise.NumericIdIsIdempotent | authority/lib/normalise.js:37-41 | normalising an FRN, SRA number or UKPRN twice is normalising it once |
| Normalise.CompanyNumbersAgreeIff | authority/lib/normalise.js:23-31 | all-digit company numbers of at most eight digits have one normal form if and only if they denote the same number, and it has eight digits |
| Normalise.CompanyNumberIgnoresSpaceAndCase | authority/lib/normalise.js:29-29 | white space and letter case make no difference to a company number |
| Normalise.OtherCompanyNumber | authority/lib/normalise.js:27-33 | any other company number without white space and lower-case letters is left as it is |
| Normalise.NumericIdsAgreeIff | authority/lib/normalise.js:35-41 | two texts have one normal form if and only if their digits denote the same number, or neither has digits; the form denotes that number |
| Resolve.LoadAuthority | organisation/resolve.js:86-102 | the identifier index maps a key to its last holder and has no other keys |
| Resolve.IndexAgreesWithScan | organisation/resolve.js:98-101 | without collisions the last-write-wins index finds the organisation of any row that holds the key |
| Resolve.ResolveIdentity | organisation/resolve.js:218-273 | conflict with all matches, the one match, or the computed id, new exactly when it is unknown |
| Resolve.ResolveOverDataset | organisation/resolve.js:218-273 | over a collision-free dataset: conflict if and only if two organisations are named, the one named is found, a request whose number denotes the number a row publishes finds that row, and a request that names none gets its computed id, new if and only if no organisation has it |
| Resolve.NumberIsNamedIff | organisation/resolve.js:98-101 | a supplied number names the organisation of a row if and only if it denotes the number that the row publishes, with or without leading zeros |
| Resolve.RequestKeyIs | organisation/resolve.js:44-52 | the computed key of a request: its normalised company number, else FRN, else SRA number, else the hash of name and domain |
| Resolve.CarriedIsNamedIffPublished | organisation/resolve.js:234-247 | a request all of whose identifiers one organisation's source records carry names that organisation if and only if one of them is its published value, and never names another |
| Lookup.ResolveCarried | organisation/resolve.js:218-273 | the answer to such a request: the organisation if and only if one identifier is the published value, otherwise a new id that no organisation has, if its key hashes apart from those in use |
| Lookup.ResolveKeyless | organisation/resolve.js:249-273 | a request by the name and domain of a keyless organisation finds the first organisation with that key, so it finds the organisation itself if and only if its id has no suffix |
| Lookup.LookUpOtherNumber | organisation/identity.js:5-7 | the header says an organisation always resolves to the same id; for any FRN and any two different company numbers in normal form, the two records that pair them give one organisation, and a lookup by one of the numbers is answered with a new id |
| Lifecycle.ClaimsNeedRetries | acquisition/processing-state.js:49-63 | a legal history claims exactly once more than it fails or turns ambiguous, or exactly as often where it ends unseen, failed or ambiguous, and nothing follows a terminal state |
| Ledgers.CurrentIsLastEvent | acquisition/processing-ledger.js:27-33 | the current state is the last event, and the recorded companies are those with one |
| Ledgers.IndexOfJournal | acquisition/processing-ledger.js:46-60 | folding the log gives exactly each company's state and whole history, in order of first event |
| Ledgers.ClaimableIs | acquisition/processing-state.js:49-63 | only an absent, unseen, failed or ambiguous company can be claimed |
| Ledgers.Ledger.constructor | acquisition/processing-ledger.js:39-53 | reopening rebuilds from the file exactly the index that the appends had built |
| Ledgers.Ledger.Claim | acquisition/processing-ledger.js:93-103 | claims exactly when the state model allows it, creating an absent company first; a refusal appends nothing |
| Ledgers.Ledger.Update | acquisition/processing-ledger.js:110-117 | appends exactly the legal transitions of recorded companies; anything else changes nothing |
| Processor.ProcessCandidate | acquisition/candidate-processor.js:59-112 | once it has claimed, no transition it attempts is refused; its durable appends and its outcome are exactly those of the I/O answers, and the state it leaves is the one that belongs to the answer |
| Processor.OutcomeAgreesWithState | acquisition/candidate-processor.js:59-112 | each outcome is reported exactly with its own state, and the company is registered if and only if the outcome is an acquisition |
| Acquisition.OkStep | acquisition/processing-state.js:49-61 | one permitted append keeps a company safe: legal history, registered at most once, consistent with its state |
| Acquisition.OkPrefix | acquisition/processing-ledger.js:55-60 | every prefix of permitted appends, so every crash point, leaves every company safe |
| Acquisition.ActionsOk | acquisition/candidate-processor.js:65-111 | every append of a call is permitted at the moment it is made |
| Acquisition.RecoverActionsOk | acquisition/resolve-ambiguous.js:104-113 | every append of the recovery pass is permitted |
| Acquisition.EveryRunIsSafe | acquisition/candidate-processor.js:65-111 | exactly-once acquisition: over any runs, crashes between any two appends and reopens, a company is registered at most once, only in enriched, persisted or complete, and exactly once when persisted or complete |
| Acquisition.RecoveryReverts | acquisition/resolve-ambiguous.js:104-113 | the recovery pass returns every orphaned re-resolution claim to ambiguous |
| Acquisition.CompletesLaterIff | acquisition/candidate-processor.js:65-111 | an incomplete company can still be completed by a later run if and only if it is absent, unseen, failed, ambiguous or an orphaned re-resolution claim |
| Acquisition.AnswersDecideState | acquisition/candidate-processor.js:72-111 | a claimable company is left in no-match exactly when the search found nothing, ambiguous exactly when it found several, discarded or in research exactly by the status gate, failed exactly when one of the three I/O steps failed, and complete otherwise |
| Acquisition.AnswerIsFinal | acquisition/candidate-processor.js:72-111 | after nothing was found, or the match was discarded, set aside or acquired, no run ever changes the company again |
| Acquisition.StaysOpenIff | acquisition/candidate-processor.js:72-111 | a later run can still complete the company if and only if the search found several matches or an I/O step failed |
| Acquisition.RunIgnoresAbandoned | acquisition/resolve-ambiguous.js:104-118 | a company crashed at any other point is never touched again by any run |
| Acquisition.CrashAfterPersistIsFinal | acquisition/candidate-processor.js:106-110 | a crash between the registry write and its ledger line leaves the company registered once and enriched for good |
| Processor.RunCandidateSource | acquisition/candidate-source-runner.js:46-62 | one call per candidate, in order, on the state the previous call left, until the source ends or a call throws, with its message and candidate; the tally counts the outcomes; the journal is the run of exactly these calls, so every company safe before is safe after |
| Processor.AcquiredAtMostOnce | acquisition/candidate-processor.js:65-69 | over any source a company acquired once is refused ever after |
| Processor.RecoverOne | acquisition/resolve-ambiguous.js:105-113 | a company is reverted exactly when it is claimed with ambiguous immediately before |
| Processor.RecoverOrphans | acquisition/resolve-ambiguous.js:104-114 | the loop over the recorded companies performs exactly the recovery pass and counts its reversions |
| Processor.ResolveOne | acquisition/resolve-ambiguous.js:125-155 | a failed or nameless lookup changes nothing; otherwise the appends are those of one whole call, and no other company changes state |
| Processor.ResolveListed | acquisition/resolve-ambiguous.js:122-158 | the appends are those of one call per company with a profile, in list order; the counters add up to the listed companies, agree with the states those companies are left in, and each counts the companies with its own kind of answer |
| Processor.ResolveAmbiguous | acquisition/resolve-ambiguous.js:100-158 | the journal is the run of one recovery pass and one call per resolved company, so every company safe before is safe after; the ambiguous companies in ledger order up to the limit, each counted once |
| Sampler.SameGroupIff | domain-discovery-pilot/sampling/sample-candidates.js:58-63 | two rows share a group exactly when their registration numbers agree, or are both absent in one row, or one number is spelt like the other row's fallback key |
| Sampler.FallbackKeyCanCollide | domain-discovery-pilot/sampling/sample-candidates.js:60-60 | such a number exists for every unnumbered row: the fallback key is not unique by construction |
| Sampler.Deduplicate | domain-discovery-pilot/sampling/sample-candidates.js:57-92 | one representative per key, in order of first appearance, each no worse than any row of its group, with the group's row count |
| Sampler.RepresentativeComesFirst | domain-discovery-pilot/sampling/sample-candidates.js:70-82 | no row of the group has a better postcode rank, or the same and a trading name that the representative lacks, or all that equal and an earlier place in the pool |
| Sampler.EveryRowIsCounted | domain-discovery-pilot/sampling/sample-candidates.js:58-67 | the row counts of the groups add up to the number of source rows |
| Sampler.RepresentativeIsUnique | domain-discovery-pilot/sampling/sample-candidates.js:68-82 | with distinct pool indices the representative does not depend on the row order |
| Apportionment.Apportion | domain-discovery-pilot/sampling/sample-candidates.js:120-184 | each target lies between min(4, count) and the count; the targets add up to the sample size if and only if the floors fit into the slots; the outcome is the one of largest remainders |
| Apportionment.AddFloors | domain-discovery-pilot/sampling/sample-candidates.js:121-130 | pool size, floors and their sum |
| Apportionment.GrantShares | domain-discovery-pilot/sampling/sample-candidates.js:139-150 | every category gets its whole share, capped at the room it has |
| Apportionment.OnePass | domain-discovery-pilot/sampling/sample-candidates.js:168-175 | one slot for each category with room, in remainder order, until none is left; no progress means every category is full |
| Apportionment.RoundRobin | domain-discovery-pilot/sampling/sample-candidates.js:165-176 | it ends with every leftover slot placed, level by level up to each count |
| Apportionment.OrderIsByRemainder | domain-discovery-pilot/sampling/sample-candidates.js:158-163 | of two categories in the order, the first has the larger remainder, or the same and the earlier rank |
| Apportionment.CappedSharesFit | domain-discovery-pilot/sampling/sample-candidates.js:139-152 | whole shares never exceed the remaining slots, so the leftover is not negative |
| Apportionment.ApportionmentIsDetermined | domain-discovery-pilot/sampling/sample-candidates.js:120-184 | the description in numbers, with the total, leaves exactly one outcome |
| Apportionment.PlacedIsLargestRemainders | domain-discovery-pilot/sampling/sample-candidates.js:152-176 | in plain numbers: next to a category with room no other has more than one extra slot above it, and none if its remainder is smaller, or the same and it comes later |
| Apportionment.QuotaRule | domain-discovery-pilot/sampling/sample-candidates.js:115-119 | when whole shares fill no category, each category gets its whole share of the remainder or one slot more |
| Apportionment.FloorsFitInAHundred | domain-discovery-pilot/sampling/sample-candidates.js:23-24 | the floors of seven categories never exceed 28, so they fit into the hundred slots |
| Selection.SelectedKeyIsInjective | domain-discovery-pilot/sampling/sample-candidates.js:199-199 | the selection key identifies the candidate, whatever its registration number contains |
| Selection.NextPick | domain-discovery-pilot/sampling/sample-candidates.js:226-231 | the find returns the first candidate of the floor that is unselected and whose category has capacity |
| Selection.FloorStep | domain-discovery-pilot/sampling/sample-candidates.js:220-244 | the loop of one floor and its entry in the list of unreachable floors |
| Selection.FloorPass | domain-discovery-pilot/sampling/sample-candidates.js:217-244 | pass 1 over all floors in order |
| Selection.StuckForGood | domain-discovery-pilot/sampling/sample-candidates.js:201-215 | capacities only shrink: a floor with no eligible candidate never gains another |
| Selection.SettledForGood | domain-discovery-pilot/sampling/sample-candidates.js:217-259 | after its turn a floor is met or stuck, and stays on that side with its final count |
| Selection.CategoryStep | domain-discovery-pilot/sampling/sample-candidates.js:247-257 | the fill loop of one category stops at its target or at the sample size |
| Selection.CategoryPass | domain-discovery-pilot/sampling/sample-candidates.js:246-259 | pass 2 over the categories |
| Selection.ScanTakesInOrder | domain-discovery-pilot/sampling/sample-candidates.js:251-257 | pass 2 takes the first candidates of a category: none after one it passed over |
| Selection.SelectionIsExact | domain-discovery-pilot/sampling/sample-candidates.js:190-259 | with targets at most the counts and adding up to the sample size: distinct candidates, exactly the target number from each category |
| Selection.ReportIsFinal | domain-discovery-pilot/sampling/sample-candidates.js:239-243 | the unreachable floors listed after pass 1, with their counts, are exactly the floors the finished selection misses |
| Selection.ListedIffUnmet | domain-discovery-pilot/sampling/sample-candidates.js:239-243 | an entry is listed if and only if its floor is unmet, with the count it has |
| Floors.FloorEndsWith | domain-discovery-pilot/sampling/sample-candidates.js:217-244 | a floor at its turn ends with what it had, or with the lesser of its target and what it had plus, over the categories, the lesser of the room left and the unselected matching candidates |
| Floors.UnmetIffOutOfReach | domain-discovery-pilot/sampling/sample-candidates.js:217-259 | the finished selection misses a floor if and only if that amount fell short of the target at its turn, and then has exactly that amount |
| Selection.EveryRegionHasAFloor | domain-discovery-pilot/sampling/sample-candidates.js:108-113 | every region of the cohort has a floor of one |
| Selection.SelectSample | domain-discovery-pilot/sampling/sample-candidates.js:190-269 | the sample in registration order, drawn by the two passes, with the report of exactly its unmet floors |
| Sampler.SampleCandidates | domain-discovery-pilot/sampling/sample-candidates.js:280-349 | exactly min(100, number of distinct keys) candidates, each key at most once, with exactly the apportioned number per category: the two-pass selection for these targets, and the report of the floors it misses |
| Pools.StepKeeps | observatory/collection/collection-session.js:99-181 | any step of any worker keeps: distinct items in hand, every index taken in order, every slot the last write of its item, counters the sum of the stages done |
| Pools.EveryStateIsOk | observatory/collection/collection-session.js:175-181 | the invariant holds in every state of every interleaving |
| Pools.ConcurrencyIsKept | observatory/collection/collection-session.js:173-181 | no state has more items in flight than the concurrency, or than one if it is less; with concurrency for all items there is a worker for each |
| Pools.ScheduleDoesNotMatter | observatory/collection/collection-session.js:175-181 | when all workers have returned, each index was taken once and slots and counters are those of every item run to its end, for any concurrency and schedule |
| Pools.StepsAreExact | observatory/collection/collection-session.js:175-181 | the pool never deadlocks, and every complete run has one step per stage, per index and per worker |
| Pools.MapIsSequential | observatory/baseline/derive.js:43-54 | mapWithConcurrency with a function that does not throw yields the sequential map for any limit and interleaving |
| Pools.StagesAmountTo | observatory/collection/collection-session.js:104-171 | the stages of one domain leave exactly one observation and count it as persisted, failed or both |
| Pools.SessionIsSequential | observatory/collection/collection-session.js:99-197 | every interleaving ends with the observations and counters of the sequential run: the stored row, with the error of its child hook, or the failure with its message |
| Pools.CountersCover | observatory/collection/collection-session.js:191-196 | persisted + failed is the total plus the number of inserts that returned neither a row nor an error, so it is the total if and only if there were none |
| Pools.CountersAre | observatory/collection/collection-session.js:128-170 | persisted counts the domains whose insert raised no error, failed those without a stored row |
| Pools.Session.ProcessDomain | observatory/collection/collection-session.js:104-171 | the accounting of one domain: its observation, the two counters, and a child failure that changes neither |
| Pools.Session.RunAlone | observatory/collection/collection-session.js:175-181 | the loop of a single worker |
| Completion.Signal.RunBatch | observatory/baseline/complete.js:113-140 | attempts counted, recovered domains observed, exhausted ones given up; if the collector throws nothing is saved |
| Completion.Signal.NextBatch | observatory/baseline/complete.js:111-142 | exactly the first missing domains, as many as the batch size allows, are run once, and the runs left shrink, unless the batch holds only domains named like an inherited object property |
| Completion.Signal.CompleteSignal | observatory/baseline/complete.js:101-153 | its batches are exactly the rounds from state to state; it ends within the runs left to the missing domains plus the batches that hold only domains named like an inherited property, and there are none if those have rows; finishing means every domain has a row or was given up |
| Completion.MissingInOrder | observatory/baseline/complete.js:106-106 | the missing domains stand in the order of the population |
| Completion.ShortBatchIsAll | observatory/baseline/complete.js:111-113 | a batch with fewer domains than the batch size holds all that is missing, and every later batch holds only domains of it |
| Completion.RunsAddUp | observatory/baseline/complete.js:111-113 | the runs of all domains grow by exactly the sizes of the batches |
| Completion.OneBatchForAll | observatory/baseline/complete.js:111-128 | with room for all missing domains the first batch runs each of them once and no other; at their last attempt nothing is missing after it |
| Completion.InheritedNameNeverEnds | observatory/baseline/complete.js:116-128 | a domain named like an inherited property whose rows never arrive is never given up: the loop is still running after any number of batches |
| Completion.BudgetShrinks | observatory/baseline/complete.js:111-142 | every batch that holds a domain whose attempts count lowers the sum over these domains of max minus attempts |
| Completion.BudgetAlong | observatory/baseline/complete.js:111-142 | along a session every whole batch spends one of the runs that were left at its start, unless it is idle |
| Completion.AttemptsStayOk | observatory/baseline/complete.js:123-127 | a missing domain whose attempts count keeps attempts < max, one given up has exactly max, and one named like an inherited property is never given up |
| Completion.RunsAreBounded | observatory/baseline/complete.js:111-146 | a domain whose attempts count is run at most max times plus the attempts lost to crashes, and exactly that often when it is given up |
| Completion.RunSessions | observatory/baseline/complete.js:155-172 | sessions re-run after pauses, stops and crashes: all batches stay within the runs left at the start plus the idle ones plus one per crash, so enough sessions always finish; a domain is run at most max times plus one per crash; the crashes are the sessions in which a batch threw |
| Completion.CrashCostsAnAttempt | observatory/baseline/complete.js:14-16 | the header says any interruption resumes cleanly; after a crash inside a batch a domain allowed one attempt is run twice |
| Canonical.EscapeCharIsPrefixCode | trust-intelligence/provenance.js:126-133 | the escapes of single characters form a prefix code |
| Canonical.EscapesAre | trust-intelligence/provenance.js:126-133 | only quotes, backslashes and control characters are escaped: five of these by a letter, the others by four lower-case hexadecimal digits |
| Canonical.QuoteIsPrefixCode | trust-intelligence/provenance.js:126-133 | a string literal ends at its closing quote and nowhere else |
| Reading.QuoteIsReadBack | trust-intelligence/provenance.js:126-133 | a printed string is a JSON literal (RFC 8259, section 7) that reads back as the string, up to its closing quote |
| Canonical.KeyOrderIsStrict | trust-intelligence/provenance.js:131-132 | the fields of an object are all printed, by ascending key |
| Canonical.ListsApart | trust-intelligence/provenance.js:127-130 | a bracketed list of texts can be split back in only one way |
| Canonical.ValuesApart | trust-intelligence/provenance.js:126-133 | unique readability: no text of a value continues into the text of another |
| Canonical.TextIgnoresKeyOrder | trust-intelligence/provenance.js:124-133 | values equal up to key order have the same text |
| Canonical.TextDeterminesValue | trust-intelligence/provenance.js:124-133 | values with the same text are equal up to key order |
| Canonical.CanonicalIffSame | trust-intelligence/provenance.js:124-133 | same text if and only if equal up to object key order |
| Reading.ReadsBack | trust-intelligence/provenance.js:124-133 | the text is a JSON text without white space that a reader reads back as the value itself, with the fields of every object by ascending key |
| Provenance.ValidateSignals | trust-intelligence/provenance.js:60-81 | accepts exactly the signals with keys, references and no duplicate observed key, and reports the first offending one with the test that it fails |
| Provenance.FoldDomain | trust-intelligence/provenance.js:101-110 | the version map after one more domain, or a key that has two versions or is inherited by every object |
| Provenance.BuildVector | trust-intelligence/provenance.js:98-113 | succeeds if and only if all observed entries of each key agree on the version and no observed key is inherited by every object, with exactly that map; a conflict names a key that disagrees or is inherited |
| Provenance.RefuseInheritedKey | trust-intelligence/provenance.js:98-113 | a single observed signal with an inherited key passes validation and is refused as a conflict |
| Provenance.VectorIgnoresDomainOrder | trust-intelligence/provenance.js:98-113 | success and result do not depend on the order of the domains |
| Provenance.SortedStrictly | trust-intelligence/provenance.js:116-122 | for validated signals the list holds exactly the observed ones, strictly ascending by key |
| Provenance.ManifestLists | trust-intelligence/provenance.js:116-122 | each entry is an observed signal with its own version, time and row reference, and every observed signal has one |
| Provenance.ManifestIgnoresSignalOrder | trust-intelligence/provenance.js:116-122 | the manifest entries do not depend on the order in which the signals were supplied |
| TrustScore.ComputeTrustScore | observatory/aggregation/trust-score-aggregator.js:84-155 | 0 <= E <= A; the four categories add up to the totals; insufficient exactly when 2A is below the weight universe; otherwise a score from 1 to 999 |
| TrustScore.Accumulate | observatory/aggregation/trust-score-aggregator.js:93-129 | totals, category amounts and one status per in-scope signal |
| TrustScore.EarnedWithinAttainable | observatory/aggregation/trust-score-aggregator.js:112-118 | earned thousandths never exceed the attainable weight, in any set of categories |
| TrustScore.CategoriesAddUp | observatory/aggregation/trust-score-aggregator.js:93-118 | the categories partition earned and attainable |
| TrustScore.CategoryWeighs | observatory/aggregation/trust-score-aggregator.js:29-36 | the signals that make up the attainable weight of each category |
| TrustScore.CategoryEarns | observatory/aggregation/trust-score-aggregator.js:93-118 | the signals that make up what each category earns |
| TrustScore.RoundsHalfUp | observatory/aggregation/trust-score-aggregator.js:47-48 | both roundings go to the nearest, a half upwards |
| TrustScore.ScoreIsRounded | observatory/aggregation/trust-score-aggregator.js:139-142 | the score is the ratio on the scale of 999, rounded half upwards and kept between 1 and 999 |
| TrustScore.TrustScoreIsMonotone | observatory/aggregation/trust-score-aggregator.js:136-143 | raising scores of observed signals never lowers the Trust Score |
| TrustScore.ScoreIsAccurate | observatory/aggregation/trust-score-aggregator.js:112-143 | unless lifted to 1, the score is within 1/2 + 999*10*0.0005/A of the exact weighted mean |
| Lei.ExpandedDenotesValue | authority/lib/normalise.js:91-92 | the text with letters expanded denotes the value used for the check |
| Lei.CharValues | authority/lib/normalise.js:91-91 | digits count as themselves and letters from 10 for A to 35 for Z |
| Lei.CheckDigitsIff | authority/lib/normalise.js:91-92 | of the numbers from 2 to 98 exactly one gives a stem its check digits: 98 less the remainder of a hundred times its value by 97 |
| Lei.SubstitutionDetected | authority/lib/normalise.js:92-92 | two codes that differ in one character of the same kind never both check |
| Lei.SwapDetectedIff | authority/lib/normalise.js:92-92 | swapping two different neighbours goes undetected if and only if a digit swaps with the letter worth eleven times as much |
| Lei.SubstitutionRejected | authority/lib/normalise.js:87-94 | from an accepted code, one same-kind substitution leads to a rejected one |
| Lei.SwapRejectedIff | authority/lib/normalise.js:87-94 | from an accepted code, a swap of different neighbours is rejected except for 1/B, 2/M and 3/X |
| Csv.ParseCsvLine | acquisition/companies-house-source.js:27-42 | the loop computes the parser's state function |
| Csv.ParseCsvLineTrimmed | authority/lib/csv.js:7-28 | the authority parser returns the same fields, each trimmed |
| Csv.RoundTrip | test-headers-qa.js:29-34 | parsing the joined escaped fields of a non-empty row returns exactly the fields |
| Csv.QuotedIff | test-headers-qa.js:29-34 | a field is printed as it is if and only if it holds no comma, quote or line feed; any other stands between quotes |
| Csv.TrimmedRoundTripIff | authority/lib/csv.js:7-28 | the trimming parser returns each field trimmed, so exactly the fields if and only if none has white space at an end |
| Csv.RowIsInjective | test-headers-qa.js:29-34 | two different non-empty rows never print to the same line |
| Csv.ParseCsv | authority/lib/csv.js:31-36 | the file parser: the non-blank lines between line breaks, each parsed and trimmed |
| Csv.FileRoundTripIff | authority/lib/csv.js:31-36 | a file of printed rows, with line feeds or with carriage returns before them, is read back if and only if no field has white space at an end or holds a line feed, and no row is empty or a single empty field |

## Left out

- Files, HTTP, the database, clocks, pacing, logging and reports: their answers are parameters; torn ledger lines and a registry write that throws after appending are excluded, and there is one writer, as acquisition/processing-ledger.js:18 states.
- Regulators, SIC codes, tiers, pending reasons and the other descriptive fields of an organisation (authority/build.js:131-195, 292-298, 336-368) are left out; the choice of a name is a function of its records.
- `UnionFind.groups` (authority/lib/unionfind.js:51-59): the build does not call it and groups records itself.
- Merge.MergeRecords: a node is a pair of scheme and value instead of the string `scheme:value`; `Identity.KeyIsInjective` shows that the string form separates the same pairs.
- Identity.AssignIds: the id is `ORG-` followed by an arbitrary function of the key; the truncation to twelve hexadecimal digits is part of that function.
- Rebuild.RebuildKeepsAnchoredIds: assumes that the id hash separates the primary keys in use and that all digests have one length.
- Rebuild.RebuildKeepsOwner: needs every record that proposes the domain to carry a strong identifier or to have a name and domain of its own, since other ids may depend on the record order, and approved priorities below 99, since the first of two equal proposals decides whether a candidate of priority 99 is authoritative.
- Build.BuildDataset: `localeCompare` is a strict total order, so it never ranks two different strings equal.
- Domains.AuthoritativeClaimWins: assumes that approved source priorities are below 99, the value authority/build.js:202 gives to unapproved domains.
- Resolve.ResolveOverDataset: the resolver, the LEI check and the sampler use the normalisers with ASCII upper-casing; other case mappings are covered by `Normalise.CompanyNumberIsIdempotent` only.
- `normaliseDomain` is an arbitrary function whose results are the domains of the records; `normaliseName` and its suffix loop are left out.
- The providers table, the unsupported keys of a request and the domain index of organisation/resolve.js.
- Processor.ResolveAmbiguous: the match rule, the status gate and the postcode filter of `createPostcodeNarrowedSearch` are part of the I/O answer, so the results hold for every filter.
- Processor.RunCandidateSource: a source whose iterator itself throws ends the original with that exception and no report, and an outcome without a name is counted as "unknown"; neither is modelled.
- Apportionment.Apportion: shares and remainders are exact; the source computes them in floating point, which can order two nearly equal remainders differently.
- Selection.SelectSample: capacities are looked up by category and a candidate by its place in the pool, for which `SelectedKeyIsInjective` stands.
- Sampler.SampleCandidates: parsing, validation and the classification of a row are parameters.
- Pools.MapIsSequential: the function does not throw; with one that throws, Promise.all rejects and there is no result.
- Pools.SessionIsSequential: programme and run records, the resolution of the organisation and emitted events are left out; the code swallows their failures or raises them before the pool starts.
- Completion.Signal.CompleteSignal: metrics and messages are left out, and stored rows are never removed.
- Canonical.CanonicalIffSame: numbers are their finite decimal texts (NaN, infinities and negative zero print like other values), strings hold no lone surrogates, and `undefined` is not a JSON value.
- TrustScore.ComputeTrustScore: decimal arithmetic is exact; the source rounds binary floating-point numbers.
- Csv.ParseCsv: `parseCsvWithHeader`, which only looks for the header row, is left out.
- The two FCA and SRA workers under acquisition/workers, simple counters such as derive-sra-registry.js, lookup tables and the remediation scripts would only add easy members.
