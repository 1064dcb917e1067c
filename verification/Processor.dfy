/** The imperative side of the acquisition layer: processing one candidate, running a source of
    candidates, and re-resolving the ambiguous companies, on the ledger and registry files. */
module Processor {
  import opened Records
  import opened Lifecycle
  import opened Ledgers
  import opened Acquisition
  import opened Orders

  // ---------- one candidate ----------

  /** An update that the state model permits: it is never refused. */
  method Advance(ledger: Ledger, cn: string, to: State)
    requires ledger.Valid() && Current(ledger.files.journal, cn).Some?
    requires CanTransition(Current(ledger.files.journal, cn).value, to)
    modifies ledger, ledger.files
    ensures ledger.Valid() && ledger.files.journal == old(ledger.files.journal) + [Log(cn, to)]
    ensures Current(ledger.files.journal, cn) == Some(to)
  {
    AppendLog(ledger.files.journal, cn, to, cn);
    var ok := ledger.Update(cn, to);
    assert ok;
  }

  /** The registry write that succeeds, and the two ledger lines after it. */
  method FinishPersisting(ledger: Ledger, cn: string)
    requires ledger.Valid() && Current(ledger.files.journal, cn) == Some(Enriched)
    modifies ledger, ledger.files
    ensures ledger.Valid()
    ensures ledger.files.journal == old(ledger.files.journal)
            + ([Reg(cn)] + ([Log(cn, Persisted)] + [Log(cn, Complete)]))
  {
    AppendReg(ledger.files.journal, cn, cn);
    ledger.files.AppendRegistry(cn);
    Advance(ledger, cn, Persisted);
    Advance(ledger, cn, Complete);
  }

  /** Enrichment succeeded; now the registry write. */
  method EnrichedStep(ledger: Ledger, cn: string, io: Io) returns (o: Outcome)
    requires ledger.Valid() && Current(ledger.files.journal, cn) == Some(Enriched)
    modifies ledger, ledger.files
    ensures ledger.Valid() && ledger.files.journal == old(ledger.files.journal) + AfterEnrich(cn, io)
    ensures o == if io.persistOk then Acquired else HasFailed
  {
    if !io.persistOk {
      Advance(ledger, cn, Failed);
      return HasFailed;
    }
    FinishPersisting(ledger, cn);
    return Acquired;
  }

  /** The company is matched; now the enrichment. */
  method MatchedStep(ledger: Ledger, cn: string, io: Io) returns (o: Outcome)
    requires ledger.Valid() && Current(ledger.files.journal, cn) == Some(Matched)
    modifies ledger, ledger.files
    ensures ledger.Valid() && ledger.files.journal == old(ledger.files.journal) + AfterMatch(cn, io)
    ensures o == if io.enrichOk && io.persistOk then Acquired else HasFailed
  {
    if !io.enrichOk {
      Advance(ledger, cn, Failed);
      return HasFailed;
    }
    Assoc(ledger.files.journal, [Log(cn, Enriched)], AfterEnrich(cn, io));
    Advance(ledger, cn, Enriched);
    o := EnrichedStep(ledger, cn, io);
  }

  /** The steps after a retained match. */
  method Retained(ledger: Ledger, cn: string, io: Io) returns (o: Outcome)
    requires ledger.Valid() && Current(ledger.files.journal, cn) == Some(Claimed)
    modifies ledger, ledger.files
    ensures ledger.Valid()
    ensures ledger.files.journal == old(ledger.files.journal) + ([Log(cn, Matched)] + AfterMatch(cn, io))
    ensures o == if io.enrichOk && io.persistOk then Acquired else HasFailed
  {
    Assoc(ledger.files.journal, [Log(cn, Matched)], AfterMatch(cn, io));
    Advance(ledger, cn, Matched);
    o := MatchedStep(ledger, cn, io);
  }

  /** `processCandidate`. Once it has claimed, no transition it attempts is refused, its appends are
      exactly `Actions`, and the state it leaves is the one its outcome names. */
  method ProcessCandidate(ledger: Ledger, cn: string, io: Io) returns (o: Outcome)
    requires ledger.Valid()
    modifies ledger, ledger.files
    ensures ledger.Valid()
    ensures ledger.files.journal == old(ledger.files.journal) + Actions(Current(old(ledger.files.journal), cn), cn, io)
    ensures o == OutcomeOf(Current(old(ledger.files.journal), cn), io)
    ensures o == AlreadyClaimed <==> !Claimable(Current(old(ledger.files.journal), cn))
    ensures o != AlreadyClaimed ==>
            Current(ledger.files.journal, cn).Some? && LeftBy(Current(ledger.files.journal, cn).value, io)
  {
    ghost var j := ledger.files.journal;
    if Claimable(Current(j, cn)) { AnswersDecideState(j, cn, io); }
    WholeCall(j, cn, io);
    ClaimIsCurrent(j, cn);
    Assoc(j, ClaimActions(Current(j, cn), cn), AfterClaim(cn, io));
    var claimed := ledger.Claim(cn);
    if !claimed {
      return AlreadyClaimed;
    }
    o := Resolve(ledger, cn, io);
  }

  lemma ClaimIsCurrent(j: seq<Action>, cn: string)
    ensures Current(j + ClaimActions(Current(j, cn), cn), cn) == Some(Claimed)
  {
    LastLogDecides(j, ClaimActions(Current(j, cn), cn), cn, Claimed);
  }

  /** Search, match and status gate for a company that has just been claimed. */
  method Resolve(ledger: Ledger, cn: string, io: Io) returns (o: Outcome)
    requires ledger.Valid() && Current(ledger.files.journal, cn) == Some(Claimed)
    modifies ledger, ledger.files
    ensures ledger.Valid()
    ensures ledger.files.journal == old(ledger.files.journal) + AfterClaim(cn, io)
    ensures o == OutcomeOf(None, io)
  {
    match io.search {
      case SearchThrows => Advance(ledger, cn, Failed); return HasFailed;
      case NoHit => Advance(ledger, cn, NoMatch); return NoMatchFound;
      case ManyHits => Advance(ledger, cn, Ambiguous); return StillAmbiguous;
      case Hit(Discard) => Advance(ledger, cn, Discarded); return WasDiscarded;
      case Hit(ForResearch) => Advance(ledger, cn, Research); return ToResearch;
      case Hit(Retain) => o := Retained(ledger, cn, io);
    }
  }

  /** A call that claimed leaves its company in the state its outcome names, registered exactly when
      that outcome is an acquisition. */
  lemma OutcomeAgreesWithState(j: seq<Action>, cn: string, io: Io)
    requires Safe(j, cn) && Claimable(Current(j, cn))
    ensures var k := j + Actions(Current(j, cn), cn, io);
            var o := OutcomeOf(Current(j, cn), io);
            && (o == NoMatchFound <==> Current(k, cn) == Some(NoMatch))
            && (o == StillAmbiguous <==> Current(k, cn) == Some(Ambiguous))
            && (o == WasDiscarded <==> Current(k, cn) == Some(Discarded))
            && (o == ToResearch <==> Current(k, cn) == Some(Research))
            && (o == Acquired <==> Current(k, cn) == Some(Complete))
            && (o == HasFailed <==> Current(k, cn) == Some(Failed))
            && o != AlreadyClaimed && Registered(k, cn) == if o == Acquired then 1 else 0
  {
    var current := Current(j, cn);
    LastIsOutcome(current, cn, io);
    LastLogDecides(j, Actions(current, cn, io), cn, StateAfter(OutcomeOf(current, io)));
    SafeAfter(j, cn, io, cn);
    StateDecidesRegistration(j + Actions(current, cn, io), cn, OutcomeOf(current, io));
  }

  lemma StateDecidesRegistration(k: seq<Action>, cn: string, o: Outcome)
    requires Safe(k, cn) && o != AlreadyClaimed && Current(k, cn) == Some(StateAfter(o))
    ensures Registered(k, cn) == if o == Acquired then 1 else 0
  {
  }

  lemma SafeAfter(j: seq<Action>, cn: string, io: Io, x: string)
    requires Safe(j, cn) && Safe(j, x)
    ensures Safe(j + Actions(Current(j, cn), cn, io), x)
  {
    ActionsOk(j, cn, io);
    WholePrefix(j, Actions(Current(j, cn), cn, io), x);
  }

  lemma WholePrefix(j: seq<Action>, acts: seq<Action>, x: string)
    requires Safe(j, x) && AllOk(j, acts)
    ensures Safe(j + acts, x)
  {
    OkPrefix(j, acts, |acts|, x);
    assert acts[..|acts|] == acts;
  }

  // ---------- a source of candidates ----------

  /** An exception that escapes the processor, and how many of the call's appends precede it. */
  datatype Fault = Fault(appends: nat, message: string)

  datatype Candidate = Candidate(cn: string, io: Io, fault: Option<Fault>)

  /** The call that a candidate gives rise to: whole, or cut short by its fault. */
  function CallOf(c: Candidate): Call {
    Process(c.cn, c.io, if c.fault.Some? then c.fault.value.appends else WHOLE)
  }

  function CallsOf(source: seq<Candidate>, n: nat): seq<Call>
    requires n <= |source|
  {
    if n == 0 then [] else CallsOf(source, n - 1) + [CallOf(source[n - 1])]
  }

  method AppendOne(ledger: Ledger, a: Action)
    requires ledger.Valid()
    modifies ledger, ledger.files
    ensures ledger.Valid() && ledger.files.journal == old(ledger.files.journal) + [a]
  {
    match a {
      case Log(cn, s) => ledger.Append(cn, s);
      case Reg(cn) => ledger.files.AppendRegistry(cn);
    }
  }

  lemma OneMoreAppend(j: seq<Action>, acts: seq<Action>, k: nat)
    requires k < |acts|
    ensures (j + acts[..k]) + [acts[k]] == j + acts[..k + 1]
  {
  }

  /** The first `n` of a call's appends. */
  method AppendFirst(ledger: Ledger, acts: seq<Action>, n: nat)
    requires ledger.Valid() && n <= |acts|
    modifies ledger, ledger.files
    ensures ledger.Valid() && ledger.files.journal == old(ledger.files.journal) + acts[..n]
  {
    ghost var j := ledger.files.journal;
    assert j + acts[..0] == j;
    for k := 0 to n
      invariant ledger.Valid() && ledger.files.journal == j + acts[..k]
    {
      OneMoreAppend(j, acts, k);
      AppendOne(ledger, acts[k]);
    }
  }

  lemma CutStep(j: seq<Action>, cn: string, io: Io, appends: nat)
    ensures var acts := Actions(Current(j, cn), cn, io);
            Step(j, Process(cn, io, appends)) == j + acts[..if appends < |acts| then appends else |acts|]
  {
    var acts := Actions(Current(j, cn), cn, io);
    assert acts[..|acts|] == acts;
  }

  /** A call that throws after some of its appends. */
  method Interrupted(ledger: Ledger, cn: string, io: Io, appends: nat)
    requires ledger.Valid()
    modifies ledger, ledger.files
    ensures ledger.Valid() && ledger.files.journal == Step(old(ledger.files.journal), Process(cn, io, appends))
  {
    IndexOfJournal(ledger.files.journal, cn);
    CutStep(ledger.files.journal, cn, io, appends);
    var acts := Actions(if cn in ledger.index then Some(ledger.index[cn].state) else None, cn, io);
    AppendFirst(ledger, acts, if appends < |acts| then appends else |acts|);
  }

  /** `after` is the journal that the candidate's call leaves behind when it does not throw. */
  ghost predicate CallEffect(before: seq<Action>, c: Candidate, after: seq<Action>, o: Outcome) {
    after == before + Actions(Current(before, c.cn), c.cn, c.io) && o == OutcomeOf(Current(before, c.cn), c.io)
  }

  /** `js[i]` is the journal before the i-th candidate and `results[i]` the outcome of its call. */
  ghost predicate SourceRun(source: seq<Candidate>, js: seq<seq<Action>>, results: seq<Outcome>) {
    && |results| <= |source| && |js| == |results| + 1
    && forall i {:trigger CallEffect(js[i], source[i], js[i + 1], results[i])} ::
         0 <= i < |results| ==> CallEffect(js[i], source[i], js[i + 1], results[i])
  }

  ghost predicate Tallied(results: seq<Outcome>, counts: map<Outcome, nat>) {
    forall o :: (o in counts <==> o in results) && (o in counts ==> counts[o] == multiset(results)[o])
  }

  lemma TallyGrows(results: seq<Outcome>, counts: map<Outcome, nat>, o: Outcome)
    requires Tallied(results, counts)
    ensures Tallied(results + [o], counts[o := (if o in counts then counts[o] else 0) + 1])
  {
    assert o !in results ==> multiset(results)[o] == 0;
  }

  lemma RunGrows(source: seq<Candidate>, js: seq<seq<Action>>, results: seq<Outcome>, after: seq<Action>, o: Outcome)
    requires SourceRun(source, js, results) && |results| < |source|
    requires CallEffect(js[|results|], source[|results|], after, o)
    ensures SourceRun(source, js + [after], results + [o])
  {
    forall i | 0 <= i < |results| + 1
      ensures CallEffect((js + [after])[i], source[i], (js + [after])[i + 1], (results + [o])[i])
    {
      EffectGrows(source, js, results, after, o, i);
    }
  }

  lemma EffectGrows(source: seq<Candidate>, js: seq<seq<Action>>, results: seq<Outcome>, after: seq<Action>,
                    o: Outcome, i: nat)
    requires SourceRun(source, js, results) && i <= |results| < |source|
    requires CallEffect(js[|results|], source[|results|], after, o)
    ensures CallEffect((js + [after])[i], source[i], (js + [after])[i + 1], (results + [o])[i])
  {
    if i < |results| { assert CallEffect(js[i], source[i], js[i + 1], results[i]); }
  }

  lemma CandidateStep(j: seq<Action>, source: seq<Candidate>, i: nat)
    requires i < |source|
    ensures Run(j, CallsOf(source, i + 1)) == Step(Run(j, CallsOf(source, i)), CallOf(source[i]))
    ensures source[i].fault.None? ==>
              Run(j, CallsOf(source, i + 1)) ==
              Run(j, CallsOf(source, i)) + Actions(Current(Run(j, CallsOf(source, i)), source[i].cn), source[i].cn,
                  source[i].io)
  {
    RunOneMore(j, CallsOf(source, i), CallOf(source[i]));
    WholeCall(Run(j, CallsOf(source, i)), source[i].cn, source[i].io);
  }

  /** What a run reports: `stopped` holds the exception's message and its candidate. */
  datatype Report = Report(processed: nat, counts: map<Outcome, nat>, results: seq<Outcome>,
      stopped: Option<(string, Candidate)>)

  ghost predicate FaultFree(source: seq<Candidate>, n: nat)
    requires n <= |source|
  {
    forall i :: 0 <= i < n ==> source[i].fault.None?
  }

  lemma FaultFreeNext(source: seq<Candidate>, n: nat)
    requires n < |source| && FaultFree(source, n) && source[n].fault.None?
    ensures FaultFree(source, n + 1)
  {
  }

  /** The run ends with the source, or at the first candidate whose call throws. */
  ghost predicate StopsAtFirstFault(source: seq<Candidate>, r: Report) {
    && r.processed <= |source| && FaultFree(source, r.processed)
    && (r.stopped.None? ==> r.processed == |source|)
    && (r.stopped.Some? ==>
          && r.processed < |source| && source[r.processed].fault.Some?
          && r.stopped.value == (source[r.processed].fault.value.message, source[r.processed]))
  }

  /** How many calls a run makes: one per processed candidate and the one that throws. */
  function CallsMade(r: Report): nat {
    r.processed + if r.stopped.Some? then 1 else 0
  }

  /** The journal after the first `i` calls is the last of the journals passed through. */
  ghost predicate RunReaches(j: seq<Action>, source: seq<Candidate>, js: seq<seq<Action>>, i: nat)
    requires i <= |source|
  {
    |js| == i + 1 && js[0] == j && js[i] == Run(j, CallsOf(source, i))
  }

  lemma RunReachesNext(j: seq<Action>, source: seq<Candidate>, js: seq<seq<Action>>, i: nat, after: seq<Action>)
    requires i < |source| && RunReaches(j, source, js, i) && source[i].fault.None?
    requires after == js[i] + Actions(Current(js[i], source[i].cn), source[i].cn, source[i].io)
    ensures RunReaches(j, source, js + [after], i + 1)
  {
    CandidateStep(j, source, i);
  }

  /** The loop over the candidates, up to the first one whose call throws. */
  method ProcessUntilFault(ledger: Ledger, source: seq<Candidate>)
    returns (counts: map<Outcome, nat>, results: seq<Outcome>, ghost js: seq<seq<Action>>)
    requires ledger.Valid()
    modifies ledger, ledger.files
    ensures ledger.Valid() && Tallied(results, counts) && SourceRun(source, js, results)
    ensures RunReaches(old(ledger.files.journal), source, js, |results|) && js[|results|] == ledger.files.journal
    ensures FaultFree(source, |results|)
    ensures |results| < |source| ==> source[|results|].fault.Some?
  {
    ghost var j := ledger.files.journal;
    counts, results := map[], [];
    js := [j];
    while |results| < |source| && source[|results|].fault.None?
      invariant ledger.Valid() && Tallied(results, counts) && SourceRun(source, js, results)
      invariant RunReaches(j, source, js, |results|) && js[|results|] == ledger.files.journal
      invariant FaultFree(source, |results|)
      decreases |source| - |results|
    {
      var c := source[|results|];
      var o := ProcessCandidate(ledger, c.cn, c.io);
      FaultFreeNext(source, |results|);
      RunReachesNext(j, source, js, |results|, ledger.files.journal);
      RunGrows(source, js, results, ledger.files.journal, o);
      TallyGrows(results, counts, o);
      js := js + [ledger.files.journal];
      results := results + [o];
      counts := counts[o := (if o in counts then counts[o] else 0) + 1];
    }
  }

  /** The call of a candidate that throws; its message and the candidate are kept for the report. */
  method CallThatThrows(ledger: Ledger, c: Candidate) returns (stopped: (string, Candidate))
    requires ledger.Valid() && c.fault.Some?
    modifies ledger, ledger.files
    ensures ledger.Valid() && ledger.files.journal == Step(old(ledger.files.journal), CallOf(c))
    ensures stopped == (c.fault.value.message, c)
  {
    Interrupted(ledger, c.cn, c.io, c.fault.value.appends);
    return (c.fault.value.message, c);
  }

  /** `runCandidateSource`: one call per candidate, in order, tallied by outcome, until one throws. The
      journal it leaves is the run of exactly these calls, so what was safe before is safe after. */
  method RunCandidateSource(ledger: Ledger, source: seq<Candidate>) returns (r: Report, ghost js: seq<seq<Action>>)
    requires ledger.Valid()
    modifies ledger, ledger.files
    ensures ledger.Valid() && StopsAtFirstFault(source, r) && |r.results| == r.processed && Tallied(r.results, r.counts)
    ensures SourceRun(source, js, r.results) && RunReaches(old(ledger.files.journal), source, js, r.processed)
    ensures ledger.files.journal == Run(old(ledger.files.journal), CallsOf(source, CallsMade(r)))
    ensures (forall x :: Safe(old(ledger.files.journal), x)) ==> forall x :: Safe(ledger.files.journal, x)
  {
    ghost var j := ledger.files.journal;
    var counts, results;
    counts, results, js := ProcessUntilFault(ledger, source);
    var n := |results|;
    var stopped := None;
    if n < |source| {
      RunOneMore(j, CallsOf(source, n), CallOf(source[n]));
      var s := CallThatThrows(ledger, source[n]);
      stopped := Some(s);
    }
    r := Report(n, counts, results, stopped);
    SafetyIsKept(j, CallsOf(source, CallsMade(r)));
  }

  lemma SafetyIsKept(j: seq<Action>, calls: seq<Call>)
    ensures (forall x :: Safe(j, x)) ==> forall x :: Safe(Run(j, calls), x)
  {
    if forall x :: Safe(j, x) {
      forall x ensures Safe(Run(j, calls), x) {
        RunIsSafe(j, calls, x);
      }
    }
  }

  lemma AcquiringCompletes(before: seq<Action>, c: Candidate, after: seq<Action>)
    requires CallEffect(before, c, after, Acquired)
    ensures Current(after, c.cn) == Some(Complete)
  {
    LastIsOutcome(Current(before, c.cn), c.cn, c.io);
    LastLogDecides(before, Actions(Current(before, c.cn), c.cn, c.io), c.cn, Complete);
  }

  lemma CompleteStays(before: seq<Action>, c: Candidate, after: seq<Action>, o: Outcome, cn: string)
    requires CallEffect(before, c, after, o) && Current(before, cn) == Some(Complete)
    ensures Current(after, cn) == Some(Complete)
    ensures c.cn == cn ==> o == AlreadyClaimed && after == before
  {
    var acts := Actions(Current(before, c.cn), c.cn, c.io);
    ActionsAreAbout(Current(before, c.cn), c.cn, c.io);
    if c.cn == cn { assert acts == []; }
    OthersUntouched(before, acts, cn);
  }

  lemma {:induction false} CompleteForGood(source: seq<Candidate>, js: seq<seq<Action>>, results: seq<Outcome>,
                                           m: nat, n: nat, cn: string)
    requires SourceRun(source, js, results) && m <= n <= |results| && Current(js[m], cn) == Some(Complete)
    ensures Current(js[n], cn) == Some(Complete)
    decreases n
  {
    if m == n {
    } else {
      var k := n - 1;
      CompleteForGood(source, js, results, m, k, cn);
      assert CallEffect(js[k], source[k], js[k + 1], results[k]);
      CompleteStays(js[k], source[k], js[k + 1], results[k], cn);
    }
  }

  lemma CompleteOnceAcquired(source: seq<Candidate>, js: seq<seq<Action>>, results: seq<Outcome>, a: nat)
    requires SourceRun(source, js, results) && a < |results| && results[a] == Acquired
    ensures Current(js[a + 1], source[a].cn) == Some(Complete)
  {
    assert CallEffect(js[a], source[a], js[a + 1], results[a]);
    AcquiringCompletes(js[a], source[a], js[a + 1]);
  }

  lemma RefusedWhenComplete(source: seq<Candidate>, js: seq<seq<Action>>, results: seq<Outcome>, b: nat)
    requires SourceRun(source, js, results) && b < |results| && Current(js[b], source[b].cn) == Some(Complete)
    ensures results[b] == AlreadyClaimed
  {
    assert CallEffect(js[b], source[b], js[b + 1], results[b]);
    CompleteStays(js[b], source[b], js[b + 1], results[b], source[b].cn);
  }

  /** Over any source and from any journal, a company is acquired at most once. */
  lemma AcquiredAtMostOnce(source: seq<Candidate>, js: seq<seq<Action>>, results: seq<Outcome>, a: nat, b: nat)
    requires SourceRun(source, js, results) && a < b < |results|
    requires source[a].cn == source[b].cn && results[a] == Acquired
    ensures results[b] == AlreadyClaimed
  {
    CompleteOnceAcquired(source, js, results, a);
    CompleteForGood(source, js, results, a + 1, b, source[a].cn);
    RefusedWhenComplete(source, js, results, b);
  }

  // ---------- re-resolution of ambiguous companies ----------

  /** One iteration of the recovery loop. */
  method RecoverOne(ledger: Ledger, cn: string) returns (reverted: bool)
    requires ledger.Valid()
    modifies ledger, ledger.files
    ensures ledger.Valid() && reverted == Orphaned(old(ledger.files.journal), cn)
    ensures ledger.files.journal == old(ledger.files.journal) + if reverted then [Log(cn, Ambiguous)] else []
  {
    IndexOfJournal(ledger.files.journal, cn);
    CurrentIsLastEvent(ledger.files.journal, cn);
    if cn !in ledger.index || ledger.index[cn].state != Claimed {
      return false;
    }
    var events := ledger.index[cn].events;
    if |events| < 2 || events[|events| - 2] != Ambiguous {
      return false;
    }
    var ok := ledger.Update(cn, Ambiguous);
    assert ok;
    return true;
  }

  lemma RecoverUnfolds(j: seq<Action>, companies: seq<string>, i: nat)
    requires i < |companies|
    ensures var cn := companies[i];
            var k := j + if Orphaned(j, cn) then [Log(cn, Ambiguous)] else [];
            && j + RecoverActions(j, companies[i..]) == k + RecoverActions(k, companies[i + 1..])
            && |RecoverActions(j, companies[i..])| == (if Orphaned(j, cn) then 1 else 0)
                + |RecoverActions(k, companies[i + 1..])|
  {
    assert companies[i..][1..] == companies[i + 1..];
    RecoverFirst(j, companies[i..]);
  }

  /** The recovery loop over all recorded companies. */
  method RecoverOrphans(ledger: Ledger) returns (recovered: nat)
    requires ledger.Valid()
    modifies ledger, ledger.files
    ensures ledger.Valid()
    ensures var j := old(ledger.files.journal);
            ledger.files.journal == j + RecoverActions(j, Companies(j))
                && recovered == |RecoverActions(j, Companies(j))|
  {
    recovered := 0;
    var companies := ledger.keys;
    IndexOfJournal(ledger.files.journal, "");
    ghost var goal, n := ledger.files.journal + RecoverActions(ledger.files.journal, companies),
        |RecoverActions(ledger.files.journal, companies)|;
    assert companies[0..] == companies;
    for i := 0 to |companies|
      invariant ledger.Valid()
      invariant ledger.files.journal + RecoverActions(ledger.files.journal, companies[i..]) == goal
      invariant recovered + |RecoverActions(ledger.files.journal, companies[i..])| == n
    {
      RecoverUnfolds(ledger.files.journal, companies, i);
      var reverted := RecoverOne(ledger, companies[i]);
      if reverted { recovered := recovered + 1; }
    }
    assert companies[|companies|..] == [];
    assert ledger.files.journal + [] == ledger.files.journal;
  }

  /** The answer of the Companies House lookup, and of the narrowed search when it is reached. */
  datatype Lookup = LookupFails | Nameless | Profile(io: Io) {
    predicate Finds(search: Search) {
      Profile? && io.search == search
    }
  }

  datatype Tally = Tally(resolved: nat, stillAmbiguous: nat, noMatch: nat, discarded: nat, failed: nat, chFailed: nat,
      skipped: nat) {
    function Total(): nat {
      resolved + stillAmbiguous + noMatch + discarded + failed + chFailed + skipped
    }
  }

  /** Why a listed company was counted. */
  datatype Counted = ByOutcome(o: Outcome) | ChFailed | NoName

  function Tick(t: Tally, c: Counted): Tally {
    match c
    case ByOutcome(Acquired) => t.(resolved := t.resolved + 1)
    case ByOutcome(StillAmbiguous) => t.(stillAmbiguous := t.stillAmbiguous + 1)
    case ByOutcome(NoMatchFound) => t.(noMatch := t.noMatch + 1)
    case ByOutcome(WasDiscarded) => t.(discarded := t.discarded + 1)
    case ByOutcome(HasFailed) => t.(failed := t.failed + 1)
    case ByOutcome(_) => t.(skipped := t.skipped + 1)
    case ChFailed => t.(chFailed := t.chFailed + 1)
    case NoName => t.(skipped := t.skipped + 1)
  }

  /** The state in which a counted company is left: untouched unless it was processed. */
  function LeftIn(c: Counted): State
    requires c != ByOutcome(AlreadyClaimed)
  {
    if c.ByOutcome? then StateAfter(c.o) else Ambiguous
  }

  function StateIn(index: map<string, Entry>, cn: string): Option<State> {
    if cn in index then Some(index[cn].state) else None
  }

  /** The index that opening the files would rebuild. */
  function IndexFor(j: seq<Action>): map<string, Entry> {
    Fold(LedgerLines(j))
  }

  function AmbiguousOnes(index: map<string, Entry>, companies: seq<string>): seq<string> {
    if companies == [] then []
    else
      var n := |companies| - 1;
      AmbiguousOnes(index, companies[..n]) + if StateIn(index, companies[n]) == Some(Ambiguous) then [companies[n]]
          else []
  }

  lemma {:induction false} AmbiguousOnesAre(index: map<string, Entry>, companies: seq<string>, cn: string)
    ensures cn in AmbiguousOnes(index, companies) <==> cn in companies && StateIn(index, cn) == Some(Ambiguous)
  {
    if companies == [] {
    } else {
      var n := |companies| - 1;
      AmbiguousOnesAre(index, companies[..n], cn);
      assert companies == companies[..n] + [companies[n]];
    }
  }

  lemma {:induction false} AmbiguousOnesAreDistinct(index: map<string, Entry>, companies: seq<string>)
    requires NoDuplicates(companies)
    ensures NoDuplicates(AmbiguousOnes(index, companies))
  {
    if companies == [] {
    } else {
      var n := |companies| - 1;
      AmbiguousOnesAreDistinct(index, companies[..n]);
      AmbiguousOnesAre(index, companies[..n], companies[n]);
    }
  }

  /** How many of the first `n` listed companies are in a state. */
  function InState(index: map<string, Entry>, list: seq<string>, n: nat, s: State): nat
    requires n <= |list|
  {
    if n == 0 then 0
    else InState(index, list, n - 1, s) + if StateIn(index, list[n - 1]) == Some(s) then 1 else 0
  }

  lemma {:induction false} InStateDepends(j: map<string, Entry>, k: map<string, Entry>, list: seq<string>, n: nat,
                                          s: State)
    requires n <= |list| && forall i :: 0 <= i < n ==> StateIn(j, list[i]) == StateIn(k, list[i])
    ensures InState(j, list, n, s) == InState(k, list, n, s)
  {
    if n == 0 {
    } else {
      InStateDepends(j, k, list, n - 1, s);
    }
  }

  /** The counters describe the states of the first `n` listed companies. */
  ghost predicate TallyDescribes(index: map<string, Entry>, list: seq<string>, n: nat, t: Tally)
    requires n <= |list|
  {
    && t.Total() == n
    && t.resolved == InState(index, list, n, Complete)
    && t.noMatch == InState(index, list, n, NoMatch)
    && t.discarded == InState(index, list, n, Discarded)
    && t.failed == InState(index, list, n, Failed)
    && t.stillAmbiguous + t.chFailed + t.skipped == InState(index, list, n, Ambiguous)
        + InState(index, list, n, Research)
  }

  /** Counting one company changes no state but its own. */
  ghost predicate Moved(j: map<string, Entry>, k: map<string, Entry>, cn: string, c: Counted) {
    && c != ByOutcome(AlreadyClaimed) && StateIn(k, cn) == Some(LeftIn(c))
    && forall x :: x != cn ==> StateIn(k, x) == StateIn(j, x)
  }

  lemma TallyDescribesNext(j: map<string, Entry>, k: map<string, Entry>, list: seq<string>, n: nat, t: Tally,
                           c: Counted)
    requires n < |list| && TallyDescribes(j, list, n, t) && Moved(j, k, list[n], c)
    requires NoDuplicates(list)
    ensures TallyDescribes(k, list, n + 1, Tick(t, c))
  {
    forall s: State ensures InState(k, list, n + 1, s) == InState(j, list, n, s) + if LeftIn(c) == s then 1 else 0 {
      InStateDepends(j, k, list, n, s);
    }
  }

  /** One iteration of the re-resolution loop, for a company that is ambiguous. */
  method ResolveOne(ledger: Ledger, cn: string, lookup: Lookup) returns (c: Counted)
    requires ledger.Valid() && StateIn(ledger.index, cn) == Some(Ambiguous)
    modifies ledger, ledger.files
    ensures ledger.Valid() && Moved(old(ledger.index), ledger.index, cn, c)
    ensures lookup.Profile? <==> c.ByOutcome?
    ensures lookup.LookupFails? <==> c == ChFailed
    ensures !lookup.Profile? ==> ledger.files.journal == old(ledger.files.journal)
    ensures lookup.Profile? ==> c.o == OutcomeOf(Some(Ambiguous), lookup.io)
    ensures lookup.Profile? ==> ledger.files.journal == Step(old(ledger.files.journal), Process(cn, lookup.io, WHOLE))
  {
    match lookup {
      case LookupFails => return ChFailed;
      case Nameless => return NoName;
      case Profile(io) =>
        ghost var j := ledger.files.journal;
        IndexOfJournal(j, cn);
        var o := ProcessCandidate(ledger, cn, io);
        WholeCall(j, cn, io);
        ProcessedAmbiguous(j, cn, io);
        forall x ensures StateIn(ledger.index, x) == Current(ledger.files.journal, x)
            && StateIn(IndexFor(j), x) == Current(j, x) {
          IndexOfJournal(ledger.files.journal, x);
          IndexOfJournal(j, x);
        }
        return ByOutcome(o);
    }
  }

  lemma ProcessedAmbiguous(j: seq<Action>, cn: string, io: Io)
    requires Current(j, cn) == Some(Ambiguous)
    ensures var k, o := j + Actions(Current(j, cn), cn, io), OutcomeOf(Current(j, cn), io);
            && o != AlreadyClaimed && Current(k, cn) == Some(StateAfter(o))
            && forall x :: x != cn ==> Current(k, x) == Current(j, x)
  {
    LastIsOutcome(Current(j, cn), cn, io);
    var acts := Actions(Current(j, cn), cn, io);
    LastLogDecides(j, acts, cn, StateAfter(OutcomeOf(Current(j, cn), io)));
    ActionsAreAbout(Current(j, cn), cn, io);
    forall x | x != cn ensures Current(j + acts, x) == Current(j, x) {
      OthersUntouched(j, acts, x);
    }
  }

  /** The listed companies from the `i`-th on are still ambiguous. */
  ghost predicate AllAmbiguous(index: map<string, Entry>, list: seq<string>, i: nat) {
    forall k :: i <= k < |list| ==> StateIn(index, list[k]) == Some(Ambiguous)
  }

  lemma StillAmbiguousAfter(j: map<string, Entry>, k: map<string, Entry>, list: seq<string>, i: nat, c: Counted)
    requires i < |list| && NoDuplicates(list) && AllAmbiguous(j, list, i) && Moved(j, k, list[i], c)
    ensures AllAmbiguous(k, list, i + 1)
  {
  }

  lemma NothingCountedYet(index: map<string, Entry>, list: seq<string>)
    ensures TallyDescribes(index, list, 0, Tally(0, 0, 0, 0, 0, 0, 0))
  {
  }

  /** The calls of the re-resolution loop: one for every listed company whose lookup names it. */
  function Retries(list: seq<string>, lookup: string -> Lookup, n: nat): seq<Call>
    requires n <= |list|
  {
    if n == 0 then []
    else
      var answer := lookup(list[n - 1]);
      Retries(list, lookup, n - 1) + if answer.Profile? then [Process(list[n - 1], answer.io, WHOLE)] else []
  }

  lemma RetryStep(j: seq<Action>, list: seq<string>, lookup: string -> Lookup, i: nat)
    requires i < |list|
    ensures Run(j, Retries(list, lookup, i + 1)) ==
            if lookup(list[i]).Profile? then Step(Run(j, Retries(list, lookup, i)),
                Process(list[i], lookup(list[i]).io, WHOLE))
            else Run(j, Retries(list, lookup, i))
  {
    var calls := Retries(list, lookup, i);
    if lookup(list[i]).Profile? {
      RunOneMore(j, calls, Process(list[i], lookup(list[i]).io, WHOLE));
    } else {
      assert calls + [] == calls;
    }
  }

  /** How many of the first `n` listed companies get such an answer. */
  ghost function Answered(list: seq<string>, lookup: string -> Lookup, n: nat, kind: Lookup -> bool): nat
    requires n <= |list|
  {
    if n == 0 then 0 else Answered(list, lookup, n - 1, kind) + if kind(lookup(list[n - 1])) then 1 else 0
  }

  /** Every counter is the number of companies whose lookup and search ended in the way it stands for. */
  ghost predicate CountsAnswers(list: seq<string>, lookup: string -> Lookup, n: nat, t: Tally)
    requires n <= |list|
  {
    && t.chFailed == Answered(list, lookup, n, (a: Lookup) => a.LookupFails?)
    && t.skipped == Answered(list, lookup, n, (a: Lookup) => a.Nameless? || a.Finds(Hit(ForResearch)))
    && t.stillAmbiguous == Answered(list, lookup, n, (a: Lookup) => a.Finds(ManyHits))
    && t.noMatch == Answered(list, lookup, n, (a: Lookup) => a.Finds(NoHit))
    && t.discarded == Answered(list, lookup, n, (a: Lookup) => a.Finds(Hit(Discard)))
    && t.resolved == Answered(list, lookup, n, (a: Lookup) => a == Profile(Io(Hit(Retain), true, true)))
    && t.failed == Answered(list, lookup, n, (a: Lookup) => a.Finds(SearchThrows)
                   || (a.Finds(Hit(Retain)) && a != Profile(Io(Hit(Retain), true, true))))
  }

  lemma CountsAnswersNext(list: seq<string>, lookup: string -> Lookup, n: nat, t: Tally, c: Counted)
    requires n < |list| && CountsAnswers(list, lookup, n, t)
    requires match lookup(list[n])
             case LookupFails => c == ChFailed
             case Nameless => c == NoName
             case Profile(io) => c == ByOutcome(OutcomeOf(Some(Ambiguous), io))
    ensures CountsAnswers(list, lookup, n + 1, Tick(t, c))
  {
  }

  /** The re-resolution loop: its counters add up to the companies it handled, agree with the states those
      companies are left in and count the answers, and it appends exactly what its calls append. */
  method ResolveListed(ledger: Ledger, list: seq<string>, lookup: string -> Lookup) returns (t: Tally)
    requires ledger.Valid() && AllAmbiguous(ledger.index, list, 0) && NoDuplicates(list)
    modifies ledger, ledger.files
    ensures ledger.Valid() && TallyDescribes(ledger.index, list, |list|, t) && CountsAnswers(list, lookup, |list|, t)
    ensures ledger.files.journal == Run(old(ledger.files.journal), Retries(list, lookup, |list|))
  {
    t := Tally(0, 0, 0, 0, 0, 0, 0);
    ghost var start := ledger.files.journal;
    NothingCountedYet(ledger.index, list);
    for i := 0 to |list|
      invariant ledger.Valid() && AllAmbiguous(ledger.index, list, i) && TallyDescribes(ledger.index, list, i, t)
      invariant ledger.files.journal == Run(start, Retries(list, lookup, i)) && CountsAnswers(list, lookup, i, t)
    {
      ghost var j := ledger.index;
      RetryStep(start, list, lookup, i);
      var c := ResolveOne(ledger, list[i], lookup(list[i]));
      TallyDescribesNext(j, ledger.index, list, i, t, c);
      StillAmbiguousAfter(j, ledger.index, list, i, c);
      CountsAnswersNext(list, lookup, i, t, c);
      t := Tick(t, c);
    }
  }

  /** The companies to re-resolve, in the order of the ledger. */
  method ListAmbiguous(ledger: Ledger) returns (list: seq<string>)
    requires ledger.Valid()
    ensures list == AmbiguousOnes(ledger.index, ledger.keys)
  {
    var keys := ledger.keys;
    list := [];
    for i := 0 to |keys|
      invariant list == AmbiguousOnes(ledger.index, keys[..i])
    {
      assert keys[..i + 1][..i] == keys[..i];
      if keys[i] in ledger.index && ledger.index[keys[i]].state == Ambiguous {
        list := list + [keys[i]];
      }
    }
    assert keys[..|keys|] == keys;
  }

  /** `main` of resolve-ambiguous.js; a zero limit means no limit. Its journal is the run of one recovery
      pass and one call per resolved company, so exactly-once carries over to it. */
  method ResolveAmbiguous(ledger: Ledger, limit: nat, lookup: string -> Lookup) returns (list: seq<string>, t: Tally)
    requires ledger.Valid()
    modifies ledger, ledger.files
    ensures ledger.Valid() && TallyDescribes(ledger.index, list, |list|, t) && CountsAnswers(list, lookup, |list|, t)
    ensures var j := old(ledger.files.journal);
            var recovered := j + RecoverActions(j, Companies(j));
            var all := AmbiguousOnes(IndexFor(recovered), Companies(recovered));
            list == if limit == 0 || limit > |all| then all else all[..limit]
    ensures var j := old(ledger.files.journal);
            ledger.files.journal == Run(j, [WholeRecovery(j)] + Retries(list, lookup, |list|))
    ensures (forall x :: Safe(old(ledger.files.journal), x)) ==> forall x :: Safe(ledger.files.journal, x)
  {
    ghost var j := ledger.files.journal;
    WholeRecoveryStep(j);
    var _ := RecoverOrphans(ledger);
    list := ListAmbiguous(ledger);
    IndexOfJournal(ledger.files.journal, "");
    ListedAreAmbiguous(ledger.files.journal);
    if limit != 0 && limit <= |list| {
      list := list[..limit];
    }
    t := ResolveListed(ledger, list, lookup);
    RunFirst(j, WholeRecovery(j), Retries(list, lookup, |list|));
    SafetyIsKept(j, [WholeRecovery(j)] + Retries(list, lookup, |list|));
  }

  lemma ListedAreAmbiguous(j: seq<Action>)
    ensures var all := AmbiguousOnes(IndexFor(j), Companies(j));
            AllAmbiguous(IndexFor(j), all, 0) && NoDuplicates(all)
  {
    CompaniesAreDistinct(j);
    AmbiguousOnesAreDistinct(IndexFor(j), Companies(j));
    var all := AmbiguousOnes(IndexFor(j), Companies(j));
    forall k | 0 <= k < |all| ensures StateIn(IndexFor(j), all[k]) == Some(Ambiguous) {
      AmbiguousOnesAre(IndexFor(j), Companies(j), all[k]);
    }
  }
}
