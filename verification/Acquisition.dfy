/** acquisition/candidate-processor.js, candidate-source-runner.js and resolve-ambiguous.js: exactly-once
    acquisition under crashes. A run is a sequence of calls; a crash leaves any prefix of a call's
    durable appends, and the next call reopens the files. */
module Acquisition {
  import opened Records
  import opened Lifecycle
  import opened Ledgers

  /** What the injected I/O answers during one call. `Hit` carries the status gate's decision. */
  datatype Gate = Retain | Discard | ForResearch
  datatype Search = SearchThrows | NoHit | ManyHits | Hit(gate: Gate)
  datatype Io = Io(search: Search, enrichOk: bool, persistOk: bool)

  datatype Outcome = AlreadyClaimed | NoMatchFound | StillAmbiguous | WasDiscarded | ToResearch | Acquired | HasFailed

  // ---------- the durable appends of one call ----------

  function AfterEnrich(cn: string, io: Io): seq<Action> {
    if !io.persistOk then [Log(cn, Failed)]
    else [Reg(cn)] + ([Log(cn, Persisted)] + [Log(cn, Complete)])
  }

  function AfterMatch(cn: string, io: Io): seq<Action> {
    if !io.enrichOk then [Log(cn, Failed)] else [Log(cn, Enriched)] + AfterEnrich(cn, io)
  }

  function AfterClaim(cn: string, io: Io): seq<Action> {
    match io.search
    case SearchThrows => [Log(cn, Failed)]
    case NoHit => [Log(cn, NoMatch)]
    case ManyHits => [Log(cn, Ambiguous)]
    case Hit(Discard) => [Log(cn, Discarded)]
    case Hit(ForResearch) => [Log(cn, Research)]
    case Hit(Retain) => [Log(cn, Matched)] + AfterMatch(cn, io)
  }

  function Actions(current: Option<State>, cn: string, io: Io): seq<Action> {
    if !Claimable(current) then [] else ClaimActions(current, cn) + AfterClaim(cn, io)
  }

  function OutcomeOf(current: Option<State>, io: Io): Outcome {
    if !Claimable(current) then AlreadyClaimed
    else match io.search
         case SearchThrows => HasFailed
         case NoHit => NoMatchFound
         case ManyHits => StillAmbiguous
         case Hit(Discard) => WasDiscarded
         case Hit(ForResearch) => ToResearch
         case Hit(Retain) => if io.enrichOk && io.persistOk then Acquired else HasFailed
  }

  /** The state in which a call that claimed leaves its company, by outcome. */
  function StateAfter(o: Outcome): State
    requires o != AlreadyClaimed
  {
    match o
    case NoMatchFound => NoMatch
    case StillAmbiguous => Ambiguous
    case WasDiscarded => Discarded
    case ToResearch => Research
    case Acquired => Complete
    case HasFailed => Failed
  }

  // ---------- what every append must respect ----------

  /** Everything the acquisition layer promises about one company. */
  ghost predicate Safe(j: seq<Action>, cn: string) {
    && LegalHistory(History(j, cn))
    && Registered(j, cn) <= 1
    && (Registered(j, cn) == 1 ==> Current(j, cn).Some? && Current(j, cn).value in {Enriched, Persisted, Complete})
    && (Current(j, cn).Some? && Current(j, cn).value in {Persisted, Complete} ==> Registered(j, cn) == 1)
  }

  ghost predicate ActionOk(j: seq<Action>, a: Action) {
    match a
    case Log(cn, s) =>
      && (if Current(j, cn).None? then s == Unseen else CanTransition(Current(j, cn).value, s))
      && (s == Persisted ==> Registered(j, cn) == 1)
      && (s == Failed ==> Registered(j, cn) == 0)
    case Reg(cn) => Current(j, cn) == Some(Enriched) && Registered(j, cn) == 0
  }

  ghost predicate AllOk(j: seq<Action>, acts: seq<Action>)
    decreases |acts|
  {
    acts == [] || (ActionOk(j, acts[0]) && AllOk(j + [acts[0]], acts[1..]))
  }

  lemma OkStep(j: seq<Action>, a: Action, cn: string)
    requires Safe(j, cn) && ActionOk(j, a)
    ensures Safe(j + [a], cn)
  {
    CurrentIsLastEvent(j, cn);
    match a
    case Log(c, s) =>
      AppendLog(j, c, s, cn);
      if c == cn {
        var h := History(j, cn);
        forall k | 0 < k < |h + [s]| ensures CanTransition((h + [s])[k - 1], (h + [s])[k]) {
        }
      }
    case Reg(c) => AppendReg(j, c, cn);
  }

  lemma PrefixShifts(j: seq<Action>, acts: seq<Action>, k: nat)
    requires 0 < k <= |acts|
    ensures j + acts[..k] == (j + [acts[0]]) + acts[1..][..k - 1]
  {
  }

  /** Every prefix of permitted appends leaves every company safe. */
  lemma {:induction false} OkPrefix(j: seq<Action>, acts: seq<Action>, k: nat, cn: string)
    requires Safe(j, cn) && AllOk(j, acts) && k <= |acts|
    ensures Safe(j + acts[..k], cn)
    decreases k
  {
    if k == 0 {
      assert j + acts[..0] == j;
    } else {
      var j1, rest := j + [acts[0]], acts[1..];
      OkStep(j, acts[0], cn);
      OkPrefix(j1, rest, k - 1, cn);
      PrefixShifts(j, acts, k);
    }
  }

  lemma OkCons(j: seq<Action>, a: Action, rest: seq<Action>)
    requires ActionOk(j, a) && AllOk(j + [a], rest)
    ensures AllOk(j, [a] + rest)
  {
    assert ([a] + rest)[1..] == rest;
  }

  lemma OkOne(j: seq<Action>, a: Action)
    requires ActionOk(j, a)
    ensures AllOk(j, [a])
  {
    assert [a][1..] == [];
  }

  lemma AfterEnrichOk(j: seq<Action>, cn: string, io: Io)
    requires Current(j, cn) == Some(Enriched) && Registered(j, cn) == 0
    ensures AllOk(j, AfterEnrich(cn, io))
  {
    if io.persistOk {
      var j1 := j + [Reg(cn)];
      AppendReg(j, cn, cn);
      AppendLog(j1, cn, Persisted, cn);
      OkOne(j1 + [Log(cn, Persisted)], Log(cn, Complete));
      OkCons(j1, Log(cn, Persisted), [Log(cn, Complete)]);
      OkCons(j, Reg(cn), [Log(cn, Persisted)] + [Log(cn, Complete)]);
    } else {
      OkOne(j, Log(cn, Failed));
    }
  }

  lemma AfterMatchOk(j: seq<Action>, cn: string, io: Io)
    requires Current(j, cn) == Some(Matched) && Registered(j, cn) == 0
    ensures AllOk(j, AfterMatch(cn, io))
  {
    if io.enrichOk {
      AppendLog(j, cn, Enriched, cn);
      AfterEnrichOk(j + [Log(cn, Enriched)], cn, io);
      OkCons(j, Log(cn, Enriched), AfterEnrich(cn, io));
    } else {
      OkOne(j, Log(cn, Failed));
    }
  }

  lemma AfterClaimOk(j: seq<Action>, cn: string, io: Io)
    requires Current(j, cn) == Some(Claimed) && Registered(j, cn) == 0
    ensures AllOk(j, AfterClaim(cn, io))
  {
    match io.search
    case Hit(Retain) =>
      AppendLog(j, cn, Matched, cn);
      AfterMatchOk(j + [Log(cn, Matched)], cn, io);
      OkCons(j, Log(cn, Matched), AfterMatch(cn, io));
    case SearchThrows => OkOne(j, Log(cn, Failed));
    case NoHit => OkOne(j, Log(cn, NoMatch));
    case ManyHits => OkOne(j, Log(cn, Ambiguous));
    case Hit(Discard) => OkOne(j, Log(cn, Discarded));
    case Hit(ForResearch) => OkOne(j, Log(cn, Research));
  }

  lemma ReclaimOk(j: seq<Action>, cn: string, io: Io)
    requires Current(j, cn).Some? && CanTransition(Current(j, cn).value, Claimed) && Registered(j, cn) == 0
    ensures AllOk(j, [Log(cn, Claimed)] + AfterClaim(cn, io))
  {
    AppendLog(j, cn, Claimed, cn);
    AfterClaimOk(j + [Log(cn, Claimed)], cn, io);
    OkCons(j, Log(cn, Claimed), AfterClaim(cn, io));
  }

  lemma FirstClaimOk(j: seq<Action>, cn: string, io: Io)
    requires Current(j, cn).None? && Registered(j, cn) == 0
    ensures AllOk(j, [Log(cn, Unseen)] + ([Log(cn, Claimed)] + AfterClaim(cn, io)))
  {
    AppendLog(j, cn, Unseen, cn);
    ReclaimOk(j + [Log(cn, Unseen)], cn, io);
    OkCons(j, Log(cn, Unseen), [Log(cn, Claimed)] + AfterClaim(cn, io));
  }

  /** Every append of a call is permitted when it is made. */
  lemma ActionsOk(j: seq<Action>, cn: string, io: Io)
    requires Safe(j, cn)
    ensures AllOk(j, Actions(Current(j, cn), cn, io))
  {
    var current := Current(j, cn);
    ActionsUnfold(current, cn, io);
    SafeClaimIsUnregistered(j, cn);
    if current.None? {
      FirstClaimOk(j, cn, io);
    } else if Claimable(current) {
      ReclaimOk(j, cn, io);
    }
  }

  lemma ActionsUnfold(current: Option<State>, cn: string, io: Io)
    ensures Actions(current, cn, io) ==
            if current.None? then [Log(cn, Unseen)] + ([Log(cn, Claimed)] + AfterClaim(cn, io))
            else if Claimable(current) then [Log(cn, Claimed)] + AfterClaim(cn, io)
            else []
  {
    assert [] + [Log(cn, Claimed)] == [Log(cn, Claimed)];
    assert ([Log(cn, Unseen)] + [Log(cn, Claimed)]) + AfterClaim(cn, io) == [Log(cn, Unseen)]
        + ([Log(cn, Claimed)] + AfterClaim(cn, io));
  }

  /** A company that can be claimed is not in the registry. */
  lemma SafeClaimIsUnregistered(j: seq<Action>, cn: string)
    requires Safe(j, cn)
    ensures Claimable(Current(j, cn)) ==> Registered(j, cn) == 0
  {
  }

  // ---------- the recovery pass ----------

  /** Claimed again for re-resolution, and interrupted before any outcome. */
  predicate Orphaned(j: seq<Action>, cn: string) {
    var h := History(j, cn);
    |h| >= 2 && h[|h| - 1] == Claimed && h[|h| - 2] == Ambiguous
  }

  /** The appends of the recovery loop over the listed companies. */
  function RecoverActions(j: seq<Action>, companies: seq<string>): seq<Action>
    decreases |companies|
  {
    if companies == [] then []
    else
      var cn := companies[0];
      if Orphaned(j, cn) then [Log(cn, Ambiguous)] + RecoverActions(j + [Log(cn, Ambiguous)], companies[1..])
      else RecoverActions(j, companies[1..])
  }

  lemma {:induction false} RecoverActionsOk(j: seq<Action>, companies: seq<string>)
    requires forall c :: Safe(j, c)
    ensures AllOk(j, RecoverActions(j, companies))
    decreases |companies|
  {
    if companies == [] {
    } else {
      var cn := companies[0];
      if Orphaned(j, cn) {
        CurrentIsLastEvent(j, cn);
        assert ActionOk(j, Log(cn, Ambiguous));
        forall c ensures Safe(j + [Log(cn, Ambiguous)], c) {
          OkStep(j, Log(cn, Ambiguous), c);
        }
        RecoverActionsOk(j + [Log(cn, Ambiguous)], companies[1..]);
        OkCons(j, Log(cn, Ambiguous), RecoverActions(j + [Log(cn, Ambiguous)], companies[1..]));
      } else {
        RecoverActionsOk(j, companies[1..]);
      }
    }
  }

  // ---------- runs with crashes ----------

  /** One call on freshly opened files; `cut` is the number of its appends that survive. */
  datatype Call = Process(cn: string, io: Io, cut: nat) | Recover(cut: nat)

  function Appends(j: seq<Action>, c: Call): seq<Action> {
    match c
    case Process(cn, io, _) => Actions(Current(j, cn), cn, io)
    case Recover(_) => RecoverActions(j, Companies(j))
  }

  function Step(j: seq<Action>, c: Call): seq<Action> {
    var acts := Appends(j, c);
    j + if c.cut < |acts| then acts[..c.cut] else acts
  }

  function Run(j: seq<Action>, calls: seq<Call>): seq<Action> {
    if calls == [] then j else Step(Run(j, calls[..|calls| - 1]), calls[|calls| - 1])
  }

  lemma StepIsSafe(j: seq<Action>, c: Call, cn: string)
    requires forall x :: Safe(j, x)
    ensures Safe(Step(j, c), cn)
  {
    var acts := Appends(j, c);
    match c {
      case Process(x, io, _) => ActionsOk(j, x, io);
      case Recover(_) => RecoverActionsOk(j, Companies(j));
    }
    OkPrefix(j, acts, if c.cut < |acts| then c.cut else |acts|, cn);
    assert acts[..|acts|] == acts;
  }

  lemma {:induction false} RunIsSafe(j: seq<Action>, calls: seq<Call>, cn: string)
    requires forall x :: Safe(j, x)
    ensures Safe(Run(j, calls), cn)
    decreases |calls|
  {
    if calls == [] {
    } else {
      var front := calls[..|calls| - 1];
      forall x ensures Safe(Run(j, front), x) {
        RunIsSafe(j, front, x);
      }
      StepIsSafe(Run(j, front), calls[|calls| - 1], cn);
    }
  }

  /** Exactly-once acquisition: after any sequence of acquisition and recovery calls, each cut short
      after any append, every company has a legal history, is registered at most once, only in a
      state from enriched on, and exactly once when persisted or complete. */
  lemma EveryRunIsSafe(calls: seq<Call>, cn: string)
    ensures Safe(Run([], calls), cn)
  {
    forall x ensures Safe([], x) { }
    RunIsSafe([], calls, cn);
  }

  // ---------- calls that are not cut short ----------

  /** More than any call of the processor appends. */
  const WHOLE: nat := 8

  lemma ActionsAreFew(current: Option<State>, cn: string, io: Io)
    ensures |Actions(current, cn, io)| < WHOLE
  {
  }

  lemma WholeCall(j: seq<Action>, cn: string, io: Io)
    ensures Step(j, Process(cn, io, WHOLE)) == j + Actions(Current(j, cn), cn, io)
  {
    ActionsAreFew(Current(j, cn), cn, io);
  }

  /** The recovery pass run to its end. */
  function WholeRecovery(j: seq<Action>): Call {
    Recover(|Companies(j)|)
  }

  lemma {:induction false} RecoveryIsShort(j: seq<Action>, companies: seq<string>)
    ensures |RecoverActions(j, companies)| <= |companies|
    decreases |companies|
  {
    if companies == [] {
    } else if Orphaned(j, companies[0]) {
      RecoveryIsShort(j + [Log(companies[0], Ambiguous)], companies[1..]);
    } else {
      RecoveryIsShort(j, companies[1..]);
    }
  }

  lemma WholeRecoveryStep(j: seq<Action>)
    ensures Step(j, WholeRecovery(j)) == j + RecoverActions(j, Companies(j))
  {
    RecoveryIsShort(j, Companies(j));
    var acts := RecoverActions(j, Companies(j));
    assert acts[..|acts|] == acts;
  }

  lemma RunOneMore(j: seq<Action>, calls: seq<Call>, c: Call)
    ensures Run(j, calls + [c]) == Step(Run(j, calls), c)
  {
    assert (calls + [c])[..|calls|] == calls;
  }

  lemma {:induction false} RunFirst(j: seq<Action>, c: Call, calls: seq<Call>)
    ensures Run(j, [c] + calls) == Run(Step(j, c), calls)
    decreases |calls|
  {
    if calls == [] {
      RunOneMore(j, [], c);
      assert [c] + calls == [] + [c];
    } else {
      var front, last := calls[..|calls| - 1], calls[|calls| - 1];
      RunFirst(j, c, front);
      RunOneMore(j, [c] + front, last);
      CallsInOrder(c, calls);
    }
  }

  lemma CallsInOrder(c: Call, calls: seq<Call>)
    requires calls != []
    ensures [c] + calls == ([c] + calls[..|calls| - 1]) + [calls[|calls| - 1]]
  {
  }

  // ---------- which interrupted companies can still complete ----------

  lemma {:induction false} OthersUntouched(j: seq<Action>, acts: seq<Action>, cn: string)
    requires forall k :: 0 <= k < |acts| ==> acts[k].cn != cn
    ensures History(j + acts, cn) == History(j, cn) && Current(j + acts, cn) == Current(j, cn)
    ensures Registered(j + acts, cn) == Registered(j, cn)
    decreases |acts|
  {
    if acts == [] {
      assert j + acts == j;
    } else {
      var front, last := acts[..|acts| - 1], acts[|acts| - 1];
      OthersUntouched(j, front, cn);
      OtherUntouched(j + front, last, cn);
      LastAppend(j, acts);
    }
  }

  lemma LastAppend(j: seq<Action>, acts: seq<Action>)
    requires acts != []
    ensures j + acts == (j + acts[..|acts| - 1]) + [acts[|acts| - 1]]
  {
  }

  lemma OtherUntouched(j: seq<Action>, a: Action, cn: string)
    requires a.cn != cn
    ensures History(j + [a], cn) == History(j, cn) && Current(j + [a], cn) == Current(j, cn)
    ensures Registered(j + [a], cn) == Registered(j, cn)
  {
    match a
    case Log(c, s) => AppendLog(j, c, s, cn);
    case Reg(c) => AppendReg(j, c, cn);
  }

  lemma {:induction false} RecoverySkips(j: seq<Action>, companies: seq<string>, cn: string)
    requires !Orphaned(j, cn)
    ensures forall k :: 0 <= k < |RecoverActions(j, companies)| ==> RecoverActions(j, companies)[k].cn != cn
    decreases |companies|
  {
    if companies == [] {
    } else {
      var c := companies[0];
      if Orphaned(j, c) {
        AppendLog(j, c, Ambiguous, cn);
        RecoverySkips(j + [Log(c, Ambiguous)], companies[1..], cn);
      } else {
        RecoverySkips(j, companies[1..], cn);
      }
    }
  }

  /** The recovery pass handles the first company and then the others. */
  lemma RecoverFirst(j: seq<Action>, companies: seq<string>)
    requires companies != []
    ensures var cn := companies[0];
            var k := j + if Orphaned(j, cn) then [Log(cn, Ambiguous)] else [];
            && j + RecoverActions(j, companies) == k + RecoverActions(k, companies[1..])
            && |RecoverActions(j, companies)| == (if Orphaned(j, cn) then 1 else 0)
                + |RecoverActions(k, companies[1..])|
  {
    var cn := companies[0];
    if Orphaned(j, cn) {
      Assoc(j, [Log(cn, Ambiguous)], RecoverActions(j + [Log(cn, Ambiguous)], companies[1..]));
    } else {
      assert j + [] == j;
    }
  }

  lemma Assoc(a: seq<Action>, b: seq<Action>, c: seq<Action>)
    ensures a + (b + c) == (a + b) + c
  {
  }

  lemma RevertedStays(j: seq<Action>, companies: seq<string>, cn: string)
    requires Current(j, cn) == Some(Ambiguous)
    ensures Current(j + RecoverActions(j, companies), cn) == Some(Ambiguous)
  {
    CurrentIsLastEvent(j, cn);
    RecoverySkips(j, companies, cn);
    OthersUntouched(j, RecoverActions(j, companies), cn);
  }

  lemma {:induction false} RecoveryReverts(j: seq<Action>, companies: seq<string>, cn: string)
    requires Orphaned(j, cn) && cn in companies
    ensures Current(j + RecoverActions(j, companies), cn) == Some(Ambiguous)
    decreases |companies|
  {
    var c, rest := companies[0], companies[1..];
    RecoverFirst(j, companies);
    if Orphaned(j, c) {
      var j1 := j + [Log(c, Ambiguous)];
      AppendLog(j, c, Ambiguous, cn);
      if c == cn {
        RevertedStays(j1, rest, cn);
      } else {
        RecoveryReverts(j1, rest, cn);
      }
    } else {
      assert j + [] == j;
      RecoveryReverts(j, rest, cn);
    }
  }

  lemma ActionsAreAbout(current: Option<State>, cn: string, io: Io)
    ensures forall k :: 0 <= k < |Actions(current, cn, io)| ==> Actions(current, cn, io)[k].cn == cn
  {
    AfterClaimIsAbout(cn, io);
    forall k | 0 <= k < |ClaimActions(current, cn)| ensures ClaimActions(current, cn)[k].cn == cn { }
  }

  lemma AfterClaimIsAbout(cn: string, io: Io)
    ensures forall k :: 0 <= k < |AfterClaim(cn, io)| ==> AfterClaim(cn, io)[k].cn == cn
  {
    forall k | 0 <= k < |AfterEnrich(cn, io)| ensures AfterEnrich(cn, io)[k].cn == cn { }
    forall k | 0 <= k < |AfterMatch(cn, io)| ensures AfterMatch(cn, io)[k].cn == cn { }
  }

  /** Neither a new call nor the recovery pass will ever pick the company up. */
  predicate Abandoned(j: seq<Action>, cn: string) {
    !Claimable(Current(j, cn)) && !Orphaned(j, cn)
  }

  lemma StepIgnoresAbandoned(j: seq<Action>, c: Call, cn: string)
    requires Abandoned(j, cn)
    ensures History(Step(j, c), cn) == History(j, cn) && Current(Step(j, c), cn) == Current(j, cn)
    ensures Registered(Step(j, c), cn) == Registered(j, cn)
  {
    var acts := Appends(j, c);
    match c {
      case Process(x, io, _) => ActionsAreAbout(Current(j, x), x, io);
      case Recover(_) => RecoverySkips(j, Companies(j), cn);
    }
    var kept := if c.cut < |acts| then acts[..c.cut] else acts;
    OthersUntouched(j, kept, cn);
  }

  lemma StillAbandoned(j: seq<Action>, k: seq<Action>, cn: string)
    requires Abandoned(j, cn) && History(k, cn) == History(j, cn) && Current(k, cn) == Current(j, cn)
    ensures Abandoned(k, cn)
  {
  }

  lemma {:induction false} RunIgnoresAbandoned(j: seq<Action>, calls: seq<Call>, cn: string)
    requires Abandoned(j, cn)
    ensures History(Run(j, calls), cn) == History(j, cn) && Current(Run(j, calls), cn) == Current(j, cn)
    ensures Registered(Run(j, calls), cn) == Registered(j, cn)
    decreases |calls|
  {
    if calls == [] {
    } else {
      var front := calls[..|calls| - 1];
      var mid := Run(j, front);
      RunIgnoresAbandoned(j, front, cn);
      StillAbandoned(j, mid, cn);
      StepIgnoresAbandoned(mid, calls[|calls| - 1], cn);
    }
  }

  // ---------- the answers decide the outcome ----------

  /** The answers that leave a company in a state, once it has been claimed. */
  ghost predicate LeftBy(s: State, io: Io) {
    match s
    case NoMatch => io.search == NoHit
    case Ambiguous => io.search == ManyHits
    case Discarded => io.search == Hit(Discard)
    case Research => io.search == Hit(ForResearch)
    case Complete => io.search == Hit(Retain) && io.enrichOk && io.persistOk
    case Failed => io.search == SearchThrows || (io.search == Hit(Retain) && !(io.enrichOk && io.persistOk))
    case _ => false
  }

  lemma LastIsOutcome(current: Option<State>, cn: string, io: Io)
    requires Claimable(current)
    ensures var acts := Actions(current, cn, io);
            acts != [] && OutcomeOf(current, io) != AlreadyClaimed
                && acts[|acts| - 1] == Log(cn, StateAfter(OutcomeOf(current, io)))
  {
  }

  /** A whole call leaves a claimable company without a match exactly when the search finds nothing,
      ambiguous exactly when it finds several, and so on for the status gate and the three I/O steps. */
  lemma AnswersDecideState(j: seq<Action>, cn: string, io: Io)
    requires Claimable(Current(j, cn))
    ensures var s := Current(Step(j, Process(cn, io, WHOLE)), cn);
            && s.Some? && LeftBy(s.value, io)
            && (s == Some(NoMatch) <==> io.search == NoHit)
            && (s == Some(Ambiguous) <==> io.search == ManyHits)
            && (s == Some(Discarded) <==> io.search == Hit(Discard))
            && (s == Some(Research) <==> io.search == Hit(ForResearch))
            && (s == Some(Complete) <==> io == Io(Hit(Retain), true, true))
            && (s == Some(Failed) <==>
                io.search == SearchThrows || (io.search == Hit(Retain) && !(io.enrichOk && io.persistOk)))
  {
    var current := Current(j, cn);
    WholeCall(j, cn, io);
    LastIsOutcome(current, cn, io);
    LastLogDecides(j, Actions(current, cn, io), cn, StateAfter(OutcomeOf(current, io)));
  }

  /** After a whole call that found nothing, or whose match was discarded, set aside for research or
      acquired, no run ever changes the company again. */
  lemma AnswerIsFinal(j: seq<Action>, cn: string, io: Io, calls: seq<Call>)
    requires Claimable(Current(j, cn))
    requires io.search == NoHit || io.search == Hit(Discard) || io.search == Hit(ForResearch)
             || io == Io(Hit(Retain), true, true)
    ensures var k := Step(j, Process(cn, io, WHOLE));
            && History(Run(k, calls), cn) == History(k, cn) && Current(Run(k, calls), cn) == Current(k, cn)
            && Registered(Run(k, calls), cn) == Registered(k, cn)
  {
    var k := Step(j, Process(cn, io, WHOLE));
    AnswersDecideState(j, cn, io);
    CurrentIsLastEvent(k, cn);
    RunIgnoresAbandoned(k, calls, cn);
  }

  const LUCKY: Io := Io(Hit(Retain), true, true)

  lemma LastLogDecides(j: seq<Action>, acts: seq<Action>, cn: string, s: State)
    requires acts != [] && acts[|acts| - 1] == Log(cn, s)
    ensures Current(j + acts, cn) == Some(s)
  {
    LastAppend(j, acts);
    AppendLog(j + acts[..|acts| - 1], cn, s, cn);
  }

  lemma LuckyCallCompletes(j: seq<Action>, cn: string)
    requires Claimable(Current(j, cn))
    ensures Current(Step(j, Process(cn, LUCKY, WHOLE)), cn) == Some(Complete)
  {
    WholeCall(j, cn, LUCKY);
    LuckyActions(Current(j, cn), cn);
    LastLogDecides(j, Actions(Current(j, cn), cn, LUCKY), cn, Complete);
  }

  lemma LuckyActions(current: Option<State>, cn: string)
    requires Claimable(current)
    ensures var acts := Actions(current, cn, LUCKY); acts != [] && acts[|acts| - 1] == Log(cn, Complete)
  {
    assert AfterEnrich(cn, LUCKY) == [Reg(cn), Log(cn, Persisted), Log(cn, Complete)];
  }

  lemma RunOne(j: seq<Action>, c: Call)
    ensures Run(j, [c]) == Step(j, c)
  {
    RunOneMore(j, [], c);
    assert [] + [c] == [c];
  }

  /** Recovery, then one more call. */
  function RecoverAndRetry(j: seq<Action>, cn: string): seq<Call> {
    [WholeRecovery(j), Process(cn, LUCKY, WHOLE)]
  }

  lemma OrphanCompletes(j: seq<Action>, cn: string)
    requires Orphaned(j, cn)
    ensures Current(Run(j, RecoverAndRetry(j, cn)), cn) == Some(Complete)
  {
    var k := Step(j, WholeRecovery(j));
    OrphanIsRecovered(j, cn);
    LuckyCallCompletes(k, cn);
    RunOne(k, Process(cn, LUCKY, WHOLE));
    RunFirst(j, WholeRecovery(j), [Process(cn, LUCKY, WHOLE)]);
    assert [WholeRecovery(j)] + [Process(cn, LUCKY, WHOLE)] == RecoverAndRetry(j, cn);
  }

  lemma OrphanIsRecovered(j: seq<Action>, cn: string)
    requires Orphaned(j, cn)
    ensures Current(Step(j, WholeRecovery(j)), cn) == Some(Ambiguous)
  {
    CurrentIsLastEvent(j, cn);
    RecoveryReverts(j, Companies(j), cn);
    WholeRecoveryStep(j);
  }

  /** An incomplete company can still be completed by some future run exactly when it is claimable
      (absent, unseen, failed or ambiguous) or an orphaned re-resolution claim. Every other crash
      point abandons it: no later run changes its history. */
  lemma CompletesLaterIff(j: seq<Action>, cn: string)
    requires Current(j, cn) != Some(Complete)
    ensures (exists calls :: Current(Run(j, calls), cn) == Some(Complete))
            <==> (Current(j, cn) == None || Current(j, cn) == Some(Unseen) || Current(j, cn) == Some(Failed)
                  || Current(j, cn) == Some(Ambiguous) || Orphaned(j, cn))
  {
    ClaimableIs(Current(j, cn));
    if Abandoned(j, cn) {
      forall calls ensures Current(Run(j, calls), cn) == Current(j, cn) {
        RunIgnoresAbandoned(j, calls, cn);
      }
    } else if Claimable(Current(j, cn)) {
      LuckyCallCompletes(j, cn);
      RunOne(j, Process(cn, LUCKY, WHOLE));
    } else {
      OrphanCompletes(j, cn);
    }
  }

  /** A whole call leaves its company open for a later completion exactly when the search found several
      matches or an I/O step failed. */
  lemma StaysOpenIff(j: seq<Action>, cn: string, io: Io)
    requires Claimable(Current(j, cn)) && io != Io(Hit(Retain), true, true)
    ensures (exists calls :: Current(Run(Step(j, Process(cn, io, WHOLE)), calls), cn) == Some(Complete))
            <==> io.search == SearchThrows || io.search == ManyHits || io.search == Hit(Retain)
  {
    var k := Step(j, Process(cn, io, WHOLE));
    AnswersDecideState(j, cn, io);
    CurrentIsLastEvent(k, cn);
    CompletesLaterIff(k, cn);
  }

  /** A crash after the registry append but before its ledger line: the company is registered and
      enriched for good, never persisted in the ledger and never registered twice. */
  lemma CrashAfterPersistIsFinal(j: seq<Action>, cn: string, calls: seq<Call>)
    requires Current(j, cn) == Some(Enriched) && Registered(j, cn) == 1
    ensures Current(Run(j, calls), cn) == Some(Enriched) && Registered(Run(j, calls), cn) == 1
  {
    CurrentIsLastEvent(j, cn);
    RunIgnoresAbandoned(j, calls, cn);
  }
}
