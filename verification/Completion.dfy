/** observatory/baseline/complete.js: the batch loop that completes one signal, with attempts that
    survive pauses in a state file. Stored rows are never removed. */
module Completion {
  import opened Orders

  function Get(m: map<string, nat>, d: string): nat {
    if d in m then m[d] else 0
  }

  /** How many attempts a domain gets, and the names that every JavaScript object inherits. The attempts
      are kept in a plain object, where such a name starts with an inherited value, so its attempts are
      never a number and the domain is never given up. The model counts them all the same. */
  datatype Rule = Rule(max: nat, inherited: set<string>)

  /** The domains neither observed nor given up, in the order of the population. */
  function Missing(domains: seq<string>, observed: set<string>, permanent: set<string>): seq<string> {
    if domains == [] then []
    else
      var n := |domains| - 1;
      Missing(domains[..n], observed, permanent)
          + if domains[n] in observed || domains[n] in permanent then [] else [domains[n]]
  }

  lemma {:induction false} MissingOnes(domains: seq<string>, observed: set<string>, permanent: set<string>)
    ensures forall d ::
            d in Missing(domains, observed, permanent) <==> d in domains && d !in observed && d !in permanent
    ensures NoDuplicates(domains) ==> NoDuplicates(Missing(domains, observed, permanent))
  {
    if domains == [] {
    } else {
      var n := |domains| - 1;
      MissingOnes(domains[..n], observed, permanent);
      assert domains == domains[..n] + [domains[n]];
    }
  }

  /** The missing domains stand in the order of the population. */
  lemma {:induction false} MissingInOrder(domains: seq<string>, observed: set<string>, permanent: set<string>,
                                          i: nat, j: nat) returns (a: nat, b: nat)
    requires i < j < |domains| && domains[i] !in observed + permanent && domains[j] !in observed + permanent
    ensures a < b < |Missing(domains, observed, permanent)|
    ensures Missing(domains, observed, permanent)[a] == domains[i]
    ensures Missing(domains, observed, permanent)[b] == domains[j]
  {
    var n := |domains| - 1;
    MissingOnes(domains[..n], observed, permanent);
    if j == n {
      assert domains[..n][i] in domains[..n];
      var front := Missing(domains[..n], observed, permanent);
      a :| 0 <= a < |front| && front[a] == domains[i];
      b := |front|;
    } else {
      a, b := MissingInOrder(domains[..n], observed, permanent, i, j);
    }
  }

  // ---------- the measure ----------

  /** The runs that a missing domain may still get, if its attempts count. */
  function RunsLeft(d: string, observed: set<string>, permanent: set<string>, attempts: map<string, nat>,
                    rule: Rule): int {
    if d in observed || d in permanent || d in rule.inherited then 0 else rule.max - Get(attempts, d)
  }

  function Budget(domains: seq<string>, n: nat, observed: set<string>, permanent: set<string>,
                  attempts: map<string, nat>, rule: Rule): int
    requires n <= |domains|
  {
    if n == 0 then 0
    else
      Budget(domains, n - 1, observed, permanent, attempts, rule)
          + RunsLeft(domains[n - 1], observed, permanent, attempts, rule)
  }

  /** A missing domain has attempts left; a domain given up without a row has used them all. A domain
      with an inherited name is never given up. */
  ghost predicate AttemptOk(d: string, observed: set<string>, permanent: set<string>, attempts: map<string, nat>,
                            rule: Rule) {
    if d in rule.inherited then d !in permanent
    else
      && Get(attempts, d) <= rule.max
      && (d !in observed && d !in permanent ==> Get(attempts, d) < rule.max)
      && (d in permanent ==> Get(attempts, d) == rule.max)
  }

  ghost predicate AttemptsOk(observed: set<string>, permanent: set<string>, attempts: map<string, nat>, rule: Rule) {
    forall d {:trigger AttemptOk(d, observed, permanent, attempts, rule)} ::
        AttemptOk(d, observed, permanent, attempts, rule)
  }

  lemma {:induction false} BudgetIsNonNegative(domains: seq<string>, n: nat, observed: set<string>,
                                               permanent: set<string>, attempts: map<string, nat>, rule: Rule)
    requires n <= |domains| && AttemptsOk(observed, permanent, attempts, rule)
    ensures Budget(domains, n, observed, permanent, attempts, rule) >= 0
  {
    if n == 0 {
    } else {
      BudgetIsNonNegative(domains, n - 1, observed, permanent, attempts, rule);
      assert AttemptOk(domains[n - 1], observed, permanent, attempts, rule);
    }
  }

  // ---------- one batch ----------

  /** One more for every domain of the batch. */
  ghost predicate Bumped(before: map<string, nat>, after: map<string, nat>, batch: seq<string>, n: nat)
    requires n <= |batch|
  {
    forall d :: Get(after, d) == Get(before, d) + if d in batch[..n] then 1 else 0
  }

  method BumpAttempts(before: map<string, nat>, batch: seq<string>) returns (after: map<string, nat>)
    requires NoDuplicates(batch)
    ensures Bumped(before, after, batch, |batch|)
  {
    after := before;
    for i := 0 to |batch|
      invariant Bumped(before, after, batch, i)
    {
      assert batch[..i + 1] == batch[..i] + [batch[i]];
      assert Get(after, batch[i]) == Get(before, batch[i]);
      after := after[batch[i] := (if batch[i] in after then after[batch[i]] else 0) + 1];
    }
  }

  /** `attempts[d] >= MAX_ATTEMPTS`. */
  predicate UsedUp(d: string, attempts: map<string, nat>, rule: Rule) {
    d !in rule.inherited && Get(attempts, d) >= rule.max
  }

  /** What a batch does to the domain sets: recovered domains are observed; the others are given up
      when their attempts are used up. */
  ghost predicate Classified(batch: seq<string>, n: nat, recovered: set<string>, attempts: map<string, nat>, rule: Rule,
                             observed: set<string>, permanent: set<string>, observed': set<string>,
                                 permanent': set<string>)
    requires n <= |batch|
  {
    && (forall d :: d in observed' <==> d in observed || (d in batch[..n] && d in recovered))
    && (forall d :: d in permanent' <==>
          d in permanent || (d in batch[..n] && d !in recovered && UsedUp(d, attempts, rule)))
  }

  method Classify(batch: seq<string>, recovered: set<string>, attempts: map<string, nat>, rule: Rule,
                  observed: set<string>, permanent: set<string>)
      returns (observed': set<string>, permanent': set<string>, recoveredCount: nat, transient: nat, permanentNew: nat)
    ensures Classified(batch, |batch|, recovered, attempts, rule, observed, permanent, observed', permanent')
    ensures recoveredCount + transient + permanentNew == |batch|
  {
    observed', permanent', recoveredCount, transient, permanentNew := observed, permanent, 0, 0, 0;
    for i := 0 to |batch|
      invariant Classified(batch, i, recovered, attempts, rule, observed, permanent, observed', permanent')
      invariant recoveredCount + transient + permanentNew == i
    {
      var d := batch[i];
      assert batch[..i + 1] == batch[..i] + [d];
      if d in recovered {
        observed', recoveredCount := observed' + {d}, recoveredCount + 1;
      } else if UsedUp(d, attempts, rule) {
        permanent', permanentNew := permanent' + {d}, permanentNew + 1;
      } else {
        transient := transient + 1;
      }
    }
  }

  /** The batch between two states: its domains were missing, were bumped and were classified. */
  ghost predicate BatchDone(batch: seq<string>, recovered: set<string>, rule: Rule,
                            observed: set<string>, permanent: set<string>, attempts: map<string, nat>,
                            observed': set<string>, permanent': set<string>, attempts': map<string, nat>) {
    && (forall d :: d in batch ==> d !in observed && d !in permanent)
    && Bumped(attempts, attempts', batch, |batch|)
    && Classified(batch, |batch|, recovered, attempts', rule, observed, permanent, observed', permanent')
  }

  lemma AttemptsStayOk(batch: seq<string>, recovered: set<string>, rule: Rule,
                       observed: set<string>, permanent: set<string>, attempts: map<string, nat>,
                       observed': set<string>, permanent': set<string>, attempts': map<string, nat>)
    requires AttemptsOk(observed, permanent, attempts, rule)
    requires BatchDone(batch, recovered, rule, observed, permanent, attempts, observed', permanent', attempts')
    ensures AttemptsOk(observed', permanent', attempts', rule)
  {
    assert batch[..|batch|] == batch;
    forall d ensures AttemptOk(d, observed', permanent', attempts', rule) {
      assert AttemptOk(d, observed, permanent, attempts, rule);
    }
  }

  /** Rows that arrive from elsewhere leave fewer domains missing. */
  lemma MoreRowsStayOk(observed: set<string>, rows: set<string>, permanent: set<string>, attempts: map<string, nat>,
                       rule: Rule)
    requires AttemptsOk(observed, permanent, attempts, rule) && observed <= rows
    ensures AttemptsOk(rows, permanent, attempts, rule)
  {
    forall d ensures AttemptOk(d, rows, permanent, attempts, rule) {
      assert AttemptOk(d, observed, permanent, attempts, rule);
    }
  }

  /** One of the first `n` domains is in the batch and its attempts count. */
  ghost predicate Counts(domains: seq<string>, n: nat, batch: seq<string>, rule: Rule)
    requires n <= |domains|
  {
    exists i :: 0 <= i < n && domains[i] in batch && domains[i] !in rule.inherited
  }

  /** No term grows, and the terms of the batch shrink where attempts count. */
  lemma {:induction false} BudgetShrinks(domains: seq<string>, n: nat, batch: seq<string>, recovered: set<string>,
                                         rule: Rule,
                                         observed: set<string>, permanent: set<string>, attempts: map<string, nat>,
                                         observed': set<string>, permanent': set<string>, attempts': map<string, nat>)
    requires n <= |domains| && AttemptsOk(observed, permanent, attempts, rule)
    requires BatchDone(batch, recovered, rule, observed, permanent, attempts, observed', permanent', attempts')
    ensures Budget(domains, n, observed', permanent', attempts', rule)
         <= Budget(domains, n, observed, permanent, attempts, rule)
             - if Counts(domains, n, batch, rule) then 1 else 0
  {
    if n == 0 {
    } else {
      BudgetShrinks(domains, n - 1, batch, recovered, rule, observed, permanent, attempts, observed', permanent',
          attempts');
      TermShrinks(domains[n - 1], batch, recovered, rule, observed, permanent, attempts, observed', permanent',
          attempts');
    }
  }

  lemma TermShrinks(d: string, batch: seq<string>, recovered: set<string>, rule: Rule,
                    observed: set<string>, permanent: set<string>, attempts: map<string, nat>,
                    observed': set<string>, permanent': set<string>, attempts': map<string, nat>)
    requires AttemptsOk(observed, permanent, attempts, rule)
    requires BatchDone(batch, recovered, rule, observed, permanent, attempts, observed', permanent', attempts')
    ensures RunsLeft(d, observed', permanent', attempts', rule)
         <= RunsLeft(d, observed, permanent, attempts, rule) - if d in batch && d !in rule.inherited then 1 else 0
  {
    assert batch[..|batch|] == batch;
    assert AttemptOk(d, observed, permanent, attempts, rule);
  }

  // ---------- the loop ----------

  /** What the environment does during a batch: rows that arrive in the table, whether the collector or
      the recovery query throws, and whether the time budget is used up afterwards. */
  datatype BatchAnswer = BatchAnswer(arrived: set<string>, throws: bool, outOfTime: bool)

  /** `StillRunning`: the loop has not ended within the batches that are watched. */
  datatype Outcome = Finished | Paused | Crashed | StillRunning

  /** What a session knows at the start of a batch, with the table and the count of runs. */
  datatype Moment = Moment(rows: set<string>, observed: set<string>, permanent: set<string>,
                           attempts: map<string, nat>, runs: map<string, nat>)

  /** `missing.slice(0, BATCH)`. */
  function Handed(domains: seq<string>, batchSize: nat, m: Moment): seq<string> {
    var missing := Missing(domains, m.observed, m.permanent);
    if batchSize < |missing| then missing[..batchSize] else missing
  }

  /** The count of every domain of the batch has gone up by one, and no other count has changed. */
  ghost predicate OneMoreOf(before: map<string, nat>, after: map<string, nat>, batch: seq<string>) {
    forall d :: Get(after, d) == Get(before, d) + if d in batch then 1 else 0
  }

  /** A whole batch leads from one moment to the next. */
  ghost predicate Round(domains: seq<string>, batchSize: nat, rule: Rule, a: BatchAnswer, m: Moment, m': Moment) {
    var batch := Handed(domains, batchSize, m);
    && batch != [] && m'.rows == m.rows + a.arrived && OneMoreOf(m.runs, m'.runs, batch)
    && BatchDone(batch, m'.rows, rule, m.observed, m.permanent, m.attempts, m'.observed, m'.permanent, m'.attempts)
  }

  ghost predicate PassAt(domains: seq<string>, batchSize: nat, rule: Rule, env: nat -> BatchAnswer, ms: seq<Moment>,
                         k: nat)
    requires k + 1 < |ms|
  {
    Round(domains, batchSize, rule, env(k), ms[k], ms[k + 1])
  }

  /** The moments between the batches of one session, from its first moment on. */
  ghost predicate Passes(domains: seq<string>, batchSize: nat, rule: Rule, env: nat -> BatchAnswer, ms: seq<Moment>,
                         first: Moment) {
    && ms != [] && ms[0] == first
    && forall k: nat {:trigger PassAt(domains, batchSize, rule, env, ms, k)} ::
         k + 1 < |ms| ==> PassAt(domains, batchSize, rule, env, ms, k)
  }

  lemma PassesOn(domains: seq<string>, batchSize: nat, rule: Rule, env: nat -> BatchAnswer, ms: seq<Moment>,
                 first: Moment, m: Moment)
    requires Passes(domains, batchSize, rule, env, ms, first)
    requires Round(domains, batchSize, rule, env(|ms| - 1), ms[|ms| - 1], m)
    ensures Passes(domains, batchSize, rule, env, ms + [m], first)
  {
    var more := ms + [m];
    forall k: nat | k + 1 < |more| ensures PassAt(domains, batchSize, rule, env, more, k) {
      if k + 1 < |ms| { assert PassAt(domains, batchSize, rule, env, ms, k); }
    }
  }

  lemma {:induction false} RowsComeFrom(domains: seq<string>, batchSize: nat, rule: Rule, env: nat -> BatchAnswer,
                                        ms: seq<Moment>, first: Moment, k: nat)
    requires Passes(domains, batchSize, rule, env, ms, first) && k < |ms|
    ensures RowsFrom(first.rows, env, k, ms[k].rows)
  {
    if k == 0 {
    } else {
      RowsComeFrom(domains, batchSize, rule, env, ms, first, k - 1);
      assert PassAt(domains, batchSize, rule, env, ms, k - 1);
    }
  }

  /** The signal's table and its part of the state file. `runs` counts how often a domain was handed to
      the collector, `lost` how often that attempt was not saved. */
  class Signal {
    var rows: set<string>
    var permanent: set<string>
    var attempts: map<string, nat>
    var done: bool
    ghost var runs: map<string, nat>
    ghost var lost: map<string, nat>

    ghost predicate Valid(rule: Rule)
      reads this
    {
      AttemptsOk(rows, permanent, attempts, rule) && RunsAre(runs, attempts, lost)
    }

    /** A fresh state file over an existing table. */
    constructor (rows: set<string>, ghost rule: Rule)
      requires rule.max >= 1
      ensures Valid(rule) && this.rows == rows && permanent == {} && attempts == map[] && lost == map[] && !done
    {
      this.rows, permanent, attempts, done := rows, {}, map[], false;
      runs, lost := map[], map[];
      new;
      forall d ensures AttemptOk(d, rows, permanent, attempts, rule) { }
    }

    /** The runs still allowed to the domains that are missing now. */
    ghost function Left(domains: seq<string>, observed: set<string>, rule: Rule): int
      reads this
    {
      Budget(domains, |domains|, observed, permanent, attempts, rule)
    }

    /** The state of a session in the middle: what it has seen is in the table, and its attempts are saved. */
    ghost predicate Running(observed: set<string>, rule: Rule)
      reads this
    {
      AttemptsOk(observed, permanent, attempts, rule) && RunsAre(runs, attempts, lost) && observed <= rows
    }

    ghost function Now(observed: set<string>): Moment
      reads this
    {
      Moment(rows, observed, permanent, attempts, runs)
    }

    /** One batch: attempts are counted, the collector runs, and what it recovered is looked up. If the
        collector or the query throws, nothing is saved. */
    method RunBatch(batch: seq<string>, rule: Rule, answer: BatchAnswer, observed: set<string>)
        returns (observed': set<string>)
      requires Running(observed, rule)
      requires NoDuplicates(batch) && forall d :: d in batch ==> d !in observed && d !in permanent
      modifies this
      ensures Running(observed', rule) && rows == old(rows) + answer.arrived && done == old(done)
      ensures OneMoreOf(old(runs), runs, batch)
      ensures answer.throws ==>
              observed' == observed && permanent == old(permanent) && attempts == old(attempts)
              && OneMoreOf(old(lost), lost, batch)
      ensures !answer.throws ==>
              lost == old(lost) && BatchDone(batch, rows, rule, observed, old(permanent), old(attempts), observed',
              permanent, attempts)
    {
      var bumped := BumpAttempts(attempts, batch);
      WithOneMoreIs(runs, batch);
      WithOneMoreIs(lost, batch);
      BatchIsCounted(runs, attempts, lost, batch, bumped);
      runs := WithOneMore(runs, batch);
      rows := rows + answer.arrived;
      observed' := observed;
      if answer.throws {
        lost := WithOneMore(lost, batch);
        return;
      }
      var permanent', recovered, transient, permanentNew;
      observed', permanent', recovered, transient,
          permanentNew := Classify(batch, rows, bumped, rule, observed, permanent);
      AttemptsStayOk(batch, rows, rule, observed, permanent, attempts, observed', permanent', bumped);
      RecoveredAreRows(batch, rows, rule, observed, permanent, bumped, observed', permanent');
      permanent, attempts := permanent', bumped;
    }

    /** The body of the loop: exactly the first missing domains are run, and the budget shrinks unless the
        batch is idle: all its domains have inherited names. */
    method NextBatch(domains: seq<string>, batchSize: nat, rule: Rule, answer: BatchAnswer, observed: set<string>,
                     missing: seq<string>)
        returns (observed': set<string>, ghost idle: nat)
      requires Running(observed, rule) && NoDuplicates(domains) && batchSize >= 1
      requires missing == Missing(domains, observed, permanent) && missing != []
      modifies this
      ensures Running(observed', rule) && rows == old(rows) + answer.arrived && done == old(done)
      ensures observed <= observed' && old(permanent) <= permanent
      ensures !answer.throws ==>
              Round(domains, batchSize, rule, answer, old(Now(observed)), Now(observed')) && lost == old(lost)
      ensures answer.throws ==> observed' == observed && permanent == old(permanent) && attempts == old(attempts)
      ensures answer.throws ==> CutShort(old(Now(observed)), old(lost), runs, lost, domains, batchSize)
      ensures Left(domains, observed', rule) <= old(Left(domains, observed, rule)) + idle
              - if answer.throws then 0 else 1
      ensures idle <= 1 && (idle > 0 ==> InheritedMissing(domains, rule, observed))
    {
      var batch := missing[..if batchSize < |missing| then batchSize else |missing|];
      assert batch == Handed(domains, batchSize, Now(observed));
      BatchIsMissing(domains, observed, permanent, batch);
      ghost var before, tried := permanent, attempts;
      observed' := RunBatch(batch, rule, answer, observed);
      idle := 0;
      if !answer.throws {
        BudgetShrinks(domains, |domains|, batch, rows, rule, observed, before, tried, observed', permanent, attempts);
        if !Counts(domains, |domains|, batch, rule) {
          IdleMeansInherited(domains, rule, observed, batch);
          idle := 1;
        }
      }
    }

    /** The books of a session at its end. What it has seen of the table lags behind the table, which leaves
        fewer runs. */
    ghost method SettleSession(domains: seq<string>, batchSize: nat, rule: Rule, env: nat -> BatchAnswer,
                               ms: seq<Moment>, first: Moment, observed: set<string>)
      requires Running(observed, rule) && NoDuplicates(domains) && Passes(domains, batchSize, rule, env, ms, first)
      requires AttemptsOk(first.observed, first.permanent, first.attempts, rule)
      requires var m := ms[|ms| - 1]; observed == m.observed && permanent == m.permanent && attempts == m.attempts
      ensures Valid(rule) && first.observed <= rows && first.permanent <= permanent && 0 <= Left(domains, rows, rule)
      ensures |ms| - 1 + Left(domains, rows, rule)
              <= BudgetAt(domains, rule, first) + IdleRounds(domains, batchSize, rule, ms, |ms| - 1)
      ensures IdleRounds(domains, batchSize, rule, ms, |ms| - 1) > 0 ==>
              InheritedMissing(domains, rule, first.observed)
      ensures RowsFrom(first.rows, env, |ms| - 1, ms[|ms| - 1].rows)
    {
      PassesSpend(domains, batchSize, rule, env, ms, first);
      MoreRowsStayOk(observed, rows, permanent, attempts, rule);
      BudgetIsNonNegative(domains, |domains|, rows, permanent, attempts, rule);
      SmallerBudget(domains, |domains|, observed, rows, permanent, attempts, rule);
    }

    /** The loop over the batches. */
    method RunBatches(domains: seq<string>, batchSize: nat, rule: Rule, env: nat -> BatchAnswer, limit: nat)
        returns (ended: Outcome, batches: nat, observed: set<string>, ghost moments: seq<Moment>)
      requires Valid(rule) && batchSize >= 1 && NoDuplicates(domains)
      modifies this
      ensures Running(observed, rule) && done == old(done) && batches <= limit
      ensures |moments| == (if ended == Crashed then batches else batches + 1)
      ensures Passes(domains, batchSize, rule, env, moments, old(Now(rows)))
      ensures ended != Crashed ==> lost == old(lost) && moments[batches] == Now(observed)
      ensures ended == Crashed ==>
              CutShort(moments[batches - 1], old(lost), runs, lost, domains, batchSize)
              && observed == moments[batches - 1].observed
              && rows == moments[batches - 1].rows + env(batches - 1).arrived
              && permanent == moments[batches - 1].permanent && attempts == moments[batches - 1].attempts
      ensures match ended
              case Crashed => batches >= 1 && env(batches - 1).throws
              case Paused => batches >= 1 && env(batches - 1).outOfTime
              case StillRunning =>
                Quiet(env, batches) && (batches == limit || Missing(domains, observed, permanent) == [])
              case Finished => false
    {
      observed := rows;
      ended, batches, moments := StillRunning, 0, [Now(rows)];
      var missing := Missing(domains, observed, permanent);
      while missing != [] && batches < limit
        invariant Running(observed, rule) && missing == Missing(domains, observed, permanent)
        invariant batches <= limit && done == old(done) && lost == old(lost)
        invariant ended == StillRunning && Quiet(env, batches)
        invariant |moments| == batches + 1 && moments[batches] == Now(observed)
        invariant Passes(domains, batchSize, rule, env, moments, old(Now(rows)))
        decreases limit - batches
      {
        var answer := env(batches);
        ghost var idle;
        observed, idle := NextBatch(domains, batchSize, rule, answer, observed, missing);
        batches := batches + 1;
        if answer.throws {
          ended := Crashed;
          return;
        }
        PassesOn(domains, batchSize, rule, env, moments, old(Now(rows)), Now(observed));
        moments := moments + [Now(observed)];
        missing := Missing(domains, observed, permanent);
        if answer.outOfTime {
          ended := Paused;
          return;
        }
      }
    }

    /** `completeSignal`, watched for at most `limit` batches. Its batches are exactly the passes from moment
        to moment. It ends within the runs left to the domains whose attempts count, plus the batches that
        hold only domains with inherited names: `idle` counts these. When it finishes, every domain has a row
        or was given up. */
    method CompleteSignal(domains: seq<string>, batchSize: nat, rule: Rule, env: nat -> BatchAnswer, limit: nat)
        returns (outcome: Outcome, batches: nat, ghost moments: seq<Moment>, ghost idle: nat)
      requires Valid(rule) && batchSize >= 1 && NoDuplicates(domains)
      modifies this
      ensures Valid(rule) && old(rows) <= rows && old(permanent) <= permanent && idle <= batches <= limit
      ensures 0 <= Left(domains, rows, rule)
      ensures batches + Left(domains, rows, rule)
                <= old(Left(domains, rows, rule)) + idle + if outcome == Crashed then 1 else 0
      ensures idle > 0 ==> InheritedMissing(domains, rule, old(rows))
      ensures RowsFrom(old(rows), env, batches, rows)
      ensures outcome == Finished ==> done && forall d :: d in domains ==> d in rows || d in permanent
      ensures EndedAs(outcome, env, batches, limit)
      ensures |moments| == (if outcome == Crashed then batches else batches + 1)
      ensures Passes(domains, batchSize, rule, env, moments, old(Now(rows)))
      ensures outcome != Crashed ==>
              lost == old(lost) && EndsAt(domains, outcome, moments[batches], Now(moments[batches].observed))
      ensures outcome == Crashed ==>
              CutShort(moments[batches - 1], old(lost), runs, lost, domains, batchSize)
              && permanent == moments[batches - 1].permanent && attempts == moments[batches - 1].attempts
    {
      var observed;
      outcome, batches, observed, moments := RunBatches(domains, batchSize, rule, env, limit);
      idle := IdleRounds(domains, batchSize, rule, moments, |moments| - 1);
      SettleSession(domains, batchSize, rule, env, moments, old(Now(rows)), observed);
      RowsAlsoFrom(old(rows), env, |moments| - 1, moments[|moments| - 1].rows);
      if outcome == StillRunning && Missing(domains, observed, permanent) == [] {
        AllSettled(domains, observed, permanent, rows);
        outcome, done := Finished, true;
      }
    }
  }

  /** How many of the first `n` batches hold only domains with inherited names. */
  ghost function IdleRounds(domains: seq<string>, batchSize: nat, rule: Rule, ms: seq<Moment>, n: nat): (idle: nat)
    requires n <= |ms|
    ensures idle <= n
  {
    if n == 0 then 0
    else
      IdleRounds(domains, batchSize, rule, ms, n - 1)
          + if Counts(domains, |domains|, Handed(domains, batchSize, ms[n - 1]), rule) then 0 else 1
  }

  ghost function BudgetAt(domains: seq<string>, rule: Rule, m: Moment): int {
    Budget(domains, |domains|, m.observed, m.permanent, m.attempts, rule)
  }

  lemma RoundSpends(domains: seq<string>, batchSize: nat, rule: Rule, a: BatchAnswer, m: Moment, m': Moment)
    requires Round(domains, batchSize, rule, a, m, m') && AttemptsOk(m.observed, m.permanent, m.attempts, rule)
    ensures AttemptsOk(m'.observed, m'.permanent, m'.attempts, rule)
    ensures m.observed <= m'.observed && m.permanent <= m'.permanent
    ensures BudgetAt(domains, rule, m') + 1
         <= BudgetAt(domains, rule, m)
             + if Counts(domains, |domains|, Handed(domains, batchSize, m), rule) then 0 else 1
  {
    var batch := Handed(domains, batchSize, m);
    AttemptsStayOk(batch, m'.rows, rule, m.observed, m.permanent, m.attempts, m'.observed, m'.permanent, m'.attempts);
    BudgetShrinks(domains, |domains|, batch, m'.rows, rule, m.observed, m.permanent, m.attempts, m'.observed,
        m'.permanent, m'.attempts);
  }

  /** Along a session every batch spends a run that was left, unless it is idle. */
  lemma {:induction false} BudgetAlong(domains: seq<string>, batchSize: nat, rule: Rule, env: nat -> BatchAnswer,
                                       ms: seq<Moment>, first: Moment, n: nat)
    requires Passes(domains, batchSize, rule, env, ms, first) && n < |ms|
    requires AttemptsOk(first.observed, first.permanent, first.attempts, rule)
    ensures AttemptsOk(ms[n].observed, ms[n].permanent, ms[n].attempts, rule)
    ensures first.observed <= ms[n].observed && first.permanent <= ms[n].permanent
    ensures n + BudgetAt(domains, rule, ms[n])
         <= BudgetAt(domains, rule, first) + IdleRounds(domains, batchSize, rule, ms, n)
  {
    if n == 0 {
    } else {
      BudgetAlong(domains, batchSize, rule, env, ms, first, n - 1);
      assert PassAt(domains, batchSize, rule, env, ms, n - 1);
      RoundSpends(domains, batchSize, rule, env(n - 1), ms[n - 1], ms[n]);
    }
  }

  lemma {:induction false} IdleRound(domains: seq<string>, batchSize: nat, rule: Rule, ms: seq<Moment>, n: nat)
    returns (k: nat)
    requires n <= |ms| && IdleRounds(domains, batchSize, rule, ms, n) > 0
    ensures k < n && !Counts(domains, |domains|, Handed(domains, batchSize, ms[k]), rule)
  {
    if !Counts(domains, |domains|, Handed(domains, batchSize, ms[n - 1]), rule) {
      k := n - 1;
    } else {
      k := IdleRound(domains, batchSize, rule, ms, n - 1);
    }
  }

  lemma IdleRoundsMeanInherited(domains: seq<string>, batchSize: nat, rule: Rule, env: nat -> BatchAnswer,
                                ms: seq<Moment>, first: Moment, n: nat)
    requires Passes(domains, batchSize, rule, env, ms, first) && n < |ms| && NoDuplicates(domains)
    requires AttemptsOk(first.observed, first.permanent, first.attempts, rule)
    ensures IdleRounds(domains, batchSize, rule, ms, n) > 0 ==> InheritedMissing(domains, rule, first.observed)
  {
    if IdleRounds(domains, batchSize, rule, ms, n) > 0 {
      var k := IdleRound(domains, batchSize, rule, ms, n);
      assert PassAt(domains, batchSize, rule, env, ms, k);
      BudgetAlong(domains, batchSize, rule, env, ms, first, k);
      IdleIsInherited(domains, batchSize, rule, ms[k]);
    }
  }

  lemma IdleIsInherited(domains: seq<string>, batchSize: nat, rule: Rule, m: Moment)
    requires NoDuplicates(domains) && Handed(domains, batchSize, m) != []
    requires !Counts(domains, |domains|, Handed(domains, batchSize, m), rule)
    ensures InheritedMissing(domains, rule, m.observed)
  {
    BatchIsMissing(domains, m.observed, m.permanent, Handed(domains, batchSize, m));
    IdleMeansInherited(domains, rule, m.observed, Handed(domains, batchSize, m));
  }

  /** What a session has gained and spent at its last moment. */
  lemma PassesSpend(domains: seq<string>, batchSize: nat, rule: Rule, env: nat -> BatchAnswer, ms: seq<Moment>,
                    first: Moment)
    requires Passes(domains, batchSize, rule, env, ms, first) && NoDuplicates(domains)
    requires AttemptsOk(first.observed, first.permanent, first.attempts, rule)
    ensures var n, m := |ms| - 1, ms[|ms| - 1];
            && first.observed <= m.observed && first.permanent <= m.permanent && RowsFrom(first.rows, env, n, m.rows)
            && n + BudgetAt(domains, rule, m)
               <= BudgetAt(domains, rule, first) + IdleRounds(domains, batchSize, rule, ms, n)
            && (IdleRounds(domains, batchSize, rule, ms, n) > 0 ==> InheritedMissing(domains, rule, first.observed))
  {
    BudgetAlong(domains, batchSize, rule, env, ms, first, |ms| - 1);
    IdleRoundsMeanInherited(domains, batchSize, rule, env, ms, first, |ms| - 1);
    RowsComeFrom(domains, batchSize, rule, env, ms, first, |ms| - 1);
  }

  lemma AllSettled(domains: seq<string>, observed: set<string>, permanent: set<string>, rows: set<string>)
    requires Missing(domains, observed, permanent) == [] && observed <= rows
    ensures forall d :: d in domains ==> d in rows || d in permanent
  {
    MissingOnes(domains, observed, permanent);
  }

  /** A batch that was handed out but not saved. */
  ghost predicate CutShort(m: Moment, lostBefore: map<string, nat>, runs: map<string, nat>, lost: map<string, nat>,
                           domains: seq<string>, batchSize: nat) {
    var batch := Handed(domains, batchSize, m);
    batch != [] && OneMoreOf(m.runs, runs, batch) && OneMoreOf(lostBefore, lost, batch)
  }

  /** A session that was not cut short ends with its last moment, and finishes only if nothing is missing. */
  ghost predicate EndsAt(domains: seq<string>, outcome: Outcome, m: Moment, now: Moment) {
    && m == now
    && (outcome == Finished ==> Missing(domains, m.observed, m.permanent) == [])
    && (outcome == StillRunning ==> Missing(domains, m.observed, m.permanent) != [])
  }

  /** A domain with an inherited name has no row. */
  ghost predicate InheritedMissing(domains: seq<string>, rule: Rule, rows: set<string>) {
    exists d :: d in domains && d in rule.inherited && d !in rows
  }

  lemma IdleMeansInherited(domains: seq<string>, rule: Rule, observed: set<string>, batch: seq<string>)
    requires batch != [] && (forall d :: d in batch ==> d in domains && d !in observed)
    requires !Counts(domains, |domains|, batch, rule)
    ensures InheritedMissing(domains, rule, observed)
  {
    var d := batch[0];
    assert d in batch;
    var i :| 0 <= i < |domains| && domains[i] == d;
  }

  /** A domain went to the collector as often as it has attempts, saved or lost. */
  ghost predicate RunsAre(runs: map<string, nat>, attempts: map<string, nat>, lost: map<string, nat>) {
    forall d :: Get(runs, d) == Get(attempts, d) + Get(lost, d)
  }

  /** A batch adds one run to each of its domains, and one attempt or, if nothing is saved, one loss. */
  lemma BatchIsCounted(runs: map<string, nat>, attempts: map<string, nat>, lost: map<string, nat>, batch: seq<string>,
                       bumped: map<string, nat>)
    requires RunsAre(runs, attempts, lost) && Bumped(attempts, bumped, batch, |batch|)
    ensures RunsAre(WithOneMore(runs, batch), bumped, lost)
    ensures RunsAre(WithOneMore(runs, batch), attempts, WithOneMore(lost, batch))
  {
    assert batch[..|batch|] == batch;
  }

  lemma RecoveredAreRows(batch: seq<string>, rows: set<string>, rule: Rule, observed: set<string>,
                         permanent: set<string>, attempts: map<string, nat>, observed': set<string>,
                         permanent': set<string>)
    requires observed <= rows
    requires Classified(batch, |batch|, rows, attempts, rule, observed, permanent, observed', permanent')
    ensures observed' <= rows
  {
  }

  lemma BatchIsMissing(domains: seq<string>, observed: set<string>, permanent: set<string>, batch: seq<string>)
    requires NoDuplicates(domains) && batch <= Missing(domains, observed, permanent) && batch != []
    ensures NoDuplicates(batch) && (exists i :: 0 <= i < |domains| && domains[i] in batch)
    ensures forall d :: d in batch ==> d in domains && d !in observed && d !in permanent
  {
    MissingOnes(domains, observed, permanent);
    var missing := Missing(domains, observed, permanent);
    forall d | d in batch ensures d in missing { }
    assert batch[0] in batch;
  }

  /** Every row was there before or arrived during one of the first `n` batches. */
  ghost predicate RowsFrom(before: set<string>, env: nat -> BatchAnswer, n: nat, rows: set<string>) {
    forall d :: d in rows ==> d in before || Arrived(env, n, d)
  }

  lemma RowsAlsoFrom(before: set<string>, env: nat -> BatchAnswer, n: nat, rows: set<string>)
    requires RowsFrom(before, env, n, rows)
    ensures RowsFrom(before, env, n + 1, rows + env(n).arrived)
  {
  }

  predicate Arrived(env: nat -> BatchAnswer, n: nat, d: string) {
    n > 0 && (d in env(n - 1).arrived || Arrived(env, n - 1, d))
  }

  /** The first `n` batches neither threw nor used up the time budget. */
  predicate Quiet(env: nat -> BatchAnswer, n: nat) {
    n > 0 ==> !env(n - 1).throws && !env(n - 1).outOfTime && Quiet(env, n - 1)
  }

  /** What the environment did when a session ended as it did. */
  predicate EndedAs(outcome: Outcome, env: nat -> BatchAnswer, batches: nat, limit: nat) {
    match outcome
    case Finished => Quiet(env, batches)
    case Paused => batches >= 1 && env(batches - 1).outOfTime
    case Crashed => batches >= 1 && env(batches - 1).throws
    case StillRunning => batches == limit && Quiet(env, batches)
  }

  lemma WithOneMoreIs(before: map<string, nat>, batch: seq<string>)
    ensures OneMoreOf(before, WithOneMore(before, batch), batch)
  {
  }

  ghost function WithOneMore(before: map<string, nat>, batch: seq<string>): map<string, nat> {
    map d | d in before.Keys + (set e | e in batch) :: Get(before, d) + if d in batch then 1 else 0
  }

  /** Rows that the loop has not looked at only lower the budget. */
  lemma {:induction false} SmallerBudget(domains: seq<string>, n: nat, observed: set<string>, rows: set<string>,
                                         permanent: set<string>, attempts: map<string, nat>, rule: Rule)
    requires n <= |domains| && observed <= rows && AttemptsOk(observed, permanent, attempts, rule)
    ensures Budget(domains, n, rows, permanent, attempts, rule) <= Budget(domains, n, observed, permanent, attempts,
            rule)
  {
    if n == 0 {
    } else {
      SmallerBudget(domains, n - 1, observed, rows, permanent, attempts, rule);
      assert AttemptOk(domains[n - 1], observed, permanent, attempts, rule);
    }
  }

  // ---------- what the batches hold ----------

  /** A batch is full, or it holds everything that is missing. */
  lemma HandedAreMissing(domains: seq<string>, batchSize: nat, m: Moment)
    requires NoDuplicates(domains)
    ensures var batch, missing := Handed(domains, batchSize, m), Missing(domains, m.observed, m.permanent);
            && batch <= missing && NoDuplicates(batch) && (forall d :: d in batch ==> d in domains)
            && |batch| == (if batchSize < |missing| then batchSize else |missing|)
  {
    MissingOnes(domains, m.observed, m.permanent);
    var missing := Missing(domains, m.observed, m.permanent);
    assert forall d :: d in Handed(domains, batchSize, m) ==> d in missing;
  }

  lemma {:induction false} MissingShrinks(domains: seq<string>, batchSize: nat, rule: Rule, env: nat -> BatchAnswer,
                                          ms: seq<Moment>, first: Moment, k: nat, n: nat, d: string)
    requires Passes(domains, batchSize, rule, env, ms, first) && k <= n < |ms|
    requires d in Missing(domains, ms[n].observed, ms[n].permanent)
    ensures d in Missing(domains, ms[k].observed, ms[k].permanent)
    decreases n - k
  {
    if k == n {
    } else {
      assert PassAt(domains, batchSize, rule, env, ms, n - 1);
      MissingOnes(domains, ms[n].observed, ms[n].permanent);
      MissingOnes(domains, ms[n - 1].observed, ms[n - 1].permanent);
      MissingShrinks(domains, batchSize, rule, env, ms, first, k, n - 1, d);
    }
  }

  /** Only the last round through the missing domains may have batches that are not full: one with fewer
      than `batchSize` domains holds all that is missing, and every later one holds some of the same. */
  lemma ShortBatchIsAll(domains: seq<string>, batchSize: nat, rule: Rule, env: nat -> BatchAnswer, ms: seq<Moment>,
                        first: Moment, k: nat, n: nat)
    requires Passes(domains, batchSize, rule, env, ms, first) && k <= n < |ms| && NoDuplicates(domains)
    requires |Handed(domains, batchSize, ms[k])| < batchSize
    ensures Handed(domains, batchSize, ms[k]) == Missing(domains, ms[k].observed, ms[k].permanent)
    ensures forall d :: d in Handed(domains, batchSize, ms[n]) ==> d in Handed(domains, batchSize, ms[k])
  {
    HandedAreMissing(domains, batchSize, ms[k]);
    HandedAreMissing(domains, batchSize, ms[n]);
    var later := Missing(domains, ms[n].observed, ms[n].permanent);
    forall d | d in Handed(domains, batchSize, ms[n]) ensures d in Handed(domains, batchSize, ms[k]) {
      assert d in later;
      MissingShrinks(domains, batchSize, rule, env, ms, first, k, n, d);
    }
  }

  /** How often the first `n` domains were run, all together. */
  ghost function RunsOf(domains: seq<string>, n: nat, runs: map<string, nat>): nat
    requires n <= |domains|
  {
    if n == 0 then 0 else RunsOf(domains, n - 1, runs) + Get(runs, domains[n - 1])
  }

  /** The sizes of the first `n` batches, all together. */
  ghost function HandedOut(domains: seq<string>, batchSize: nat, ms: seq<Moment>, n: nat): nat
    requires n <= |ms|
  {
    if n == 0 then 0 else HandedOut(domains, batchSize, ms, n - 1) + |Handed(domains, batchSize, ms[n - 1])|
  }

  ghost function InBatch(domains: seq<string>, n: nat, batch: seq<string>): set<string>
    requires n <= |domains|
  {
    set i | 0 <= i < n && domains[i] in batch :: domains[i]
  }

  lemma InBatchNext(domains: seq<string>, n: nat, batch: seq<string>)
    requires n < |domains| && NoDuplicates(domains)
    ensures |InBatch(domains, n + 1, batch)| == |InBatch(domains, n, batch)| + if domains[n] in batch then 1 else 0
  {
    var before, after := InBatch(domains, n, batch), InBatch(domains, n + 1, batch);
    if domains[n] in batch {
      assert domains[n] !in before && after == before + {domains[n]};
    } else {
      assert after == before;
    }
  }

  lemma {:induction false} BatchAddsUp(domains: seq<string>, n: nat, before: map<string, nat>, after: map<string, nat>,
                                       batch: seq<string>)
    requires n <= |domains| && NoDuplicates(domains) && OneMoreOf(before, after, batch)
    ensures RunsOf(domains, n, after) == RunsOf(domains, n, before) + |InBatch(domains, n, batch)|
  {
    if n == 0 {
    } else {
      BatchAddsUp(domains, n - 1, before, after, batch);
      InBatchNext(domains, n - 1, batch);
    }
  }

  lemma {:induction false} DistinctAreAsMany(s: seq<string>)
    requires NoDuplicates(s)
    ensures |set i | 0 <= i < |s| :: s[i]| == |s|
  {
    var all := set i | 0 <= i < |s| :: s[i];
    if s == [] {
    } else {
      var n := |s| - 1;
      DistinctAreAsMany(s[..n]);
      var front := set i | 0 <= i < |s[..n]| :: s[..n][i];
      assert s[n] !in front && all == front + {s[n]};
    }
  }

  lemma AllInBatch(domains: seq<string>, batch: seq<string>)
    requires NoDuplicates(domains) && NoDuplicates(batch) && forall d :: d in batch ==> d in domains
    ensures |InBatch(domains, |domains|, batch)| == |batch|
  {
    DistinctAreAsMany(batch);
    var all := set i | 0 <= i < |batch| :: batch[i];
    forall d ensures d in InBatch(domains, |domains|, batch) <==> d in all {
      assert d in batch ==> d in domains;
    }
    assert InBatch(domains, |domains|, batch) == all;
  }

  lemma RoundAddsUp(domains: seq<string>, batchSize: nat, rule: Rule, env: nat -> BatchAnswer, ms: seq<Moment>,
                    first: Moment, k: nat)
    requires Passes(domains, batchSize, rule, env, ms, first) && k + 1 < |ms| && NoDuplicates(domains)
    ensures RunsOf(domains, |domains|, ms[k + 1].runs)
         == RunsOf(domains, |domains|, ms[k].runs) + |Handed(domains, batchSize, ms[k])|
  {
    assert PassAt(domains, batchSize, rule, env, ms, k);
    HandedAreMissing(domains, batchSize, ms[k]);
    BatchAddsUp(domains, |domains|, ms[k].runs, ms[k + 1].runs, Handed(domains, batchSize, ms[k]));
    AllInBatch(domains, Handed(domains, batchSize, ms[k]));
  }

  /** The runs of all domains grow by exactly the sizes of the batches. */
  lemma RunsAddUp(domains: seq<string>, batchSize: nat, rule: Rule, env: nat -> BatchAnswer, ms: seq<Moment>,
                  first: Moment, n: nat)
    requires Passes(domains, batchSize, rule, env, ms, first) && n < |ms| && NoDuplicates(domains)
    ensures RunsOf(domains, |domains|, ms[n].runs)
         == RunsOf(domains, |domains|, first.runs) + HandedOut(domains, batchSize, ms, n)
  {
    for k := 0 to n
      invariant RunsOf(domains, |domains|, ms[k].runs)
             == RunsOf(domains, |domains|, first.runs) + HandedOut(domains, batchSize, ms, k)
    {
      RoundAddsUp(domains, batchSize, rule, env, ms, first, k);
    }
  }

  /** With room for all missing domains the first batch runs every one of them once and no other, and when
      all are at their last attempt, nothing is missing after it. */
  lemma OneBatchForAll(domains: seq<string>, batchSize: nat, rule: Rule, env: nat -> BatchAnswer, ms: seq<Moment>,
                       first: Moment)
    requires Passes(domains, batchSize, rule, env, ms, first) && |ms| >= 2 && NoDuplicates(domains)
    requires |Missing(domains, first.observed, first.permanent)| <= batchSize
    ensures OneMoreOf(first.runs, ms[1].runs, Missing(domains, first.observed, first.permanent))
    ensures (forall d :: d in Missing(domains, first.observed, first.permanent) ==>
              d !in rule.inherited && Get(first.attempts, d) + 1 >= rule.max) ==>
            Missing(domains, ms[1].observed, ms[1].permanent) == []
  {
    assert PassAt(domains, batchSize, rule, env, ms, 0);
    assert Handed(domains, batchSize, first) == Missing(domains, first.observed, first.permanent);
    LastAttemptsEnd(domains, batchSize, rule, env(0), first, ms[1]);
  }

  lemma LastAttemptsEnd(domains: seq<string>, batchSize: nat, rule: Rule, a: BatchAnswer, m: Moment, m': Moment)
    requires Round(domains, batchSize, rule, a, m, m')
    requires Handed(domains, batchSize, m) == Missing(domains, m.observed, m.permanent)
    ensures (forall d :: d in Missing(domains, m.observed, m.permanent) ==>
              d !in rule.inherited && Get(m.attempts, d) + 1 >= rule.max) ==>
            Missing(domains, m'.observed, m'.permanent) == []
  {
    var missing, next := Missing(domains, m.observed, m.permanent), Missing(domains, m'.observed, m'.permanent);
    MissingOnes(domains, m.observed, m.permanent);
    MissingOnes(domains, m'.observed, m'.permanent);
    assert missing[..|missing|] == missing;
    if next != [] {
      var d := next[0];
      assert d in next && d in missing;
    }
  }

  // ---------- across sessions ----------

  /** No domain whose attempts count is run more often than `max` plus its lost attempts, and one that was
      given up was run exactly that often. A domain with an inherited name is never given up. */
  lemma RunsAreBounded(d: string, observed: set<string>, permanent: set<string>, rule: Rule,
                       runs: map<string, nat>, attempts: map<string, nat>, lost: map<string, nat>)
    requires AttemptsOk(observed, permanent, attempts, rule) && RunsAre(runs, attempts, lost)
    ensures d in rule.inherited ==> d !in permanent
    ensures d !in rule.inherited ==>
              && Get(runs, d) <= rule.max + Get(lost, d)
              && (d in permanent ==> Get(runs, d) == rule.max + Get(lost, d))
              && (d !in observed && d !in permanent ==> Get(runs, d) < rule.max + Get(lost, d))
  {
    assert AttemptOk(d, observed, permanent, attempts, rule);
  }

  /** Every domain lost at most `k` attempts more than before. */
  ghost predicate LostAtMost(before: map<string, nat>, after: map<string, nat>, k: nat) {
    forall d :: Get(after, d) <= Get(before, d) + k
  }

  lemma CrashLosesOne(before: map<string, nat>, lost: map<string, nat>, after: map<string, nat>, k: nat,
                      batch: seq<string>)
    requires LostAtMost(before, lost, k) && OneMoreOf(lost, after, batch)
    ensures LostAtMost(before, after, k + 1)
  {
  }

  /** How the sessions ended: `crashes` of them crashed, each in a batch that threw, and only the last one can
      have finished. */
  ghost predicate EndsOf(env: nat -> nat -> BatchAnswer, ends: seq<Outcome>, sessions: nat, crashes: nat,
                         finished: bool) {
    && |ends| == sessions && crashes == multiset(ends)[Crashed]
    && (finished <==> ends != [] && ends[|ends| - 1] == Finished)
    && forall k :: 0 <= k < |ends| && ends[k] == Crashed ==> exists b: nat :: env(k)(b).throws
  }

  lemma EndsMore(env: nat -> nat -> BatchAnswer, ends: seq<Outcome>, sessions: nat, crashes: nat, outcome: Outcome)
    requires EndsOf(env, ends, sessions, crashes, false)
    requires outcome == Crashed ==> exists b: nat :: env(sessions)(b).throws
    ensures EndsOf(env, ends + [outcome], sessions + 1, crashes + if outcome == Crashed then 1 else 0,
                outcome == Finished)
  {
    var more := ends + [outcome];
    forall k | 0 <= k < |more| && more[k] == Crashed ensures exists b: nat :: env(k)(b).throws {
      if k < |ends| { assert ends[k] == Crashed; }
    }
  }

  /** At most `n` sessions, each re-run after a pause, after a crash, or after it was stopped between two
      batches. All batches together stay within the runs that were left at the start, plus one per crash
      and the idle ones; so more sessions than that always finish. A domain whose attempts count is run at
      most `max` times plus one per crash. */
  method RunSessions(s: Signal, domains: seq<string>, batchSize: nat, rule: Rule, env: nat -> nat -> BatchAnswer,
                     limit: nat, n: nat)
      returns (finished: bool, sessions: nat, batches: nat, crashes: nat, ghost idle: nat, ghost ends: seq<Outcome>)
    requires s.Valid(rule) && batchSize >= 1 && limit >= 1 && NoDuplicates(domains)
    modifies s
    ensures s.Valid(rule) && sessions <= n && EndsOf(env, ends, sessions, crashes, finished) && idle <= batches
    ensures batches + s.Left(domains, s.rows, rule) <= old(s.Left(domains, s.rows, rule)) + crashes + idle
    ensures !finished ==> n <= old(s.Left(domains, s.rows, rule)) + crashes + idle
    ensures idle > 0 ==> InheritedMissing(domains, rule, old(s.rows))
    ensures finished ==> s.done && forall d :: d in domains ==> d in s.rows || d in s.permanent
    ensures LostAtMost(old(s.lost), s.lost, crashes)
    ensures forall d :: d !in rule.inherited ==> Get(s.runs, d) <= rule.max + old(Get(s.lost, d)) + crashes
  {
    finished, sessions, batches, crashes, idle, ends := false, 0, 0, 0, 0, [];
    BudgetIsNonNegative(domains, |domains|, s.rows, s.permanent, s.attempts, rule);
    while sessions < n && !finished
      invariant s.Valid(rule) && s.Left(domains, s.rows, rule) >= 0 && sessions <= n && old(s.rows) <= s.rows
      invariant batches + s.Left(domains, s.rows, rule) <= old(s.Left(domains, s.rows, rule)) + crashes + idle
      invariant idle > 0 ==> InheritedMissing(domains, rule, old(s.rows))
      invariant EndsOf(env, ends, sessions, crashes, finished) && idle <= batches
      invariant !finished ==> sessions <= batches
      invariant finished ==> s.done && forall d :: d in domains ==> d in s.rows || d in s.permanent
      invariant LostAtMost(old(s.lost), s.lost, crashes)
    {
      ghost var lost := s.lost;
      var outcome, more;
      ghost var moments, waiting;
      outcome, more, moments, waiting := s.CompleteSignal(domains, batchSize, rule, env(sessions), limit);
      BudgetIsNonNegative(domains, |domains|, s.rows, s.permanent, s.attempts, rule);
      finished, sessions, batches, idle := outcome == Finished, sessions + 1, batches + more, idle + waiting;
      EndsMore(env, ends, sessions - 1, crashes, outcome);
      ends := ends + [outcome];
      if outcome == Crashed {
        CrashLosesOne(old(s.lost), lost, s.lost, crashes, Handed(domains, batchSize, moments[more - 1]));
        crashes := crashes + 1;
      }
    }
    forall d | d !in rule.inherited ensures Get(s.runs, d) <= rule.max + old(Get(s.lost, d)) + crashes {
      RunsAreBounded(d, s.rows, s.permanent, rule, s.runs, s.attempts, s.lost);
    }
  }

  lemma OneDomainLeft(d: string, rows: set<string>, permanent: set<string>, attempts: map<string, nat>, rule: Rule)
    ensures Budget([d], 1, rows, permanent, attempts, rule) == RunsLeft(d, rows, permanent, attempts, rule)
  {
    assert [d][0] == d;
  }

  /** The header's promise that any interruption resumes cleanly fails for a crash: its attempts are not
      in the state file, so with one attempt allowed this domain is run twice. */
  method CrashCostsAnAttempt() returns (s: Signal)
    ensures s.Valid(Rule(1, {})) && "a" in s.permanent && Get(s.attempts, "a") == 1 && Get(s.runs, "a") == 2
  {
    var once := Rule(1, {});
    s := new Signal({}, once);
    var crashing, working := _ => BatchAnswer({}, true, false), _ => BatchAnswer({}, false, false);
    var o, n;
    ghost var moments, idle;
    o, n, moments, idle := s.CompleteSignal(["a"], 1, once, crashing, 2);
    NothingArrives(crashing, n, "a");
    assert "a" in ["a"];
    assert o == Crashed;
    ghost var handed := Handed(["a"], 1, moments[n - 1]);
    BatchIsMissing(["a"], moments[n - 1].observed, moments[n - 1].permanent, handed);
    assert handed[0] in handed;
    assert Get(s.lost, "a") == 1;
    OneDomainLeft("a", s.rows, s.permanent, s.attempts, once);
    o, n, moments, idle := s.CompleteSignal(["a"], 1, once, working, 2);
    NothingArrives(working, n, "a");
    assert AttemptOk("a", s.rows, s.permanent, s.attempts, once);
  }

  /** A domain with an inherited name whose rows never arrive is never given up: however long the loop is
      watched, it is still running, whatever the number of attempts allowed. */
  method InheritedNameNeverEnds(d: string, rule: Rule, limit: nat) returns (s: Signal, outcome: Outcome, batches: nat)
    requires rule.max >= 1 && d in rule.inherited
    ensures outcome == StillRunning && batches == limit && s.Valid(rule) && d !in s.rows && d !in s.permanent
  {
    s := new Signal({}, rule);
    var silent := _ => BatchAnswer({}, false, false);
    ghost var moments, idle;
    outcome, batches, moments, idle := s.CompleteSignal([d], 1, rule, silent, limit);
    NothingArrives(silent, batches, d);
    assert d in [d];
    assert AttemptOk(d, s.rows, s.permanent, s.attempts, rule);
  }

  lemma {:induction false} NothingArrives(env: nat -> BatchAnswer, n: nat, d: string)
    requires forall k :: d !in env(k).arrived
    ensures !Arrived(env, n, d)
  {
    if n == 0 {
    } else {
      NothingArrives(env, n - 1, d);
    }
  }
}
