/** The worker pools of collection-session.js and derive.js. Workers share an index and interleave at
    awaits: what a worker does between two awaits is one atomic step, and any worker may step next. */
module Pools {
  import opened Records

  /** The work between two awaits: at most one write to the item's slot, and two counters. */
  datatype Effect<T> = Effect(write: Option<T>, persisted: nat, failed: nat)

  /** A worker is at the loop head, has done `k` stages of item `i`, or has returned. */
  datatype Worker = Idle | At(i: nat, k: nat) | Returned

  /** The shared variables. `taken` and `progress` are bookkeeping of the model: the indices in the
      order in which they were taken, and how many stages of each item are done. */
  datatype Pool<T> = Pool(workers: seq<Worker>, nextIndex: nat, slots: seq<Option<T>>, persisted: nat, failed: nat,
                          taken: seq<nat>, progress: seq<nat>)

  function WorkerCount(concurrency: int, items: nat): nat {
    var wanted := if concurrency < items then concurrency else items;
    if wanted > 1 then wanted else 1
  }

  function Start<T>(tasks: seq<seq<Effect<T>>>, concurrency: int): Pool<T> {
    Pool(seq(WorkerCount(concurrency, |tasks|), _ => Idle), 0, seq(|tasks|, _ => None), 0, 0, [], seq(|tasks|, _ => 0))
  }

  predicate Enabled<T>(p: Pool<T>, w: nat) {
    w < |p.workers| && p.workers[w] != Returned
  }

  /** Every item awaits at least once. */
  ghost predicate Staged<T>(tasks: seq<seq<Effect<T>>>) {
    forall i :: 0 <= i < |tasks| ==> tasks[i] != []
  }

  ghost predicate InRange<T>(tasks: seq<seq<Effect<T>>>, p: Pool<T>) {
    && |p.slots| == |p.progress| == |tasks|
    && forall w :: 0 <= w < |p.workers| && p.workers[w].At? ==>
        p.workers[w].i < |tasks| && p.workers[w].k < |tasks[p.workers[w].i]|
  }

  /** One atomic step of a worker: the loop head checks and takes an index without an await between. */
  function Step<T>(tasks: seq<seq<Effect<T>>>, p: Pool<T>, w: nat): Pool<T>
    requires Staged(tasks) && InRange(tasks, p) && Enabled(p, w)
  {
    match p.workers[w]
    case Idle =>
      if p.nextIndex < |tasks| then
        p.(workers := p.workers[w := At(p.nextIndex, 0)], nextIndex := p.nextIndex + 1,
            taken := p.taken + [p.nextIndex])
      else
        p.(workers := p.workers[w := Returned])
    case At(i, k) =>
      var e := tasks[i][k];
      p.(workers := p.workers[w := if k + 1 < |tasks[i]| then At(i, k + 1) else Idle],
         slots := if e.write.Some? then p.slots[i := e.write] else p.slots,
         persisted := p.persisted + e.persisted, failed := p.failed + e.failed,
         progress := p.progress[i := k + 1])
  }

  // ---------- what the stages of an item amount to ----------

  datatype Measure = PersistedCount | FailedCount | Remaining

  function Value<T>(m: Measure, task: seq<Effect<T>>, k: nat): nat
    requires k <= |task|
  {
    if m == Remaining then |task| - k
    else if k == 0 then 0
    else Value(m, task, k - 1) + if m == PersistedCount then task[k - 1].persisted else task[k - 1].failed
  }

  function LastWrite<T>(task: seq<Effect<T>>, k: nat): Option<T>
    requires k <= |task|
  {
    if k == 0 then None
    else if task[k - 1].write.Some? then task[k - 1].write
    else LastWrite(task, k - 1)
  }

  ghost predicate ProgressOk<T>(tasks: seq<seq<Effect<T>>>, progress: seq<nat>) {
    |progress| == |tasks| && forall i :: 0 <= i < |tasks| ==> progress[i] <= |tasks[i]|
  }

  function Sum<T>(m: Measure, tasks: seq<seq<Effect<T>>>, progress: seq<nat>, n: nat): nat
    requires ProgressOk(tasks, progress) && n <= |tasks|
  {
    if n == 0 then 0 else Sum(m, tasks, progress, n - 1) + Value(m, tasks[n - 1], progress[n - 1])
  }

  lemma {:induction false} SumUpdate<T>(m: Measure, tasks: seq<seq<Effect<T>>>, progress: seq<nat>, n: nat, i: nat)
    requires ProgressOk(tasks, progress) && n <= |tasks| && i < |tasks| && progress[i] < |tasks[i]|
    ensures Sum(m, tasks, progress[i := progress[i] + 1], n)
         == Sum(m, tasks, progress, n) + if i < n
             then Value(m, tasks[i], progress[i] + 1) - Value(m, tasks[i], progress[i]) else 0
  {
    if n == 0 {
    } else {
      SumUpdate(m, tasks, progress, n - 1, i);
    }
  }

  // ---------- the invariant ----------

  ghost predicate WorkersOk<T>(tasks: seq<seq<Effect<T>>>, p: Pool<T>) {
    && InRange(tasks, p)
    && (forall w :: 0 <= w < |p.workers| && p.workers[w].At? ==>
          p.workers[w].i < p.nextIndex && p.progress[p.workers[w].i] == p.workers[w].k)
    && (forall v, w :: 0 <= v < w < |p.workers| && p.workers[v].At? && p.workers[w].At? ==>
        p.workers[v].i != p.workers[w].i)
    && (forall w :: 0 <= w < |p.workers| && p.workers[w].Returned? ==> p.nextIndex == |tasks|)
  }

  /** An unfinished item has not been taken yet, or a worker is on it. */
  ghost predicate InHand<T>(tasks: seq<seq<Effect<T>>>, p: Pool<T>, i: nat)
    requires i < |tasks| == |p.progress|
  {
    && (i >= p.nextIndex ==> p.progress[i] == 0)
    && (i < p.nextIndex && p.progress[i] < |tasks[i]| ==>
        exists w :: 0 <= w < |p.workers| && p.workers[w].At? && p.workers[w].i == i)
  }

  ghost predicate Invariant<T>(tasks: seq<seq<Effect<T>>>, p: Pool<T>) {
    && Staged(tasks) && ProgressOk(tasks, p.progress) && p.nextIndex <= |tasks| && WorkersOk(tasks, p)
    && (forall i {:trigger InHand(tasks, p, i)} :: 0 <= i < |tasks| ==> InHand(tasks, p, i))
    && (forall i :: 0 <= i < |tasks| ==> p.slots[i] == LastWrite(tasks[i], p.progress[i]))
    && p.persisted == Sum(PersistedCount, tasks, p.progress, |tasks|)
    && p.failed == Sum(FailedCount, tasks, p.progress, |tasks|)
    && |p.taken| == p.nextIndex && forall j :: 0 <= j < |p.taken| ==> p.taken[j] == j
  }

  lemma {:induction false} NothingYet<T>(m: Measure, tasks: seq<seq<Effect<T>>>, progress: seq<nat>, n: nat)
    requires ProgressOk(tasks, progress) && n <= |tasks| && m != Remaining && forall i :: 0 <= i < n ==>
             progress[i] == 0
    ensures Sum(m, tasks, progress, n) == 0
  {
    if n == 0 {
    } else {
      NothingYet(m, tasks, progress, n - 1);
    }
  }

  lemma StartIsOk<T>(tasks: seq<seq<Effect<T>>>, concurrency: int)
    requires Staged(tasks)
    ensures Invariant(tasks, Start(tasks, concurrency))
  {
    var p := Start(tasks, concurrency);
    NothingYet(PersistedCount, tasks, p.progress, |tasks|);
    NothingYet(FailedCount, tasks, p.progress, |tasks|);
  }

  /** Taking an index, or returning when none is left. */
  lemma LoopHeadKeeps<T>(tasks: seq<seq<Effect<T>>>, p: Pool<T>, w: nat)
    requires Invariant(tasks, p) && Enabled(p, w) && p.workers[w].Idle?
    ensures Invariant(tasks, Step(tasks, p, w))
  {
    var q := Step(tasks, p, w);
    assert p.nextIndex < |tasks| ==> InHand(tasks, p, p.nextIndex);
    forall i | 0 <= i < |tasks| ensures InHand(tasks, q, i) {
      assert InHand(tasks, p, i);
      if i < p.nextIndex && p.progress[i] < |tasks[i]| {
        var v :| 0 <= v < |p.workers| && p.workers[v].At? && p.workers[v].i == i;
        assert q.workers[v] == p.workers[v];
      }
      if i == p.nextIndex { assert q.workers[w] == At(i, 0); }
    }
  }

  /** One stage of an item. */
  lemma StageKeeps<T>(tasks: seq<seq<Effect<T>>>, p: Pool<T>, w: nat)
    requires Invariant(tasks, p) && Enabled(p, w) && p.workers[w].At?
    ensures Invariant(tasks, Step(tasks, p, w))
  {
    var q := Step(tasks, p, w);
    var i := p.workers[w].i;
    SumUpdate(PersistedCount, tasks, p.progress, |tasks|, i);
    SumUpdate(FailedCount, tasks, p.progress, |tasks|, i);
    forall j: nat | j < |tasks| ensures InHand(tasks, q, j) {
      StageKeepsInHand(tasks, p, w, j);
    }
  }

  lemma StageKeepsInHand<T>(tasks: seq<seq<Effect<T>>>, p: Pool<T>, w: nat, j: nat)
    requires Invariant(tasks, p) && Enabled(p, w) && p.workers[w].At? && j < |tasks|
    ensures InHand(tasks, Step(tasks, p, w), j)
  {
    var q := Step(tasks, p, w);
    var i := p.workers[w].i;
    assert InHand(tasks, p, j);
    if j == i {
      if q.progress[j] < |tasks[j]| { assert q.workers[w] == At(i, q.progress[i]); }
    } else if j < p.nextIndex && p.progress[j] < |tasks[j]| {
      var v :| 0 <= v < |p.workers| && p.workers[v].At? && p.workers[v].i == j;
      assert q.workers[v] == p.workers[v];
    }
  }

  lemma StepKeeps<T>(tasks: seq<seq<Effect<T>>>, p: Pool<T>, w: nat)
    requires Invariant(tasks, p) && Enabled(p, w)
    ensures Invariant(tasks, Step(tasks, p, w))
  {
    if p.workers[w].Idle? { LoopHeadKeeps(tasks, p, w); } else { StageKeeps(tasks, p, w); }
  }

  // ---------- schedules ----------

  function Active(workers: seq<Worker>): nat {
    if workers == [] then 0
    else Active(workers[..|workers| - 1]) + if workers[|workers| - 1].Returned? then 0 else 1
  }

  lemma {:induction false} ActiveUpdate(workers: seq<Worker>, w: nat, v: Worker)
    requires w < |workers| && !workers[w].Returned?
    ensures Active(workers[w := v]) == Active(workers) - if v.Returned? then 1 else 0
  {
    var n := |workers| - 1;
    if w < n {
      ActiveUpdate(workers[..n], w, v);
      assert workers[w := v][..n] == workers[..n][w := v];
    } else {
      assert workers[w := v][..n] == workers[..n];
    }
  }

  /** The steps still to come: stages, indices and returns. */
  function StepsLeft<T>(tasks: seq<seq<Effect<T>>>, p: Pool<T>): int
    requires ProgressOk(tasks, p.progress)
  {
    Sum(Remaining, tasks, p.progress, |tasks|) + |tasks| - p.nextIndex + Active(p.workers)
  }

  /** Whoever steps, the same amount of work is done. */
  lemma StepDoesOne<T>(tasks: seq<seq<Effect<T>>>, p: Pool<T>, w: nat)
    requires Invariant(tasks, p) && Enabled(p, w)
    ensures ProgressOk(tasks, Step(tasks, p, w).progress)
    ensures StepsLeft(tasks, Step(tasks, p, w)) == StepsLeft(tasks, p) - 1
  {
    StepKeeps(tasks, p, w);
    ActiveUpdate(p.workers, w, Step(tasks, p, w).workers[w]);
    if p.workers[w].At? { SumUpdate(Remaining, tasks, p.progress, |tasks|, p.workers[w].i); }
  }

  /** `schedule` names the worker that runs next at every step; each must be able to. */
  ghost predicate IsRun<T>(tasks: seq<seq<Effect<T>>>, concurrency: int, schedule: seq<nat>, run: seq<Pool<T>>) {
    && Staged(tasks) && |run| == |schedule| + 1 && run[0] == Start(tasks, concurrency)
    && forall t {:trigger schedule[t]} :: 0 <= t < |schedule| ==>
         InRange(tasks, run[t]) && Enabled(run[t], schedule[t]) && run[t + 1] == Step(tasks, run[t], schedule[t])
  }

  /** Every state of every run keeps the invariant, and the step count is exact. */
  lemma {:induction false} EveryStateIsOk<T>(tasks: seq<seq<Effect<T>>>, concurrency: int, schedule: seq<nat>,
                                             run: seq<Pool<T>>, t: nat)
    requires IsRun(tasks, concurrency, schedule, run) && t <= |schedule|
    ensures Invariant(tasks, run[t]) && StepsLeft(tasks, run[t]) == StepsLeft(tasks, run[0]) - t
    ensures |run[t].workers| == WorkerCount(concurrency, |tasks|)
  {
    if t == 0 {
      StartIsOk(tasks, concurrency);
    } else {
      EveryStateIsOk(tasks, concurrency, schedule, run, t - 1);
      assert Enabled(run[t - 1], schedule[t - 1]);
      StepKeeps(tasks, run[t - 1], schedule[t - 1]);
      StepDoesOne(tasks, run[t - 1], schedule[t - 1]);
    }
  }

  /** The items that workers are on. */
  ghost function InFlight<T>(p: Pool<T>): set<nat> {
    set w | 0 <= w < |p.workers| && p.workers[w].At? :: p.workers[w].i
  }

  lemma {:induction false} FewInFlight(workers: seq<Worker>)
    ensures |set w | 0 <= w < |workers| && workers[w].At? :: workers[w].i| <= |workers|
  {
    var all := set w | 0 <= w < |workers| && workers[w].At? :: workers[w].i;
    if workers == [] {
      assert all == {};
    } else {
      var n := |workers| - 1;
      var front := set w | 0 <= w < |workers[..n]| && workers[..n][w].At? :: workers[..n][w].i;
      FewInFlight(workers[..n]);
      if workers[n].At? {
        assert all == front + {workers[n].i};
      } else {
        assert all == front;
      }
    }
  }

  /** In no state of any run are more items in flight than the concurrency asks for, or than one if it
      asks for less, and there are never more workers than items, or than one. */
  lemma ConcurrencyIsKept<T>(tasks: seq<seq<Effect<T>>>, concurrency: int, schedule: seq<nat>, run: seq<Pool<T>>,
                             t: nat)
    requires IsRun(tasks, concurrency, schedule, run) && t <= |schedule|
    ensures |InFlight(run[t])| <= if concurrency > 1 then concurrency else 1
    ensures |InFlight(run[t])| <= |run[t].workers| <= if |tasks| > 1 then |tasks| else 1
    ensures concurrency >= |tasks| > 0 ==> |run[t].workers| == |tasks|
  {
    EveryStateIsOk(tasks, concurrency, schedule, run, t);
    FewInFlight(run[t].workers);
  }

  /** All workers have returned, so Promise.all resolves. */
  ghost predicate Terminal<T>(p: Pool<T>) {
    forall w :: 0 <= w < |p.workers| ==> p.workers[w].Returned?
  }

  /** The pool never deadlocks: exactly the terminal states have no step left. */
  lemma {:induction false} ActiveIffEnabled(workers: seq<Worker>)
    ensures Active(workers) == 0 <==> forall w :: 0 <= w < |workers| ==> workers[w].Returned?
  {
    if workers == [] {
    } else {
      var n := |workers| - 1;
      ActiveIffEnabled(workers[..n]);
      if forall w :: 0 <= w < n ==> workers[..n][w].Returned? {
        assert forall w :: 0 <= w < n ==> workers[w] == workers[..n][w];
      } else {
        var w :| 0 <= w < n && !workers[..n][w].Returned?;
        assert !workers[w].Returned?;
      }
    }
  }

  lemma AllDone<T>(tasks: seq<seq<Effect<T>>>, p: Pool<T>)
    requires Invariant(tasks, p) && Terminal(p) && p.workers != []
    ensures p.nextIndex == |tasks| && forall i :: 0 <= i < |tasks| ==> p.progress[i] == |tasks[i]|
  {
    assert p.workers[0].Returned?;
    forall i | 0 <= i < |tasks| ensures p.progress[i] == |tasks[i]| {
      assert InHand(tasks, p, i);
    }
  }

  function Full<T>(tasks: seq<seq<Effect<T>>>): seq<nat> {
    seq(|tasks|, i requires 0 <= i < |tasks| => |tasks[i]|)
  }

  /** Whatever the schedule and the concurrency: once every worker has returned, each index was taken
      once, every slot holds the last write of its item and the counters hold every item's share. */
  lemma ScheduleDoesNotMatter<T>(tasks: seq<seq<Effect<T>>>, concurrency: int, schedule: seq<nat>, run: seq<Pool<T>>)
    requires IsRun(tasks, concurrency, schedule, run) && Terminal(run[|schedule|])
    ensures var p := run[|schedule|];
            && |p.taken| == |tasks| && (forall j :: 0 <= j < |tasks| ==> p.taken[j] == j)
            && |p.slots| == |tasks| && (forall i :: 0 <= i < |tasks| ==> p.slots[i] == LastWrite(tasks[i], |tasks[i]|))
            && p.persisted == Sum(PersistedCount, tasks, Full(tasks), |tasks|)
            && p.failed == Sum(FailedCount, tasks, Full(tasks), |tasks|)
  {
    var p := run[|schedule|];
    EveryStateIsOk(tasks, concurrency, schedule, run, |schedule|);
    AllDone(tasks, p);
    assert p.progress == Full(tasks);
  }

  lemma FinishedIffNoStepsLeft<T>(tasks: seq<seq<Effect<T>>>, p: Pool<T>)
    requires Invariant(tasks, p) && p.workers != []
    ensures StepsLeft(tasks, p) >= 0 && (StepsLeft(tasks, p) == 0 <==> Terminal(p))
  {
    ActiveIffEnabled(p.workers);
    if Terminal(p) {
      AllDone(tasks, p);
      NothingRemains(tasks, p.progress, |tasks|);
    }
  }

  lemma TerminalIffStuck<T>(p: Pool<T>)
    ensures Terminal(p) <==> forall w :: 0 <= w < |p.workers| ==> !Enabled(p, w)
  {
    if w :| 0 <= w < |p.workers| && !p.workers[w].Returned? { assert Enabled(p, w); }
  }

  /** A run that is not finished can go on, and every finished run has the same number of steps: one
      per stage, one per index and one return per worker. */
  lemma StepsAreExact<T>(tasks: seq<seq<Effect<T>>>, concurrency: int, schedule: seq<nat>, run: seq<Pool<T>>)
    requires IsRun(tasks, concurrency, schedule, run)
    ensures ProgressOk(tasks, run[0].progress)
    ensures var total := Sum(Remaining, tasks, run[0].progress, |tasks|) + |tasks| + WorkerCount(concurrency, |tasks|);
            var p := run[|schedule|];
            && |schedule| <= total
            && (|schedule| == total <==> Terminal(p))
            && (Terminal(p) <==> forall w :: 0 <= w < |p.workers| ==> !Enabled(p, w))
  {
    EveryStateIsOk(tasks, concurrency, schedule, run, |schedule|);
    EveryStateIsOk(tasks, concurrency, schedule, run, 0);
    AllIdle(run[0].workers);
    FinishedIffNoStepsLeft(tasks, run[|schedule|]);
    TerminalIffStuck(run[|schedule|]);
  }

  lemma {:induction false} AllIdle(workers: seq<Worker>)
    requires forall w :: 0 <= w < |workers| ==> workers[w] == Idle
    ensures Active(workers) == |workers|
  {
    if workers == [] {
    } else {
      AllIdle(workers[..|workers| - 1]);
    }
  }

  lemma {:induction false} NothingRemains<T>(tasks: seq<seq<Effect<T>>>, progress: seq<nat>, n: nat)
    requires ProgressOk(tasks, progress) && n <= |tasks| && forall i :: 0 <= i < n ==> progress[i] == |tasks[i]|
    ensures Sum(Remaining, tasks, progress, n) == 0
  {
    if n == 0 {
    } else {
      NothingRemains(tasks, progress, n - 1);
    }
  }

  // ---------- mapWithConcurrency of derive.js ----------

  /** One call of a function that does not throw per item. */
  function MapTasks<A, T>(items: seq<A>, fn: (A, nat) -> T): seq<seq<Effect<T>>> {
    seq(|items|, i requires 0 <= i < |items| => [Effect(Some(fn(items[i], i)), 0, 0)])
  }

  /** For any limit and interleaving the result is the sequential map. */
  lemma MapIsSequential<A, T>(items: seq<A>, fn: (A, nat) -> T, limit: int, schedule: seq<nat>, run: seq<Pool<T>>)
    requires IsRun(MapTasks(items, fn), limit, schedule, run) && Terminal(run[|schedule|])
    ensures run[|schedule|].slots == seq(|items|, i requires 0 <= i < |items| => Some(fn(items[i], i)))
  {
    var tasks := MapTasks(items, fn);
    ScheduleDoesNotMatter(tasks, limit, schedule, run);
    forall i | 0 <= i < |items| ensures run[|schedule|].slots[i] == Some(fn(items[i], i)) {
      assert LastWrite(tasks[i], 1) == tasks[i][0].write;
    }
  }

  // ---------- processDomain of collection-session.js ----------

  /** What the environment does for one domain: collecting, building or inserting throws; the insert
      returns an error, or neither an error nor a row; or the row is stored and, with a child hook, the
      hook succeeds or throws. The event emission after a stored row never changes anything. */
  datatype Answer =
    | CollectThrows(message: string)
    | InsertThrows(message: string)
    | InsertError(message: string)
    | InsertNothing(message: string)
    | Stored(id: string, child: Child)

  datatype Child = NoHook | ChildOk | ChildThrows(message: string)

  datatype Observation = Failure(domain: string, error: string) | Recorded(domain: string, id: string,
      childError: Option<string>)

  const PAUSE: Effect<Observation> := Effect(None, 0, 0)

  /** The atomic stages of one domain, each ending at an await or at the end. */
  function Stages(domain: string, a: Answer): seq<Effect<Observation>> {
    match a
    case CollectThrows(m) => [Effect(Some(Failure(domain, m)), 0, 1)]
    case InsertThrows(m) => [PAUSE, Effect(Some(Failure(domain, m)), 0, 1)]
    case InsertError(m) => [PAUSE, Effect(Some(Failure(domain, m)), 0, 1)]
    case InsertNothing(m) => [PAUSE, Effect(Some(Failure(domain, m)), 1, 1)]
    case Stored(id, NoHook) => [PAUSE, Effect(Some(Recorded(domain, id, None)), 1, 0), PAUSE]
    case Stored(id, ChildOk) => [PAUSE, Effect(Some(Recorded(domain, id, None)), 1, 0), PAUSE, PAUSE]
    case Stored(id, ChildThrows(m)) => [PAUSE, Effect(Some(Recorded(domain, id, None)), 1, 0), PAUSE,
        Effect(Some(Recorded(domain, id, Some(m))), 0, 0)]
  }

  /** The observation that a domain ends with. */
  function Outcome(domain: string, a: Answer): Observation {
    match a
    case Stored(id, ChildThrows(m)) => Recorded(domain, id, Some(m))
    case Stored(id, _) => Recorded(domain, id, None)
    case _ => Failure(domain, a.message)
  }

  function SessionTasks(domains: seq<string>, answers: seq<Answer>): seq<seq<Effect<Observation>>>
    requires |answers| == |domains|
  {
    seq(|domains|, i requires 0 <= i < |domains| => Stages(domains[i], answers[i]))
  }

  function PersistedBy(a: Answer): nat {
    if a.Stored? || a.InsertNothing? then 1 else 0
  }

  function FailedBy(a: Answer): nat {
    if a.Stored? then 0 else 1
  }

  /** How many of the first `n` answers count as persisted, as failed, and are inserts that returned nothing. */
  function Persisted(answers: seq<Answer>, n: nat): nat
    requires n <= |answers|
  {
    if n == 0 then 0 else Persisted(answers, n - 1) + PersistedBy(answers[n - 1])
  }

  function Failed(answers: seq<Answer>, n: nat): nat
    requires n <= |answers|
  {
    if n == 0 then 0 else Failed(answers, n - 1) + FailedBy(answers[n - 1])
  }

  function Nothings(answers: seq<Answer>, n: nat): nat
    requires n <= |answers|
  {
    if n == 0 then 0 else Nothings(answers, n - 1) + if answers[n - 1].InsertNothing? then 1 else 0
  }

  lemma StagesCount(domain: string, a: Answer, m: Measure)
    requires m != Remaining
    ensures var s := Stages(domain, a);
            Value(m, s, |s|) == if m == PersistedCount then PersistedBy(a) else FailedBy(a)
  {
    var s := Stages(domain, a);
    assert Value(m, s, 1) == if m == PersistedCount then s[0].persisted else s[0].failed;
    assert |s| >= 2 ==>
        Value(m, s, 2) == Value(m, s, 1) + if m == PersistedCount then s[1].persisted else s[1].failed;
    assert |s| >= 3 ==> Value(m, s, 3) == Value(m, s, 2);
    assert |s| >= 4 ==> Value(m, s, 4) == Value(m, s, 3);
  }

  lemma StagesAmountTo(domain: string, a: Answer)
    ensures var s := Stages(domain, a);
            && s != [] && LastWrite(s, |s|) == Some(Outcome(domain, a))
            && Value(PersistedCount, s, |s|) == PersistedBy(a) && Value(FailedCount, s, |s|) == FailedBy(a)
  {
    var s := Stages(domain, a);
    StagesCount(domain, a, PersistedCount);
    StagesCount(domain, a, FailedCount);
    assert |s| >= 3 ==> LastWrite(s, 3) == LastWrite(s, 2);
  }

  lemma {:induction false} CountersAmountTo(domains: seq<string>, answers: seq<Answer>, n: nat)
    requires |answers| == |domains| && n <= |domains|
    ensures var tasks := SessionTasks(domains, answers);
            && ProgressOk(tasks, Full(tasks))
            && Sum(PersistedCount, tasks, Full(tasks), n) == Persisted(answers, n)
            && Sum(FailedCount, tasks, Full(tasks), n) == Failed(answers, n)
  {
    if n == 0 {
    } else {
      CountersAmountTo(domains, answers, n - 1);
      StagesAmountTo(domains[n - 1], answers[n - 1]);
    }
  }

  /** Every interleaving of the session ends with the observations and counters of the sequential run. */
  lemma SessionIsSequential(domains: seq<string>, answers: seq<Answer>, concurrency: int, schedule: seq<nat>,
                            run: seq<Pool<Observation>>)
    requires |answers| == |domains| && IsRun(SessionTasks(domains, answers), concurrency, schedule, run)
             && Terminal(run[|schedule|])
    ensures var p := run[|schedule|];
            && |p.slots| == |domains| && (forall i :: 0 <= i < |domains| ==>
                p.slots[i] == Some(Outcome(domains[i], answers[i])))
            && p.persisted == Persisted(answers, |answers|) && p.failed == Failed(answers, |answers|)
    ensures forall i :: 0 <= i < |domains| ==>
            match answers[i]
            case Stored(id, ChildThrows(m)) => run[|schedule|].slots[i] == Some(Recorded(domains[i], id, Some(m)))
            case Stored(id, _) => run[|schedule|].slots[i] == Some(Recorded(domains[i], id, None))
            case _ => run[|schedule|].slots[i] == Some(Failure(domains[i], answers[i].message))
  {
    var tasks := SessionTasks(domains, answers);
    ScheduleDoesNotMatter(tasks, concurrency, schedule, run);
    CountersAmountTo(domains, answers, |domains|);
    forall i | 0 <= i < |domains| ensures run[|schedule|].slots[i] == Some(Outcome(domains[i], answers[i])) {
      StagesAmountTo(domains[i], answers[i]);
    }
  }

  /** The two counters cover every domain; an insert that returns neither a row nor an error is counted
      in both. */
  lemma {:induction false} CountersCover(answers: seq<Answer>, n: nat)
    requires n <= |answers|
    ensures Persisted(answers, n) + Failed(answers, n) == n + Nothings(answers, n)
    ensures Persisted(answers, n) + Failed(answers, n) == n <==> forall i :: 0 <= i < n ==> !answers[i].InsertNothing?
  {
    if n == 0 {
    } else {
      CountersCover(answers, n - 1);
    }
  }

  /** The domains whose insert raised no error. */
  ghost function Inserted(answers: seq<Answer>, n: nat): set<nat>
    requires n <= |answers|
  {
    set i: nat | i < n && (answers[i].Stored? || answers[i].InsertNothing?)
  }

  /** The domains without a stored row. */
  ghost function Unstored(answers: seq<Answer>, n: nat): set<nat>
    requires n <= |answers|
  {
    set i: nat | i < n && !answers[i].Stored?
  }

  lemma InsertedNext(answers: seq<Answer>, n: nat)
    requires n < |answers|
    ensures |Inserted(answers, n + 1)|
            == |Inserted(answers, n)| + if answers[n].Stored? || answers[n].InsertNothing? then 1 else 0
  {
    var before, after := Inserted(answers, n), Inserted(answers, n + 1);
    forall i: nat ensures i in after <==> i in before || (i == n && (answers[n].Stored? || answers[n].InsertNothing?)) {
    }
    if answers[n].Stored? || answers[n].InsertNothing? {
      assert n !in before && after == before + {n};
    } else {
      assert after == before;
    }
  }

  lemma UnstoredNext(answers: seq<Answer>, n: nat)
    requires n < |answers|
    ensures |Unstored(answers, n + 1)| == |Unstored(answers, n)| + if answers[n].Stored? then 0 else 1
  {
    var before, after := Unstored(answers, n), Unstored(answers, n + 1);
    if answers[n].Stored? {
      assert after == before;
    } else {
      assert n !in before && after == before + {n};
    }
  }

  /** What the two counters count. */
  lemma {:induction false} CountersAre(answers: seq<Answer>, n: nat)
    requires n <= |answers|
    ensures Persisted(answers, n) == |Inserted(answers, n)| && Failed(answers, n) == |Unstored(answers, n)|
  {
    if n == 0 {
    } else {
      CountersAre(answers, n - 1);
      InsertedNext(answers, n - 1);
      UnstoredNext(answers, n - 1);
    }
  }

  // ---------- the session object ----------

  /** The variables that processDomain updates, run by a single worker. */
  class Session {
    const domains: seq<string>
    var observations: seq<Option<Observation>>
    var persisted: nat
    var failed: nat
    var nextIndex: nat

    constructor (domains: seq<string>)
      ensures this.domains == domains && observations == seq(|domains|, _ => None)
      ensures persisted == failed == nextIndex == 0
    {
      this.domains := domains;
      observations, persisted, failed, nextIndex := seq(|domains|, _ => None), 0, 0, 0;
    }

    /** `processDomain`, with the answers of the environment. */
    method ProcessDomain(i: nat, a: Answer)
      requires i < |domains| == |observations|
      modifies this
      ensures observations == old(observations)[i := Some(Outcome(domains[i], a))] && nextIndex == old(nextIndex)
      ensures persisted == old(persisted) + PersistedBy(a) && failed == old(failed) + FailedBy(a)
    {
      match a {
        case CollectThrows(m) =>
          failed := failed + 1;
          observations := observations[i := Some(Failure(domains[i], m))];
        case InsertThrows(m) =>
          failed := failed + 1;
          observations := observations[i := Some(Failure(domains[i], m))];
        case InsertError(m) =>
          failed := failed + 1;
          observations := observations[i := Some(Failure(domains[i], m))];
        case InsertNothing(m) =>
          // reading the id of a null row throws after the increment
          persisted := persisted + 1;
          failed := failed + 1;
          observations := observations[i := Some(Failure(domains[i], m))];
        case Stored(id, child) =>
          persisted := persisted + 1;
          observations := observations[i := Some(Recorded(domains[i], id, None))];
          if child.ChildThrows? {
            observations := observations[i := Some(observations[i].value.(childError := Some(child.message)))];
          }
      }
    }

    /** The loop of one worker: the default concurrency of one. */
    method RunAlone(answers: seq<Answer>)
      requires |answers| == |domains| == |observations| && persisted == failed == nextIndex == 0
      modifies this
      ensures |observations| == |domains| && forall i :: 0 <= i < |domains| ==>
              observations[i] == Some(Outcome(domains[i], answers[i]))
      ensures persisted == Persisted(answers, |answers|) && failed == Failed(answers, |answers|)
    {
      while nextIndex < |domains|
        invariant nextIndex <= |domains| == |observations|
        invariant forall i :: 0 <= i < nextIndex ==> observations[i] == Some(Outcome(domains[i], answers[i]))
        invariant persisted == Persisted(answers, nextIndex) && failed == Failed(answers, nextIndex)
      {
        var i := nextIndex;
        nextIndex := nextIndex + 1;
        ProcessDomain(i, answers[i]);
      }
    }
  }
}
