/**
 The test-job worker pool of scripts/test-suite.ts (`runTestJobs`) as a state machine.

 Workers share `nextIndex` and `failure`.  JavaScript runs each stretch of code between two awaits
 without interruption, so one step is one such stretch: a worker is called, or the job it awaits ends
 and it goes round its loop.  Any step order and any exit codes are allowed; a step of a worker that is
 not waiting for it changes nothing.
 */
module WorkerPool {

  datatype Worker = Uncalled | Running(job: nat) | Done | Rejected

  datatype Event = Started(job: nat) | Exited(job: nat, code: int) | Threw(job: nat)

  datatype Pool = Pool(nextIndex: nat, failure: int, workers: seq<Worker>, log: seq<Event>)

  datatype Action = Call(worker: nat) | Settle(worker: nat, code: int) | Throw(worker: nat)

  function WorkerCount(jobs: nat, concurrency: int): nat {
    var wanted := if concurrency < 1 then 1 else concurrency;
    if wanted < jobs then wanted else jobs
  }

  function Initial(jobs: nat, concurrency: int): Pool {
    Pool(0, 0, seq(WorkerCount(jobs, concurrency), _ => Uncalled), [])
  }

  /** The stretch from the loop head to the next await or the return. */
  function LoopHead(jobs: nat, p: Pool, w: nat): Pool
    requires w < |p.workers|
  {
    if p.failure != 0 then p.(workers := p.workers[w := Done])
    else if p.nextIndex < jobs then
      p.(nextIndex := p.nextIndex + 1, workers := p.workers[w := Running(p.nextIndex)],
         log := p.log + [Started(p.nextIndex)])
    else p.(nextIndex := p.nextIndex + 1, workers := p.workers[w := Done])
  }

  /** The stretch from the end of an awaited job to the loop head. */
  function Record(p: Pool, job: nat, code: int): Pool {
    p.(failure := if code != 0 && p.failure == 0 then code else p.failure, log := p.log + [Exited(job, code)])
  }

  function Step(jobs: nat, p: Pool, a: Action): Pool {
    if a.worker >= |p.workers| then p
    else match a
      case Call(w) => if p.workers[w].Uncalled? then LoopHead(jobs, p, w) else p
      case Settle(w, code) =>
        if p.workers[w].Running? then LoopHead(jobs, Record(p, p.workers[w].job, code), w) else p
      case Throw(w) =>
        if p.workers[w].Running? then p.(workers := p.workers[w := Rejected], log := p.log + [Threw(p.workers[w].job)])
        else p
  }

  function Run(jobs: nat, p: Pool, actions: seq<Action>): Pool
    decreases |actions|
  {
    if actions == [] then p else Run(jobs, Step(jobs, p, actions[0]), actions[1..])
  }

  // ---------------------------------------------------------------- reading the log

  function Starts(log: seq<Event>): seq<nat> {
    if log == [] then []
    else match log[|log| - 1]
      case Started(j) => Starts(log[..|log| - 1]) + [j]
      case _ => Starts(log[..|log| - 1])
  }

  function Ended(e: Event, job: nat): nat {
    if !e.Started? && e.job == job then 1 else 0
  }

  /** How often the log says that a job ended. */
  function EndCount(log: seq<Event>, job: nat): nat {
    if log == [] then 0 else EndCount(log[..|log| - 1], job) + Ended(log[|log| - 1], job)
  }

  function EndTotal(log: seq<Event>): nat {
    if log == [] then 0 else EndTotal(log[..|log| - 1]) + if log[|log| - 1].Started? then 0 else 1
  }

  /** The first non-zero exit code observed, or 0. */
  function FirstFailure(log: seq<Event>): int {
    if log == [] then 0
    else if FirstFailure(log[..|log| - 1]) != 0 then FirstFailure(log[..|log| - 1])
    else match log[|log| - 1] case Exited(_, code) => code case _ => 0
  }

  predicate NoStartAfterFailure(log: seq<Event>) {
    forall i | 0 <= i < |log| && log[i].Started? :: FirstFailure(log[..i]) == 0
  }

  function Awaits(w: Worker, job: nat): nat {
    if w == Running(job) then 1 else 0
  }

  /** How many workers await a job. */
  function AwaitCount(workers: seq<Worker>, job: nat): nat {
    if workers == [] then 0 else AwaitCount(workers[..|workers| - 1], job) + Awaits(workers[|workers| - 1], job)
  }

  function RunningCount(workers: seq<Worker>): nat {
    if workers == [] then 0
    else RunningCount(workers[..|workers| - 1]) + if workers[|workers| - 1].Running? then 1 else 0
  }

  predicate InOrder(starts: seq<nat>) {
    forall k | 0 <= k < |starts| :: starts[k] == k
  }

  /** Jobs start in list order, once each, and only while no failure was observed. */
  predicate LogInv(jobs: nat, nextIndex: nat, failure: int, log: seq<Event>) {
    && InOrder(Starts(log)) && |Starts(log)| == (if nextIndex < jobs then nextIndex else jobs)
    && failure == FirstFailure(log)
    && NoStartAfterFailure(log)
  }

  /** Every started job has ended or is awaited by exactly one worker. */
  ghost predicate CountInv(log: seq<Event>, workers: seq<Worker>) {
    && (forall j: nat :: EndCount(log, j) + AwaitCount(workers, j) == if j < |Starts(log)| then 1 else 0)
    && EndTotal(log) + RunningCount(workers) == |Starts(log)|
  }

  predicate AnyRejected(workers: seq<Worker>) {
    exists w :: 0 <= w < |workers| && workers[w].Rejected?
  }

  predicate WorkersInv(jobs: nat, p: Pool) {
    && (forall w | 0 <= w < |p.workers| && p.workers[w].Done? :: p.failure != 0 || p.nextIndex > jobs)
    && (forall e | e in p.log && e.Threw? :: AnyRejected(p.workers))
  }

  /** What holds after every step of every interleaving. */
  ghost predicate Inv(jobs: nat, p: Pool) {
    LogInv(jobs, p.nextIndex, p.failure, p.log) && CountInv(p.log, p.workers) && WorkersInv(jobs, p)
  }

  lemma LogStep(log: seq<Event>, e: Event)
    ensures Starts(log + [e]) == Starts(log) + (match e case Started(j) => [j] case _ => [])
    ensures forall j: nat :: EndCount(log + [e], j) == EndCount(log, j) + Ended(e, j)
    ensures EndTotal(log + [e]) == EndTotal(log) + if e.Started? then 0 else 1
    ensures FirstFailure(log + [e]) == if FirstFailure(log) != 0 then FirstFailure(log)
            else match e case Exited(_, c) => c case _ => 0
    ensures NoStartAfterFailure(log) && (e.Started? ==> FirstFailure(log) == 0) ==> NoStartAfterFailure(log + [e])
  {
    assert (log + [e])[..|log|] == log;
    if NoStartAfterFailure(log) && (e.Started? ==> FirstFailure(log) == 0) {
      forall i | 0 <= i < |log| + 1 && (log + [e])[i].Started?
        ensures FirstFailure((log + [e])[..i]) == 0
      {
        assert (log + [e])[..i] == log[..i];
        assert log[..|log|] == log;
      }
    }
  }

  lemma {:induction false} SetWorker(workers: seq<Worker>, w: nat, x: Worker, j: nat)
    requires w < |workers|
    ensures AwaitCount(workers[w := x], j) + Awaits(workers[w], j) == AwaitCount(workers, j) + Awaits(x, j)
    ensures RunningCount(workers[w := x]) + (if workers[w].Running? then 1 else 0)
            == RunningCount(workers) + (if x.Running? then 1 else 0)
    decreases |workers|
  {
    var n, next := |workers| - 1, workers[w := x];
    if w < n {
      SetWorker(workers[..n], w, x, j);
      assert next[..n] == workers[..n][w := x];
    } else {
      assert next[..n] == workers[..n];
    }
  }

  lemma {:induction false} RunningBound(workers: seq<Worker>)
    ensures RunningCount(workers) <= |workers|
    ensures (forall w | 0 <= w < |workers| :: !workers[w].Running?) ==>
              RunningCount(workers) == 0 && forall j: nat :: AwaitCount(workers, j) == 0
    decreases |workers|
  {
    if workers != [] {
      RunningBound(workers[..|workers| - 1]);
    }
  }

  // ---------------------------------------------------------------- steps keep the invariant

  lemma InitialInv(jobs: nat, concurrency: int)
    ensures Inv(jobs, Initial(jobs, concurrency))
  {
    RunningBound(Initial(jobs, concurrency).workers);
  }

  lemma StartKeepsCount(log: seq<Event>, workers: seq<Worker>, w: nat, job: nat)
    requires CountInv(log, workers) && w < |workers| && !workers[w].Running? && job == |Starts(log)|
    ensures CountInv(log + [Started(job)], workers[w := Running(job)])
  {
    LogStep(log, Started(job));
    forall j: nat
      ensures AwaitCount(workers[w := Running(job)], j) == AwaitCount(workers, j) + if j == job then 1 else 0
    {
      SetWorker(workers, w, Running(job), j);
    }
    SetWorker(workers, w, Running(job), job);
  }

  lemma IdleKeepsCount(log: seq<Event>, workers: seq<Worker>, w: nat, x: Worker)
    requires CountInv(log, workers) && w < |workers| && !workers[w].Running? && !x.Running?
    ensures CountInv(log, workers[w := x])
  {
    forall j: nat
      ensures AwaitCount(workers[w := x], j) == AwaitCount(workers, j)
    {
      SetWorker(workers, w, x, j);
    }
    SetWorker(workers, w, x, 0);
  }

  lemma EndKeepsCount(log: seq<Event>, workers: seq<Worker>, w: nat, x: Worker, e: Event)
    requires CountInv(log, workers) && w < |workers| && workers[w].Running? && !x.Running?
    requires !e.Started? && e.job == workers[w].job
    ensures CountInv(log + [e], workers[w := x])
  {
    LogStep(log, e);
    forall j: nat
      ensures AwaitCount(workers[w := x], j) + Ended(e, j) == AwaitCount(workers, j)
    {
      SetWorker(workers, w, x, j);
    }
    SetWorker(workers, w, x, 0);
  }

  lemma LoopHeadKeeps(jobs: nat, p: Pool, w: nat)
    requires Inv(jobs, p) && w < |p.workers| && p.workers[w].Uncalled?
    ensures Inv(jobs, LoopHead(jobs, p, w))
  {
    LoopHeadKeepsWorkers(jobs, p, w);
    if p.failure == 0 && p.nextIndex < jobs {
      StartKeepsLog(jobs, p.nextIndex, p.log);
      StartKeepsCount(p.log, p.workers, w, p.nextIndex);
    } else {
      IdleKeepsCount(p.log, p.workers, w, Done);
    }
  }

  lemma StartKeepsLog(jobs: nat, nextIndex: nat, log: seq<Event>)
    requires LogInv(jobs, nextIndex, 0, log) && nextIndex < jobs
    ensures LogInv(jobs, nextIndex + 1, 0, log + [Started(nextIndex)])
  {
    LogStep(log, Started(nextIndex));
  }

  lemma LoopHeadKeepsWorkers(jobs: nat, p: Pool, w: nat)
    requires WorkersInv(jobs, p) && w < |p.workers| && p.workers[w].Uncalled?
    ensures WorkersInv(jobs, LoopHead(jobs, p, w))
  {
    var q := LoopHead(jobs, p, w);
    RejectionStays(p.workers, w, q.workers[w]);
    forall e | e in q.log && e.Threw?
      ensures e in p.log
    {
    }
  }

  lemma RejectionStays(workers: seq<Worker>, w: nat, x: Worker)
    requires w < |workers| && !workers[w].Rejected?
    ensures AnyRejected(workers) ==> AnyRejected(workers[w := x])
  {
    if AnyRejected(workers) {
      var v :| 0 <= v < |workers| && workers[v].Rejected?;
      assert workers[w := x][v].Rejected?;
    }
  }

  /** The awaited job is recorded; the worker is at its loop head, as if just called. */
  lemma SettleKeeps(jobs: nat, p: Pool, w: nat, code: int)
    requires Inv(jobs, p) && w < |p.workers| && p.workers[w].Running?
    ensures Inv(jobs, Record(p, p.workers[w].job, code).(workers := p.workers[w := Uncalled]))
  {
    var e := Exited(p.workers[w].job, code);
    LogStep(p.log, e);
    EndKeepsCount(p.log, p.workers, w, Uncalled, e);
    RejectionStays(p.workers, w, Uncalled);
  }

  lemma ThrowKeeps(jobs: nat, p: Pool, w: nat)
    requires Inv(jobs, p) && w < |p.workers| && p.workers[w].Running?
    ensures Inv(jobs, p.(workers := p.workers[w := Rejected], log := p.log + [Threw(p.workers[w].job)]))
  {
    LogStep(p.log, Threw(p.workers[w].job));
    EndKeepsCount(p.log, p.workers, w, Rejected, Threw(p.workers[w].job));
    assert p.workers[w := Rejected][w].Rejected?;
  }

  lemma StepKeeps(jobs: nat, p: Pool, a: Action)
    requires Inv(jobs, p)
    ensures Inv(jobs, Step(jobs, p, a)) && |Step(jobs, p, a).workers| == |p.workers|
  {
    if a.worker < |p.workers| {
      var w := a.worker;
      var me := p.workers[w];
      if a.Call? && me.Uncalled? {
        LoopHeadKeeps(jobs, p, w);
      } else if a.Settle? && me.Running? {
        var r := Record(p, me.job, a.code);
        var q := r.(workers := p.workers[w := Uncalled]);
        SettleKeeps(jobs, p, w, a.code);
        LoopHeadKeeps(jobs, q, w);
        var x := LoopHead(jobs, q, w).workers[w];
        assert q.workers[w := x] == r.workers[w := x];
      } else if a.Throw? && me.Running? {
        ThrowKeeps(jobs, p, w);
      }
    }
  }

  lemma {:induction false} RunKeeps(jobs: nat, p: Pool, actions: seq<Action>)
    requires Inv(jobs, p)
    ensures Inv(jobs, Run(jobs, p, actions)) && |Run(jobs, p, actions).workers| == |p.workers|
    decreases |actions|
  {
    if actions != [] {
      StepKeeps(jobs, p, actions[0]);
      RunKeeps(jobs, Step(jobs, p, actions[0]), actions[1..]);
    }
  }

  // ---------------------------------------------------------------- theorems

  /** No job starts twice, none after the first recorded failure, never more at once than workers. */
  lemma EveryInterleaving(jobs: nat, concurrency: int, actions: seq<Action>)
    ensures var p := Run(jobs, Initial(jobs, concurrency), actions);
            && InOrder(Starts(p.log)) && |Starts(p.log)| <= jobs
            && NoStartAfterFailure(p.log)
            && p.failure == FirstFailure(p.log)
            && EndTotal(p.log) <= |Starts(p.log)| <= EndTotal(p.log) + WorkerCount(jobs, concurrency)
            && forall j: nat :: EndCount(p.log, j) <= if j in Starts(p.log) then 1 else 0
  {
    var p := Run(jobs, Initial(jobs, concurrency), actions);
    InitialInv(jobs, concurrency);
    RunKeeps(jobs, Initial(jobs, concurrency), actions);
    RunningBound(p.workers);
    forall j: nat
      ensures EndCount(p.log, j) <= if j in Starts(p.log) then 1 else 0
    {
      if j < |Starts(p.log)| {
        assert Starts(p.log)[j] == j;
      }
    }
  }

  /** When all workers returned with failure 0, every job started once and ended once, exiting with 0. */
  lemma ZeroMeansAllPassed(jobs: nat, concurrency: int, actions: seq<Action>)
    requires var p := Run(jobs, Initial(jobs, concurrency), actions);
             p.failure == 0 && forall w | 0 <= w < |p.workers| :: p.workers[w].Done?
    ensures var p := Run(jobs, Initial(jobs, concurrency), actions);
            && InOrder(Starts(p.log)) && |Starts(p.log)| == jobs
            && (forall j: nat | j < jobs :: EndCount(p.log, j) == 1)
            && (forall e | e in p.log && !e.Started? :: e.Exited? && e.code == 0)
  {
    var p := Run(jobs, Initial(jobs, concurrency), actions);
    InitialInv(jobs, concurrency);
    RunKeeps(jobs, Initial(jobs, concurrency), actions);
    RunningBound(p.workers);
    if jobs > 0 {
      assert p.workers[0].Done?;
    }
    forall e | e in p.log && !e.Started?
      ensures e.Exited? && e.code == 0
    {
      ZeroFailure(p.log, e);
    }
  }

  lemma {:induction false} ZeroFailure(log: seq<Event>, e: Event)
    requires FirstFailure(log) == 0 && e in log
    ensures e.Exited? ==> e.code == 0
    decreases |log|
  {
    var n := |log| - 1;
    if log[n] != e {
      assert e in log[..n];
      ZeroFailure(log[..n], e);
    }
  }
}
