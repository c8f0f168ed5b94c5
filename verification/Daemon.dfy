/**
 The daemon client of scripts/release/app-server-daemon.ts: start, stop and restart against an environment that may
 answer anything. The events of a call are judged by a monitor that knows nothing of the client's code.
 */
module Daemon {
  import opened Basics

  datatype State = Absent | Starting | Ready | Draining | Incompatible | Unavailable

  /** The lifecycle a running instance reports; `compatible` tells whether protocol and methods suit this client. */
  datatype Life = Life(
    instanceId: string,
    pid: nat,
    processStart: string,
    phase: Phase,
    buildId: string,
    workspace: string,
    compatible: bool)

  datatype Phase = PhaseStarting | PhaseReady | PhaseDraining

  datatype Status = Status(
    state: State,
    buildId: Option<string>,
    workspace: Option<string>,
    instanceId: Option<string>,
    lifecycle: Option<Life>)

  datatype Reply = Accepted | Busy | InstanceChanged | NoShutdown

  datatype Verdict = Alive | Dead | Unknown

  /** Whatever the environment has to say at one step; a call uses the part it asks for. */
  datatype Answer = Answer(
    elapsed: nat,
    life: Option<Life>,
    legacy: Status,
    reply: Reply,
    verdict: Verdict,
    fails: bool,
    exited: bool)

  datatype Event =
    | StatusRead(status: Status)
    | ShutdownSent(instanceId: string, cancel: bool, reply: Reply)
    | Inspected(pid: nat, processStart: string, verdict: Verdict)
    | Prepared(failed: bool)
    | Cleared(failed: bool)
    | Spawned

  // ---------------------------------------------------------------- reading the status

  function StateOf(life: Life): State {
    if !life.compatible then Incompatible
    else match life.phase
      case PhaseStarting => Starting
      case PhaseReady => Ready
      case PhaseDraining => Draining
  }

  /** readStatus: the lifecycle of the instance, or what the legacy protocol says, which has no lifecycle. */
  function StatusOf(a: Answer): Status {
    match a.life
    case Some(life) =>
      Status(StateOf(life), Some(life.buildId), Some(life.workspace), Some(life.instanceId), Some(life))
    case None => a.legacy.(lifecycle := None)
  }

  /** A status tells a lifecycle exactly when there is one; it is ready only for a compatible instance that says so,
      and then build, workspace and instance are that instance's own. */
  lemma StatusTells(a: Answer)
    ensures var s := StatusOf(a);
            && s.lifecycle == a.life
            && (a.life.Some? ==>
                  && (s.state == Ready <==> a.life.value.compatible && a.life.value.phase == PhaseReady)
                  && (s.state == Incompatible <==> !a.life.value.compatible)
                  && s.state != Absent && s.state != Unavailable
                  && s.instanceId == Some(a.life.value.instanceId) && s.buildId == Some(a.life.value.buildId)
                  && s.workspace == Some(a.life.value.workspace))
            && (a.life.None? ==> s.state == a.legacy.state)
  {
  }

  // ---------------------------------------------------------------- the monitor

  /** How far a call has come. `first` is the status a restart or a stop began with; a start has none. */
  datatype Stage =
    | Begun
    | Seen(first: Status)
    | Asked(first: Status)
    | Watched(first: Status)
    | Gone(origin: Option<Status>)
    | Clear(origin: Option<Status>)
    | Launched(origin: Option<Status>)
    | Over

  predicate IsChanged(first: Status, observed: Status) {
    observed.instanceId.Some? && first.lifecycle.Some? && observed.instanceId.value != first.lifecycle.value.instanceId
  }

  /** The status on which a start decides: only an absent daemon may be replaced. */
  function Decided(origin: Option<Status>, s: Status): Stage {
    if s.state == Absent then Clear(origin) else if s.state == Unavailable then Gone(origin) else Over
  }

  /** What may happen next, and what it leads to. */
  function Next(stage: Stage, e: Event): Option<Stage> {
    match (stage, e)
    case (Begun, StatusRead(s)) => Some(Seen(s))
    case (Seen(s), Prepared(_)) => Some(Seen(s))
    case (Seen(s), StatusRead(o)) => if s.state == Absent then Some(Decided(Some(s), o)) else None
    case (Seen(s), ShutdownSent(id, _, reply)) =>
      if s.state != Absent && s.lifecycle.Some? && id == s.lifecycle.value.instanceId
      then Some(if reply == Accepted then Asked(s) else Over) else None
    case (Asked(s), StatusRead(o)) =>
      Some(if IsChanged(s, o) then Over else if o.state == Absent then Watched(s) else Asked(s))
    case (Watched(s), Inspected(pid, start, verdict)) =>
      if s.lifecycle.Some? && pid == s.lifecycle.value.pid && start == s.lifecycle.value.processStart
      then Some(if verdict == Dead then Gone(Some(s)) else Asked(s)) else None
    case (Gone(o), StatusRead(s)) => Some(Decided(o, s))
    case (Gone(o), Cleared(_)) => Some(Gone(o))
    case (Clear(o), Prepared(_)) => Some(Clear(o))
    case (Clear(o), Cleared(_)) => Some(Clear(o))
    case (Clear(o), Spawned) => Some(Launched(o))
    case (Launched(o), StatusRead(_)) => Some(Launched(o))
    case _ => None
  }

  function After(origin: Stage, trace: seq<Event>): Option<Stage> {
    if trace == [] then Some(origin)
    else match After(origin, trace[..|trace| - 1])
      case Some(stage) => Next(stage, trace[|trace| - 1])
      case None => None
  }

  lemma AfterMore(origin: Stage, trace: seq<Event>, e: Event)
    ensures After(origin, trace + [e]) ==
            match After(origin, trace) case Some(stage) => Next(stage, e) case None => None
  {
    assert (trace + [e])[..|trace|] == trace;
  }

  // ---------------------------------------------------------------- what the monitor promises of every trace

  predicate ShutdownAt(trace: seq<Event>, i: int) {
    0 <= i < |trace| && trace[i].ShutdownSent?
  }

  predicate SpawnedAt(trace: seq<Event>, i: int) {
    0 <= i < |trace| && trace[i].Spawned?
  }

  predicate AbsentAt(trace: seq<Event>, i: int) {
    0 <= i < |trace| && trace[i].StatusRead? && trace[i].status.state == Absent
  }

  /** At `i` the endpoint was absent and right after it the observed process was dead. */
  predicate GoneAt(trace: seq<Event>, life: Life, i: int) {
    AbsentAt(trace, i) && i + 1 < |trace| && trace[i + 1] == Inspected(life.pid, life.processStart, Dead)
  }

  /** The one shutdown of a trace that begins with `first`. */
  ghost predicate AskedOnce(trace: seq<Event>, first: Status, k: int) {
    && first.lifecycle.Some? && 0 < k < |trace| && trace[0] == StatusRead(first) && trace[k].ShutdownSent?
    && trace[k].instanceId == first.lifecycle.value.instanceId && trace[k].reply == Accepted
    && forall i | ShutdownAt(trace, i) :: i == k
  }

  ghost predicate NeverAsked(trace: seq<Event>) {
    forall i :: !ShutdownAt(trace, i)
  }

  ghost predicate NeverSpawned(trace: seq<Event>) {
    forall i :: !SpawnedAt(trace, i)
  }

  /** Nothing was asked, or the one instance asked was seen gone after it was asked. */
  ghost predicate SeenGone(trace: seq<Event>, origin: Option<Status>, before: int) {
    || NeverAsked(trace)
    || (&& origin.Some?
        && exists k, g ::
             AskedOnce(trace, origin.value, k) && k < g < before && GoneAt(trace, origin.value.lifecycle.value, g))
  }

  /** A later status was absent as well. */
  ghost predicate SeenClear(trace: seq<Event>, origin: Option<Status>, before: int) {
    exists a :: AbsentAt(trace, a) && a < before && SeenGone(trace, origin, a - 1)
  }

  /** What the stage says about the trace that led to it. */
  ghost predicate Tells(trace: seq<Event>, stage: Stage) {
    match stage
    case Begun => trace == []
    case Seen(s) => trace != [] && trace[0] == StatusRead(s) && NeverAsked(trace) && NeverSpawned(trace)
    case Asked(s) => (exists k :: AskedOnce(trace, s, k)) && NeverSpawned(trace)
    case Watched(s) =>
      (exists k :: AskedOnce(trace, s, k) && k < |trace| - 1) && NeverSpawned(trace) && AbsentAt(trace, |trace| - 1)
    case Gone(o) => SeenGone(trace, o, |trace| - 1) && NeverSpawned(trace)
    case Clear(o) => SeenClear(trace, o, |trace|) && NeverSpawned(trace)
    case Launched(o) =>
      exists j :: SpawnedAt(trace, j) && SeenClear(trace, o, j) && forall i | SpawnedAt(trace, i) :: i == j
    case Over => NeverSpawned(trace)
  }

  /** At most one shutdown, which names the instance observed first. */
  ghost predicate IsPolite(trace: seq<Event>) {
    && (forall i, j | ShutdownAt(trace, i) && ShutdownAt(trace, j) :: i == j)
    && (forall i | ShutdownAt(trace, i) ::
          0 < i && trace[0].StatusRead? && trace[0].status.lifecycle.Some?
            && trace[i].instanceId == trace[0].status.lifecycle.value.instanceId)
  }

  // ---- one more event

  lemma NeverMore(trace: seq<Event>, e: Event)
    ensures NeverAsked(trace) && !e.ShutdownSent? ==> NeverAsked(trace + [e])
    ensures NeverSpawned(trace) && !e.Spawned? ==> NeverSpawned(trace + [e])
  {
    forall i | ShutdownAt(trace + [e], i) && !e.ShutdownSent?
      ensures ShutdownAt(trace, i)
    {
    }
    forall i | SpawnedAt(trace + [e], i) && !e.Spawned?
      ensures SpawnedAt(trace, i)
    {
    }
  }

  lemma AskedStays(trace: seq<Event>, e: Event, first: Status, k: int)
    requires AskedOnce(trace, first, k) && !e.ShutdownSent?
    ensures AskedOnce(trace + [e], first, k)
  {
    forall i | ShutdownAt(trace + [e], i)
      ensures i == k
    {
      assert ShutdownAt(trace, i);
    }
  }

  lemma GoneStays(trace: seq<Event>, e: Event, origin: Option<Status>, before: int)
    requires SeenGone(trace, origin, before) && !e.ShutdownSent?
    ensures SeenGone(trace + [e], origin, before)
  {
    NeverMore(trace, e);
    if !NeverAsked(trace) {
      var k, g :| AskedOnce(trace, origin.value, k) && k < g < before && GoneAt(trace, origin.value.lifecycle.value, g);
      AskedStays(trace, e, origin.value, k);
      assert GoneAt(trace + [e], origin.value.lifecycle.value, g);
    }
  }

  lemma GoneLater(trace: seq<Event>, origin: Option<Status>, before: int, later: int)
    requires SeenGone(trace, origin, before) && before <= later
    ensures SeenGone(trace, origin, later)
  {
    if !NeverAsked(trace) {
      var k, g :| AskedOnce(trace, origin.value, k) && k < g < before && GoneAt(trace, origin.value.lifecycle.value, g);
      assert k < g < later;
    }
  }

  lemma ClearStays(trace: seq<Event>, e: Event, origin: Option<Status>, before: int)
    requires SeenClear(trace, origin, before) && !e.ShutdownSent?
    ensures SeenClear(trace + [e], origin, before)
  {
    var a :| AbsentAt(trace, a) && a < before && SeenGone(trace, origin, a - 1);
    GoneStays(trace, e, origin, a - 1);
    assert AbsentAt(trace + [e], a);
  }

  lemma ClearLater(trace: seq<Event>, origin: Option<Status>, before: int, later: int)
    requires SeenClear(trace, origin, before) && before <= later
    ensures SeenClear(trace, origin, later)
  {
    var a :| AbsentAt(trace, a) && a < before && SeenGone(trace, origin, a - 1);
    assert a < later;
  }

  lemma PoliteMore(trace: seq<Event>, e: Event)
    requires IsPolite(trace) && !e.ShutdownSent?
    ensures IsPolite(trace + [e])
  {
    forall i | ShutdownAt(trace + [e], i)
      ensures ShutdownAt(trace, i)
    {
    }
  }

  // ---- the stages

  lemma AskStep(trace: seq<Event>, s: Status, id: string, cancel: bool, reply: Reply)
    requires Tells(trace, Seen(s)) && s.lifecycle.Some? && id == s.lifecycle.value.instanceId
    ensures var more := trace + [ShutdownSent(id, cancel, reply)];
            IsPolite(more) && NeverSpawned(more) && (reply == Accepted ==> Tells(more, Asked(s)))
  {
    var e := ShutdownSent(id, cancel, reply);
    var more := trace + [e];
    NeverMore(trace, e);
    forall i | ShutdownAt(more, i)
      ensures i == |trace|
    {
      assert !ShutdownAt(trace, i);
    }
    if reply == Accepted {
      assert AskedOnce(more, s, |trace|);
    }
  }

  /** From an absent or unavailable endpoint: the status on which a start decides. */
  lemma DecideStep(trace: seq<Event>, origin: Option<Status>, s: Status)
    requires SeenGone(trace, origin, |trace| - 1) && NeverSpawned(trace)
    ensures Tells(trace + [StatusRead(s)], Decided(origin, s))
  {
    var e := StatusRead(s);
    NeverMore(trace, e);
    GoneStays(trace, e, origin, |trace| - 1);
    if s.state == Absent {
      assert AbsentAt(trace + [e], |trace|);
    } else if s.state == Unavailable {
      GoneLater(trace + [e], origin, |trace| - 1, |trace|);
    }
  }

  lemma SeenStep(trace: seq<Event>, s: Status, e: Event)
    requires Tells(trace, Seen(s)) && Next(Seen(s), e).Some? && !e.ShutdownSent?
    ensures Tells(trace + [e], Next(Seen(s), e).value)
  {
    NeverMore(trace, e);
    if e.StatusRead? {
      DecideStep(trace, Some(s), e.status);
    }
  }

  lemma PollStep(trace: seq<Event>, s: Status, o: Status)
    requires Tells(trace, Asked(s))
    ensures Tells(trace + [StatusRead(o)], Next(Asked(s), StatusRead(o)).value)
  {
    var e := StatusRead(o);
    NeverMore(trace, e);
    var k :| AskedOnce(trace, s, k);
    AskedStays(trace, e, s, k);
    if o.state == Absent {
      assert AbsentAt(trace + [e], |trace|);
    }
  }

  lemma InspectStep(trace: seq<Event>, s: Status, e: Event)
    requires Tells(trace, Watched(s)) && Next(Watched(s), e).Some?
    ensures Tells(trace + [e], Next(Watched(s), e).value)
  {
    var more := trace + [e];
    NeverMore(trace, e);
    var k :| AskedOnce(trace, s, k) && k < |trace| - 1;
    AskedStays(trace, e, s, k);
    if e.verdict == Dead {
      assert GoneAt(more, s.lifecycle.value, |trace| - 1);
    }
  }

  lemma LaunchStep(trace: seq<Event>, origin: Option<Status>)
    requires Tells(trace, Clear(origin))
    ensures Tells(trace + [Spawned], Launched(origin))
  {
    var more := trace + [Spawned];
    ClearStays(trace, Spawned, origin, |trace|);
    forall i | SpawnedAt(more, i)
      ensures i == |trace|
    {
      assert !SpawnedAt(trace, i);
    }
    assert SpawnedAt(more, |trace|);
  }

  lemma WaitStep(trace: seq<Event>, origin: Option<Status>, s: Status)
    requires Tells(trace, Launched(origin))
    ensures Tells(trace + [StatusRead(s)], Launched(origin))
  {
    var e := StatusRead(s);
    var j :| SpawnedAt(trace, j) && SeenClear(trace, origin, j) && forall i | SpawnedAt(trace, i) :: i == j;
    ClearStays(trace, e, origin, j);
    forall i | SpawnedAt(trace + [e], i)
      ensures i == j
    {
      assert SpawnedAt(trace, i);
    }
    assert SpawnedAt(trace + [e], j);
  }

  lemma IdleStep(trace: seq<Event>, stage: Stage, e: Event)
    requires Tells(trace, stage) && (stage.Gone? || stage.Clear?) && (e.Prepared? || e.Cleared?)
    ensures Tells(trace + [e], stage)
  {
    NeverMore(trace, e);
    if stage.Gone? {
      GoneStays(trace, e, stage.origin, |trace| - 1);
      GoneLater(trace + [e], stage.origin, |trace| - 1, |trace|);
    } else {
      ClearStays(trace, e, stage.origin, |trace|);
      ClearLater(trace + [e], stage.origin, |trace|, |trace| + 1);
    }
  }

  lemma TellsMore(trace: seq<Event>, stage: Stage, e: Event)
    requires IsPolite(trace) && Tells(trace, stage) && Next(stage, e).Some?
    ensures IsPolite(trace + [e]) && Tells(trace + [e], Next(stage, e).value)
  {
    if e.ShutdownSent? {
      AskStep(trace, stage.first, e.instanceId, e.cancel, e.reply);
    } else {
      PoliteMore(trace, e);
      match stage
      case Begun => NeverMore(trace, e);
      case Seen(s) => SeenStep(trace, s, e);
      case Asked(s) => PollStep(trace, s, e.status);
      case Watched(s) => InspectStep(trace, s, e);
      case Gone(o) =>
        if e.StatusRead? {
          DecideStep(trace, o, e.status);
        } else {
          IdleStep(trace, stage, e);
        }
      case Clear(o) =>
        if e.Spawned? {
          LaunchStep(trace, o);
        } else {
          IdleStep(trace, stage, e);
        }
      case Launched(o) => WaitStep(trace, o, e.status);
    }
  }

  predicate IsOrigin(origin: Stage) { origin == Begun || origin == Gone(None) }

  lemma {:induction false} AfterTells(origin: Stage, trace: seq<Event>)
    requires IsOrigin(origin) && After(origin, trace).Some?
    ensures IsPolite(trace) && Tells(trace, After(origin, trace).value)
    decreases |trace|
  {
    if trace != [] {
      var n := |trace| - 1;
      AfterTells(origin, trace[..n]);
      TellsMore(trace[..n], After(origin, trace[..n]).value, trace[n]);
      assert trace[..n] + [trace[n]] == trace;
    }
  }

  // ---------------------------------------------------------------- the theorems

  /** Between a shutdown and a spawn: the shutdown was accepted, then the endpoint was absent and the process that
      was asked was dead, and after that the endpoint was absent once more. */
  ghost predicate Replaced(trace: seq<Event>, i: int, j: int) {
    && ShutdownAt(trace, i) && trace[i].reply == Accepted
    && trace[0].StatusRead? && trace[0].status.lifecycle.Some?
    && exists g, a :: i < g && g + 1 < a < j && GoneAt(trace, trace[0].status.lifecycle.value, g) && AbsentAt(trace, a)
  }

  /** A spawn that follows a shutdown follows the death of the instance that was asked; and there is one spawn at
      most. */
  lemma SpawnIsSafe(origin: Stage, trace: seq<Event>, j: int)
    requires IsOrigin(origin) && After(origin, trace).Some? && SpawnedAt(trace, j)
    ensures forall i | SpawnedAt(trace, i) :: i == j
    ensures exists a :: a < j && AbsentAt(trace, a)
    ensures forall i | ShutdownAt(trace, i) :: Replaced(trace, i, j)
  {
    AfterTells(origin, trace);
    var stage := After(origin, trace).value;
    var j' :| SpawnedAt(trace, j') && SeenClear(trace, stage.origin, j') && forall i | SpawnedAt(trace, i) :: i == j';
    var a :| AbsentAt(trace, a) && a < j && SeenGone(trace, stage.origin, a - 1);
    forall i | ShutdownAt(trace, i)
      ensures Replaced(trace, i, j)
    {
      var k, g :| AskedOnce(trace, stage.origin.value, k) && k < g < a - 1
        && GoneAt(trace, stage.origin.value.lifecycle.value, g);
      assert i == k && g + 1 < a;
    }
  }

  /** At most one shutdown, naming the instance observed first, and at most one spawn, which no living instance
      precedes. */
  ghost predicate IsSafe(trace: seq<Event>) {
    && IsPolite(trace)
    && (forall i, j | SpawnedAt(trace, i) && SpawnedAt(trace, j) :: i == j)
    && (forall i, j | ShutdownAt(trace, i) && SpawnedAt(trace, j) :: Replaced(trace, i, j))
  }

  /** Every trace the monitor accepts is safe. */
  lemma AcceptedIsSafe(origin: Stage, trace: seq<Event>)
    requires IsOrigin(origin) && After(origin, trace).Some?
    ensures IsSafe(trace)
  {
    AfterTells(origin, trace);
    forall j | SpawnedAt(trace, j)
      ensures (forall i | SpawnedAt(trace, i) :: i == j) && forall i | ShutdownAt(trace, i) :: Replaced(trace, i, j)
    {
      SpawnIsSafe(origin, trace, j);
    }
  }

  lemma {:induction false} PrefixIsAccepted(origin: Stage, trace: seq<Event>, n: nat)
    requires After(origin, trace).Some? && n <= |trace|
    ensures After(origin, trace[..n]).Some?
    decreases |trace|
  {
    if n == |trace| {
      assert trace[..n] == trace;
    } else {
      PrefixIsAccepted(origin, trace[..|trace| - 1], n);
      assert trace[..|trace| - 1][..n] == trace[..n];
    }
  }

  /** A busy daemon, a changed instance or a strange reply ends the call. */
  lemma RefusalIsFinal(origin: Stage, trace: seq<Event>, i: int)
    requires After(origin, trace).Some? && ShutdownAt(trace, i) && trace[i].reply != Accepted
    ensures i == |trace| - 1
  {
    PrefixIsAccepted(origin, trace, i + 1);
    assert trace[..i + 1][..i] == trace[..i];
    OverIsFinal(origin, trace, i + 1);
  }

  lemma {:induction false} OverIsFinal(origin: Stage, trace: seq<Event>, n: nat)
    requires After(origin, trace).Some? && n <= |trace| && After(origin, trace[..n]) == Some(Over)
    ensures n == |trace|
    decreases |trace|
  {
    if n < |trace| {
      var front := trace[..|trace| - 1];
      assert front[..n] == trace[..n] && front[..|front|] == front;
      OverIsFinal(origin, front, n);
    }
  }

  /** An instance that changes while its end is awaited ends the call. */
  lemma ChangeIsFinal(origin: Stage, trace: seq<Event>, k: int, i: int)
    requires IsOrigin(origin) && After(origin, trace).Some? && ShutdownAt(trace, k) && k < i < |trace|
             && NeverSpawned(trace)
    requires trace[i].StatusRead? && trace[i].status.instanceId.Some?
             && trace[i].status.instanceId.value != trace[k].instanceId
    requires After(origin, trace[..i]).Some? && After(origin, trace[..i]).value.Asked?
    ensures i == |trace| - 1
  {
    var front := trace[..i];
    AfterTells(origin, front);
    var s := After(origin, front).value.first;
    var m :| AskedOnce(front, s, m);
    assert ShutdownAt(front, k);
    assert trace[..i + 1][..i] == front;
    OverIsFinal(origin, trace, i + 1);
  }

  // ---------------------------------------------------------------- the client

  datatype Failure =
    | NoLifecycle | ShutdownUnavailable | DaemonBusy | ChangedInstance | ChangedConcurrently | StopTimeout
    | NoWorkspace | OtherWorkspace | NotPrepared | EndpointBlocked | StartupFailed | StartTimeout | NotReached

  datatype Outcome = Returned(status: Status) | Threw(why: Failure)

  datatype Target = Target(buildId: string, unix: bool, cwd: string, canonical: string -> Option<string>)

  /** The workspace a restart serves: the one given, or that of the daemon observed first, or the working directory. */
  function Chosen(workspace: Option<string>, first: Status, target: Target): string {
    if workspace.Some? then workspace.value else if first.workspace.Some? then first.workspace.value else target.cwd
  }

  class Client {
    const target: Target
    const script: nat -> Answer
    var step: nat
    var now: int
    ghost const origin: Stage
    ghost var trace: seq<Event>

    /** A client about to make one call, in an environment whose answers are the script. */
    constructor (target: Target, script: nat -> Answer, origin: Stage)
      ensures this.target == target && this.script == script && this.origin == origin && trace == []
    {
      this.target, this.script, this.origin := target, script, origin;
      step, now, trace := 0, 0, [];
    }

    ghost function Stage(): Option<Stage>
      reads this
    {
      After(origin, trace)
    }

    /** The event was recorded, and the monitor moved on. */
    twostate predicate Recorded(e: Event)
      reads this
    {
      && trace == old(trace) + [e] && now >= old(now)
      && Stage() == match old(Stage()) case Some(stage) => Next(stage, e) case None => None
    }

    method ReadStatus() returns (s: Status)
      modifies this
      ensures Recorded(StatusRead(s)) && (s.lifecycle.Some? ==> s.instanceId == Some(s.lifecycle.value.instanceId))
    {
      var a := script(step);
      step, now := step + 1, now + a.elapsed;
      s := StatusOf(a);
      AfterMore(origin, trace, StatusRead(s));
      trace := trace + [StatusRead(s)];
    }

    method SendShutdown(instanceId: string, cancel: bool) returns (reply: Reply)
      modifies this
      ensures Recorded(ShutdownSent(instanceId, cancel, reply))
    {
      var a := script(step);
      step, now, reply := step + 1, now + a.elapsed, a.reply;
      AfterMore(origin, trace, ShutdownSent(instanceId, cancel, reply));
      trace := trace + [ShutdownSent(instanceId, cancel, reply)];
    }

    method Inspect(pid: nat, processStart: string) returns (verdict: Verdict)
      modifies this
      ensures Recorded(Inspected(pid, processStart, verdict))
    {
      var a := script(step);
      step, now, verdict := step + 1, now + a.elapsed, a.verdict;
      AfterMore(origin, trace, Inspected(pid, processStart, verdict));
      trace := trace + [Inspected(pid, processStart, verdict)];
    }

    /** Preparing the target and checking its assets and session store, which may throw. */
    method Prepare() returns (failed: bool)
      modifies this
      ensures Recorded(Prepared(failed))
    {
      var a := script(step);
      step, now, failed := step + 1, now + a.elapsed, a.fails;
      AfterMore(origin, trace, Prepared(failed));
      trace := trace + [Prepared(failed)];
    }

    method ClearDeadEndpoint() returns (failed: bool)
      modifies this
      ensures Recorded(Cleared(failed))
    {
      var a := script(step);
      step, now, failed := step + 1, now + a.elapsed, a.fails;
      AfterMore(origin, trace, Cleared(failed));
      trace := trace + [Cleared(failed)];
    }

    method Spawn()
      modifies this
      ensures Recorded(Spawned)
    {
      step := step + 1;
      AfterMore(origin, trace, Spawned);
      trace := trace + [Spawned];
    }

    /** Bun.sleep(50). */
    method Sleep()
      modifies this
      ensures now >= old(now) + 50 && trace == old(trace)
    {
      var a := script(step);
      step, now := step + 1, now + 50 + a.elapsed;
    }

    method HasExited() returns (exited: bool)
      modifies this
      ensures now >= old(now) && trace == old(trace)
    {
      var a := script(step);
      step, now, exited := step + 1, now + a.elapsed, a.exited;
    }

    /** stopInstance. */
    method StopInstance(current: Status, cancel: bool) returns (failure: Option<Failure>)
      requires Stage() == Some(Seen(current)) && current.state != Absent
      modifies this
      ensures Stage().Some? && (failure.None? ==> Stage() == Some(Gone(Some(current)))) && old(trace) <= trace
      ensures failure.Some? ==> !Stage().value.Launched?
    {
      if current.lifecycle.None? {
        return Some(NoLifecycle);
      }
      var life := current.lifecycle.value;
      var reply := SendShutdown(life.instanceId, cancel);
      match reply
      case NoShutdown => return Some(ShutdownUnavailable);
      case Busy => return Some(DaemonBusy);
      case InstanceChanged => return Some(ChangedInstance);
      case Accepted =>
      failure := AwaitGone(current, life);
    }

    /** The polling loop of stopInstance. */
    method AwaitGone(current: Status, life: Life) returns (failure: Option<Failure>)
      requires Stage() == Some(Asked(current)) && current.lifecycle == Some(life)
      modifies this
      ensures Stage().Some? && (failure.None? ==> Stage() == Some(Gone(Some(current)))) && old(trace) <= trace
      ensures failure.Some? ==> !Stage().value.Launched?
    {
      var deadline := now + 30_000;
      while now < deadline
        invariant Stage() == Some(Asked(current)) && old(trace) <= trace
        decreases deadline - now
      {
        var observed := ReadStatus();
        if observed.instanceId.Some? && observed.instanceId.value != life.instanceId {
          return Some(ChangedConcurrently);
        }
        if observed.state == Absent {
          var verdict := Inspect(life.pid, life.processStart);
          if verdict == Dead {
            return None;
          }
        }
        Sleep();
      }
      return Some(StopTimeout);
    }

    /** start. */
    method Start(workspace: string) returns (r: Outcome)
      requires Stage().Some? && (Stage().value.Gone? || (Stage().value.Seen? && Stage().value.first.state == Absent))
      modifies this
      ensures Stage().Some? && old(trace) <= trace
      ensures r.Returned? ==> target.canonical(workspace).Some?
      ensures r.Threw? ==> (Stage().value.Launched? <==> r.why == StartupFailed || r.why == StartTimeout)
    {
      var found := target.canonical(workspace);
      if found.None? {
        return Threw(NoWorkspace);
      }
      var existing := ReadStatus();
      if existing.state == Unavailable && target.unix {
        var blocked := ClearDeadEndpoint();
        if blocked {
          return Threw(EndpointBlocked);
        }
        existing := ReadStatus();
      }
      if existing.state != Absent {
        var foreign := existing.state == Ready && existing.workspace != found;
        return Returned(if foreign then existing.(state := Incompatible) else existing);
      }
      r := Launch();
    }

    /** The part of start that replaces an absent daemon. */
    method Launch() returns (r: Outcome)
      requires Stage().Some? && Stage().value.Clear?
      modifies this
      ensures Stage().Some? && old(trace) <= trace
      ensures r.Threw? ==> (Stage().value.Launched? <==> r.why == StartupFailed || r.why == StartTimeout)
    {
      var failed := Prepare();
      if failed {
        return Threw(NotPrepared);
      }
      var blocked := ClearDeadEndpoint();
      if blocked {
        return Threw(EndpointBlocked);
      }
      r := SpawnAndAwait();
    }

    method SpawnAndAwait() returns (r: Outcome)
      requires Stage().Some? && Stage().value.Clear?
      modifies this
      ensures Stage().Some? && Stage().value.Launched? && old(trace) <= trace
      ensures r.Threw? ==> r.why == StartupFailed || r.why == StartTimeout
    {
      Spawn();
      r := AwaitReady();
    }

    /** The polling loop of start. */
    method AwaitReady() returns (r: Outcome)
      requires Stage().Some? && Stage().value.Launched?
      modifies this
      ensures Stage() == old(Stage()) && old(trace) <= trace
      ensures r.Returned? ==> r.status.state in {Ready, Draining, Incompatible}
      ensures r.Threw? ==> r.why == StartupFailed || r.why == StartTimeout
    {
      var deadline := now + 10_000;
      while now < deadline
        invariant Stage() == old(Stage()) && old(trace) <= trace
        decreases deadline - now
      {
        var status := ReadStatus();
        if status.state == Ready || status.state == Draining || status.state == Incompatible {
          return Returned(status);
        }
        var exited := HasExited();
        if exited {
          return Threw(StartupFailed);
        }
        Sleep();
      }
      return Threw(StartTimeout);
    }

    lemma Judge()
      requires IsOrigin(origin) && Stage().Some?
      ensures IsSafe(trace) && Tells(trace, Stage().value)
    {
      AcceptedIsSafe(origin, trace);
      AfterTells(origin, trace);
    }

    /** restart: whatever the environment answers, the trace of the call is one the monitor accepts. */
    method Restart(workspace: Option<string>, cancel: bool) returns (r: Outcome)
      requires origin == Begun && trace == []
      modifies this
      ensures Stage().Some? && IsSafe(trace)
      ensures trace != [] && trace[0].StatusRead?
      ensures r.Returned? ==>
                && r.status.state == Ready && r.status.buildId == Some(target.buildId) && r.status.workspace.Some?
                && r.status.workspace == target.canonical(Chosen(workspace, trace[0].status, target))
      ensures r.Threw? && r.why !in {StartupFailed, StartTimeout, NotReached} ==> NeverSpawned(trace)
    {
      var current := ReadStatus();
      var found := target.canonical(Chosen(workspace, current, target));
      Judge();
      if found.None? {
        return Threw(NoWorkspace);
      }
      if current.workspace.Some? && current.workspace != found {
        return Threw(OtherWorkspace);
      }
      var failed := Prepare();
      Judge();
      if failed {
        return Threw(NotPrepared);
      }
      if current.state != Absent {
        var failure := StopInstance(current, cancel);
        if failure.Some? {
          Judge();
          return Threw(failure.value);
        }
      }
      r := Start(found.value);
      Judge();
      if r.Returned? && (r.status.state != Ready || r.status.buildId != Some(target.buildId)
        || r.status.workspace != found) {
        return Threw(NotReached);
      }
    }

    /** stop. */
    method Stop() returns (r: Outcome)
      requires origin == Begun && trace == []
      modifies this
      ensures Stage().Some? && IsPolite(trace) && NeverSpawned(trace)
    {
      var current := ReadStatus();
      if current.state == Absent {
        AfterTells(origin, trace);
        return Returned(current);
      }
      var failure := StopInstance(current, true);
      AfterTells(origin, trace);
      if failure.Some? {
        return Threw(failure.value);
      }
      var last := ReadStatus();
      AfterTells(origin, trace);
      return Returned(last);
    }
  }
}
