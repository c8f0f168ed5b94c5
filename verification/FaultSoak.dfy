/** The fault-soak runner, scripts/runtime/run-fault-soak.ts: which attempts a run makes, and when it ends. */
module FaultSoak {
  import opened Basics

  datatype Case =
    | LongRuntimeReplay | SubagentCancelRecovery | ModelTransientStream | McpChurn
    | RuntimeSigkillRecovery | StorageAndLoggerFaults | TuiLifecycleChurn

  const PROBES: seq<Case> :=
    [LongRuntimeReplay, SubagentCancelRecovery, ModelTransientStream, McpChurn,
     RuntimeSigkillRecovery, StorageAndLoggerFaults, TuiLifecycleChurn]

  const SETTLE_RESERVE := 30_000

  /** What a report may say went wrong. `Other` stands for every text that is none of the rest. */
  datatype Code =
    | CaseCoverageIncomplete | GlobalDeadlineExceeded
    | MetricsUnsupported | IterationsInsufficient | SourceIdentityMissing
    | ForCase(id: Case, what: Fault)
    | ProbeTimeout | ProbeExit(code: int) | GlobalDeadlineExhausted | RunnerException
    | OfStatus(status: Status) | Other(text: string)

  datatype Fault =
    | AttemptCount | DuplicateIteration | IterationCoverage
    | StateInvariant | CleanupUnconfirmed | OrphanWorktree | ResidualPath
    | TerminalAssertionMissing(name: string) | ResourceGrowth(metric: string)

  datatype Status = Passed | Failed | TimedOut

  datatype Evidence = Evidence(invariants: int, terminals: map<string, int>, cleanup: Cleanup)

  datatype Cleanup = Cleanup(confirmed: bool, orphanWorktrees: Option<nat>, residualPaths: nat)

  datatype Attempt = Attempt(caseId: Case, iteration: int, status: Status, failure: Option<Code>, evidence: Evidence)

  // ---------------------------------------------------------------- the order of the probes

  /** JavaScript's remainder, which takes the sign of the dividend. */
  function Rem(a: int, b: int): int
    requires b > 0
  {
    if a >= 0 then a % b else -(-a % b)
  }

  /** Array.prototype.slice with one argument, which counts a negative one from the end. */
  function SliceFrom<T>(s: seq<T>, k: int): seq<T> {
    if k >= 0 then (if k <= |s| then s[k..] else []) else if |s| + k >= 0 then s[|s| + k..] else s
  }

  /** slice(0, k). */
  function SliceTo<T>(s: seq<T>, k: int): seq<T> {
    if k >= 0 then (if k <= |s| then s[..k] else s) else if |s| + k >= 0 then s[..|s| + k] else []
  }

  function RotatedProbes(seed: int, iteration: int): seq<Case> {
    var offset := Rem(seed + iteration - 1, |PROBES|);
    SliceFrom(PROBES, offset) + SliceTo(PROBES, offset)
  }

  function Wrap(offset: nat, i: nat): (r: nat)
    requires offset < 7 && i < 7
    ensures r < 7
  {
    if offset + i < 7 then offset + i else offset + i - 7
  }

  predicate IsShift(s: seq<Case>, r: seq<Case>, offset: nat) {
    |s| == 7 && |r| == 7 && offset < 7 && forall i | 0 <= i < 7 :: r[i] == s[Wrap(offset, i)]
  }

  lemma SlicesShift(s: seq<Case>, offset: int)
    requires |s| == 7 && -7 < offset < 7
    ensures IsShift(s, SliceFrom(s, offset) + SliceTo(s, offset), if offset >= 0 then offset else offset + 7)
  {
  }

  /** For every seed, negative ones too, an iteration is a cyclic shift of all probes. */
  lemma RotationIsCyclic(seed: int, iteration: int)
    ensures exists offset :: IsShift(PROBES, RotatedProbes(seed, iteration), offset)
  {
    var offset := Rem(seed + iteration - 1, 7);
    SlicesShift(PROBES, offset);
    assert IsShift(PROBES, RotatedProbes(seed, iteration), if offset >= 0 then offset else offset + 7);
  }

  predicate IsComplete(r: seq<Case>) {
    |r| == 7 && (forall c: Case :: c in r) && forall i, j | 0 <= i < j < 7 :: r[i] != r[j]
  }

  lemma ShiftIsComplete(s: seq<Case>, r: seq<Case>, offset: nat)
    requires IsComplete(s) && IsShift(s, r, offset)
    ensures IsComplete(r)
  {
    forall c: Case
      ensures c in r
    {
      assert c in s;
      var p :| 0 <= p < 7 && s[p] == c;
      var i := if p >= offset then p - offset else p - offset + 7;
      assert r[i] == s[Wrap(offset, i)];
    }
  }

  lemma ProbesAreComplete()
    ensures IsComplete(PROBES)
  {
    forall c: Case
      ensures c in PROBES
    {
      assert PROBES[Place(c)] == c;
    }
  }

  /** Each iteration runs every case exactly once. */
  lemma RotationCovers(seed: int, iteration: int)
    ensures IsComplete(RotatedProbes(seed, iteration))
  {
    ProbesAreComplete();
    RotationIsCyclic(seed, iteration);
    var offset :| IsShift(PROBES, RotatedProbes(seed, iteration), offset);
    ShiftIsComplete(PROBES, RotatedProbes(seed, iteration), offset);
  }

  type Order = int -> seq<Case>

  /** The order of the probes in each iteration. */
  function Rotation(seed: int): Order {
    (iteration: int) => RotatedProbes(seed, iteration)
  }

  ghost predicate AllComplete(order: Order) {
    forall iteration: int :: IsComplete(order(iteration))
  }

  lemma EveryRotationCovers(seed: int)
    ensures AllComplete(Rotation(seed))
  {
    forall iteration: int
      ensures IsComplete(Rotation(seed)(iteration))
    {
      RotationCovers(seed, iteration);
    }
  }

  function Place(c: Case): (p: nat)
    ensures p < 7 && PROBES[p] == c
  {
    match c
    case LongRuntimeReplay => 0
    case SubagentCancelRecovery => 1
    case ModelTransientStream => 2
    case McpChurn => 3
    case RuntimeSigkillRecovery => 4
    case StorageAndLoggerFaults => 5
    case TuiLifecycleChurn => 6
  }

  // ---------------------------------------------------------------- a run

  datatype Options = Options(iterations: nat, seed: int, perCase: nat)

  datatype Outcome = Exited(code: int, evidence: Evidence) | Expired(cleanup: Cleanup) | Threw

  /** What happens around one probe: time passes before the clock is read, the probe takes its time and ends somehow. */
  datatype Turn = Turn(idle: nat, took: nat, outcome: Outcome)

  type World = nat -> Turn

  function Slots(o: Options): nat { o.iterations * 7 }

  function Budget(o: Options): nat { o.iterations * 7 * o.perCase }

  /** boundedFaultSoakProbeTimeoutMs. */
  function BoundedTimeout(perCase: int, remaining: int): Option<int> {
    if remaining <= SETTLE_RESERVE then None
    else
      var least := if perCase <= remaining - SETTLE_RESERVE then perCase else remaining - SETTLE_RESERVE;
      Some(if 1 >= least then 1 else least)
  }

  /** The timeout granted to slot `k`, of a run whose deadline was fixed at `start`. */
  function Granted(o: Options, world: World, start: int, k: nat): Option<int>
    decreases k, 1
  {
    BoundedTimeout(o.perCase, start + Budget(o) - (EndOf(o, world, start, k) + world(k).idle))
  }

  /** The time after `k` slots. */
  function EndOf(o: Options, world: World, start: int, k: nat): int
    decreases k, 0
  {
    if k == 0 then start
    else EndOf(o, world, start, k - 1) + world(k - 1).idle
         + if Granted(o, world, start, k - 1).Some? then world(k - 1).took else 0
  }

  const NOTHING := Evidence(0, map[], Cleanup(false, None, 0))

  function RunnerFailure(c: Case, iteration: int, code: Code): Attempt {
    Attempt(c, iteration, TimedOut, Some(code), NOTHING)
  }

  /** What runProbe records of a probe that did not throw. */
  function Recorded(c: Case, iteration: int, outcome: Outcome): Attempt {
    match outcome
    case Exited(code, evidence) =>
      if code == 0 then Attempt(c, iteration, Passed, None, evidence)
      else Attempt(c, iteration, Failed, Some(ProbeExit(code)), Evidence(0, map[], evidence.cleanup))
    case Expired(cleanup) => Attempt(c, iteration, TimedOut, Some(ProbeTimeout), Evidence(0, map[], cleanup))
    case Threw => RunnerFailure(c, iteration, RunnerException)
  }

  function AttemptOf(c: Case, iteration: int, granted: Option<int>, turn: Turn): Attempt {
    if granted.None? then RunnerFailure(c, iteration, GlobalDeadlineExhausted) else Recorded(c, iteration, turn.outcome)
  }

  /** Slot `k` of the run belongs to one place of one iteration. */
  predicate Belongs(o: Options, order: Order, world: World, start: int, attempts: seq<Attempt>, k: nat)
    requires k < |attempts|
  {
    var iteration := k / 7 + 1;
    var probes := order(iteration);
    k % 7 < |probes| && attempts[k] == AttemptOf(probes[k % 7], iteration, Granted(o, world, start, k), world(k))
  }

  predicate AllBelong(o: Options, order: Order, world: World, start: int, attempts: seq<Attempt>) {
    forall k | 0 <= k < |attempts| :: Belongs(o, order, world, start, attempts, k)
  }

  /** One turn of the inner loop. */
  method RunSlot(o: Options, world: World, start: int, c: Case, iteration: int, k: nat, clock: int)
        returns (a: Attempt, now: int)
    requires clock == EndOf(o, world, start, k)
    ensures a == AttemptOf(c, iteration, Granted(o, world, start, k), world(k)) && now == EndOf(o, world, start, k + 1)
  {
    now := clock + world(k).idle;
    var granted := BoundedTimeout(o.perCase, start + Budget(o) - now);
    if granted.None? {
      a := RunnerFailure(c, iteration, GlobalDeadlineExhausted);
    } else {
      now := now + world(k).took;
      a := if world(k).outcome.Threw? then RunnerFailure(c, iteration, RunnerException)
        else Recorded(c, iteration, world(k).outcome);
    }
  }

  /** One iteration of the run. */
  method RunIteration(o: Options, order: Order, world: World, start: int, iteration: nat, done: seq<Attempt>,
                      clock: int)
      returns (attempts: seq<Attempt>, now: int)
    requires AllComplete(order) && AllBelong(o, order, world, start, done)
    requires 1 <= iteration && |done| == (iteration - 1) * 7 && clock == EndOf(o, world, start, |done|)
    ensures |attempts| == iteration * 7 && now == EndOf(o, world, start, |attempts|)
    ensures AllBelong(o, order, world, start, attempts)
  {
    attempts, now := done, clock;
    var probes := order(iteration);
    for i := 0 to |probes|
      invariant |attempts| == (iteration - 1) * 7 + i && now == EndOf(o, world, start, |attempts|)
      invariant AllBelong(o, order, world, start, attempts)
    {
      SlotOf(|attempts|, iteration - 1, i);
      var a;
      a, now := RunSlot(o, world, start, probes[i], iteration, |attempts|, now);
      BelongsMore(o, order, world, start, attempts, a);
      attempts := attempts + [a];
    }
  }

  lemma BelongsMore(o: Options, order: Order, world: World, start: int, attempts: seq<Attempt>, a: Attempt)
    requires AllBelong(o, order, world, start, attempts)
    requires var k := |attempts|;
             var probes := order(k / 7 + 1);
             k % 7 < |probes| && a == AttemptOf(probes[k % 7], k / 7 + 1, Granted(o, world, start, k), world(k))
    ensures AllBelong(o, order, world, start, attempts + [a])
  {
    forall k | 0 <= k < |attempts|
      ensures Belongs(o, order, world, start, attempts + [a], k)
    {
      assert Belongs(o, order, world, start, attempts, k);
    }
  }

  /** The loops of runRuntimeFaultSoak; `start` is the clock when the hard deadline is fixed. */
  method RunRuntimeFaultSoak(o: Options, world: World, start: int) returns (attempts: seq<Attempt>, now: int)
    ensures |attempts| == Slots(o) && now == EndOf(o, world, start, Slots(o))
    ensures AllBelong(o, Rotation(o.seed), world, start, attempts)
    ensures Covers(attempts, o.iterations)
  {
    var order := Rotation(o.seed);
    EveryRotationCovers(o.seed);
    attempts, now := [], start;
    var iteration := 1;
    while iteration <= o.iterations
      invariant 1 <= iteration <= o.iterations + 1
      invariant |attempts| == (iteration - 1) * 7 && now == EndOf(o, world, start, |attempts|)
      invariant AllBelong(o, order, world, start, attempts)
    {
      attempts, now := RunIteration(o, order, world, start, iteration, attempts, now);
      iteration := iteration + 1;
    }
    RunCovers(o, order, world, start, attempts);
  }

  lemma SlotOf(k: nat, q: nat, i: nat)
    requires k == q * 7 + i && i < 7
    ensures k / 7 == q && k % 7 == i
  {
  }

  // ---------------------------------------------------------------- exactly one attempt per case and iteration

  predicate IsFor(a: Attempt, c: Case, iteration: int) {
    a.caseId == c && a.iteration == iteration
  }

  predicate Attempted(attempts: seq<Attempt>, c: Case, iteration: int) {
    exists k :: 0 <= k < |attempts| && IsFor(attempts[k], c, iteration)
  }

  /** One attempt for every case and iteration, and no other attempt. */
  ghost predicate Covers(attempts: seq<Attempt>, iterations: int) {
    && (forall c: Case, i: int | 1 <= i <= iterations :: Attempted(attempts, c, i))
    && (forall j, k | 0 <= j < k < |attempts| :: !IsFor(attempts[j], attempts[k].caseId, attempts[k].iteration))
    && (forall k | 0 <= k < |attempts| :: 1 <= attempts[k].iteration <= iterations)
  }

  lemma SlotIsFor(o: Options, order: Order, world: World, start: int, attempts: seq<Attempt>, k: nat)
    requires AllComplete(order) && AllBelong(o, order, world, start, attempts) && k < |attempts|
    ensures |order(k / 7 + 1)| == 7 && IsFor(attempts[k], order(k / 7 + 1)[k % 7], k / 7 + 1)
  {
    assert Belongs(o, order, world, start, attempts, k);
  }

  /** Whatever the probes do, a run makes exactly one attempt per case and iteration, in any order that repeats none. */
  lemma RunCovers(o: Options, order: Order, world: World, start: int, attempts: seq<Attempt>)
    requires AllComplete(order) && |attempts| == Slots(o) && AllBelong(o, order, world, start, attempts)
    ensures Covers(attempts, o.iterations)
  {
    forall k | 0 <= k < |attempts|
      ensures 1 <= attempts[k].iteration <= o.iterations
    {
      SlotIsFor(o, order, world, start, attempts, k);
    }
    forall c: Case, i: int | 1 <= i <= o.iterations
      ensures Attempted(attempts, c, i)
    {
      var k := SlotFor(o, order, i, c);
      SlotIsFor(o, order, world, start, attempts, k);
      assert IsFor(attempts[k], c, i);
    }
    forall j, k | 0 <= j < k < |attempts|
      ensures !IsFor(attempts[j], attempts[k].caseId, attempts[k].iteration)
    {
      SlotIsFor(o, order, world, start, attempts, j);
      SlotIsFor(o, order, world, start, attempts, k);
      if j / 7 == k / 7 {
        PlacesDiffer(order(k / 7 + 1), j, k);
      }
    }
  }

  lemma PlacesDiffer(r: seq<Case>, j: nat, k: nat)
    requires IsComplete(r) && j < k && j / 7 == k / 7
    ensures r[j % 7] != r[k % 7]
  {
    assert j % 7 < k % 7;
  }

  lemma SlotFor(o: Options, order: Order, i: int, c: Case) returns (k: nat)
    requires AllComplete(order) && 1 <= i <= o.iterations
    ensures k < Slots(o) && k / 7 + 1 == i && |order(i)| == 7 && order(i)[k % 7] == c
  {
    assert c in order(i);
    var p :| 0 <= p < 7 && order(i)[p] == c;
    k := (i - 1) * 7 + p;
    SlotOf(k, i - 1, p);
  }

  // ---------------------------------------------------------------- when a run ends

  /** Every probe that runs overruns its granted timeout by at most the settle reserve. */
  ghost predicate Settles(o: Options, world: World, start: int) {
    forall k: nat | k < Slots(o) && Granted(o, world, start, k).Some? ::
      world(k).took <= Granted(o, world, start, k).value + SETTLE_RESERVE
  }

  /** No time passes outside the probes. */
  ghost predicate NeverIdle(o: Options, world: World) {
    forall k: nat | k < Slots(o) :: world(k).idle == 0
  }

  /** The time spent outside the probes since the last probe that ran. */
  function IdleSince(o: Options, world: World, start: int, k: nat): nat {
    if k == 0 || Granted(o, world, start, k - 1).Some? then 0
    else IdleSince(o, world, start, k - 1) + world(k - 1).idle
  }

  /** Every probe that runs ends by the hard deadline, whatever time passes between the probes. */
  lemma ProbesEndInTime(o: Options, world: World, start: int, k: nat)
    requires Settles(o, world, start) && k < Slots(o) && Granted(o, world, start, k).Some?
    ensures EndOf(o, world, start, k + 1) <= start + Budget(o)
  {
  }

  /** A run outlasts its hard deadline by no more than the time spent idle after its last probe. */
  lemma {:induction false} RunEndsInTime(o: Options, world: World, start: int, k: nat)
    requires Settles(o, world, start) && k <= Slots(o)
    ensures EndOf(o, world, start, k) <= start + Budget(o) + IdleSince(o, world, start, k)
    decreases k
  {
    if k > 0 {
      RunEndsInTime(o, world, start, k - 1);
      if Granted(o, world, start, k - 1).Some? {
        ProbesEndInTime(o, world, start, k - 1);
      }
    }
  }

  lemma {:induction false} NeverIdleSince(o: Options, world: World, start: int, k: nat)
    requires NeverIdle(o, world) && k <= Slots(o)
    ensures IdleSince(o, world, start, k) == 0
    decreases k
  {
    if k > 0 {
      NeverIdleSince(o, world, start, k - 1);
    }
  }

  lemma RunMeetsDeadline(o: Options, world: World, start: int)
    requires Settles(o, world, start) && NeverIdle(o, world)
    ensures EndOf(o, world, start, Slots(o)) <= start + Budget(o)
  {
    RunEndsInTime(o, world, start, Slots(o));
    NeverIdleSince(o, world, start, Slots(o));
  }

  /** The report's own test, on the two timestamps it is given. */
  predicate Exceeded(o: Options, startedAt: int, finishedAt: int) {
    finishedAt - startedAt > Budget(o)
  }

  /** Probes that use the whole budget and no more. */
  function FullTurn(o: Options, k: nat): Turn {
    var remaining := Budget(o) - k * o.perCase;
    Turn(0, if remaining > o.perCase + SETTLE_RESERVE then o.perCase else if remaining > 0 then remaining else 0, Threw)
  }

  function FullWorld(o: Options): World {
    (k: nat) => FullTurn(o, k)
  }

  lemma {:induction false} FullWorldEnds(o: Options, start: int, k: nat)
    requires Budget(o) > SETTLE_RESERVE && k <= Slots(o)
    ensures var end := EndOf(o, FullWorld(o), start, k);
            (end == start + k * o.perCase && Budget(o) - k * o.perCase > SETTLE_RESERVE) || end == start + Budget(o)
    decreases k
  {
    if k > 0 {
      FullWorldEnds(o, start, k - 1);
      assert k * o.perCase == (k - 1) * o.perCase + o.perCase;
      assert FullWorld(o)(k - 1) == FullTurn(o, k - 1);
    }
  }

  lemma FullWorldSettles(o: Options, start: int)
    requires Budget(o) > SETTLE_RESERVE
    ensures Settles(o, FullWorld(o), start) && NeverIdle(o, FullWorld(o))
    ensures EndOf(o, FullWorld(o), start, Slots(o)) == start + Budget(o)
  {
    forall k: nat | k < Slots(o) && Granted(o, FullWorld(o), start, k).Some?
      ensures FullWorld(o)(k).took <= Granted(o, FullWorld(o), start, k).value + SETTLE_RESERVE
    {
      FullWorldEnds(o, start, k);
      assert FullWorld(o)(k) == FullTurn(o, k);
    }
    FullWorldEnds(o, start, Slots(o));
    assert Slots(o) * o.perCase == Budget(o);
  }

  /** A run so short that no probe is ever granted time. */
  lemma {:induction false} NothingRuns(o: Options, world: World, start: int, k: nat)
    requires Budget(o) <= SETTLE_RESERVE && NeverIdle(o, world) && k <= Slots(o)
    ensures EndOf(o, world, start, k) == start
    decreases k
  {
    if k > 0 {
      NothingRuns(o, world, start, k - 1);
    }
  }

  /** With `slack` between the start time and the deadline's reading and `tail` between the last probe and the
      finish. */
  ghost predicate NeverExceeds(o: Options, start: int, slack: nat, tail: nat) {
    forall world: World | Settles(o, world, start) && NeverIdle(o, world) ::
      !Exceeded(o, start - slack, EndOf(o, world, start, Slots(o)) + tail)
  }

  /** The runner reads the report's start time before it fixes the hard deadline, and its finish time after it has
      removed the run's directory. Probes that settle, with no time lost between them, stay within the report's
      budget exactly when no time passes there either, or when no probe can be granted any and those two spans fit
      the budget. */
  lemma DeadlineIsTheBudget(o: Options, start: int, slack: nat, tail: nat)
    ensures NeverExceeds(o, start, slack, tail) <==>
            slack + tail == 0 || (Budget(o) <= SETTLE_RESERVE && slack + tail <= Budget(o))
  {
    if slack + tail == 0 {
      forall world: World | Settles(o, world, start) && NeverIdle(o, world)
        ensures !Exceeded(o, start - slack, EndOf(o, world, start, Slots(o)) + tail)
      {
        RunMeetsDeadline(o, world, start);
      }
    } else if Budget(o) > SETTLE_RESERVE {
      FullWorldSettles(o, start);
    } else {
      forall world: World | Settles(o, world, start) && NeverIdle(o, world)
        ensures EndOf(o, world, start, Slots(o)) == start
      {
        NothingRuns(o, world, start, Slots(o));
      }
      if slack + tail > Budget(o) {
        var idle: World := _ => Turn(0, 0, Threw);
        assert Settles(o, idle, start) && NeverIdle(o, idle);
      }
    }
  }
}
