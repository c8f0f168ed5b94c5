/** buildRuntimeFaultSoakReport of scripts/runtime/fault-soak-report.ts: which failure codes a report carries, and
    its status. */
module FaultSoakReport {
  import opened Basics
  import opened FaultSoak

  /** The terminal outcomes a probe of each case must have asserted. */
  function Required(c: Case): set<string> {
    match c
    case LongRuntimeReplay => {"completed"}
    case SubagentCancelRecovery => {"cancelled", "reconciliation_required"}
    case ModelTransientStream => {"model_retry_exhausted", "deadline_exceeded"}
    case McpChurn => {"mcp_unavailable", "reconciliation_required"}
    case RuntimeSigkillRecovery => {"reconciliation_required"}
    case StorageAndLoggerFaults => {"persistence_unavailable", "completed"}
    case TuiLifecycleChurn => {"completed", "cancelled"}
  }

  function Asserted(terminals: map<string, int>, name: string): int {
    if name in terminals then terminals[name] else 0
  }

  /** The codes one attempt raises by itself. */
  function CodesOf(a: Attempt): set<Code> {
    (if a.status != Passed then {if a.failure.Some? then a.failure.value else OfStatus(a.status)} else {})
    + (if a.evidence.invariants <= 0 then {ForCase(a.caseId, StateInvariant)} else {})
    + (if !a.evidence.cleanup.confirmed then {ForCase(a.caseId, CleanupUnconfirmed)} else {})
    + (if a.evidence.cleanup.orphanWorktrees.Some? && a.evidence.cleanup.orphanWorktrees.value > 0
       then {ForCase(a.caseId, OrphanWorktree)} else {})
    + (if a.evidence.cleanup.residualPaths > 0 then {ForCase(a.caseId, ResidualPath)} else {})
    + (set name | name in Required(a.caseId) && Asserted(a.evidence.terminals, name) <= 0
                :: ForCase(a.caseId, TerminalAssertionMissing(name)))
  }

  /** The iterations of one case's attempts, in order. */
  function IterationsOf(attempts: seq<Attempt>, c: Case): seq<int> {
    if attempts == [] then []
    else
      var last := attempts[|attempts| - 1];
      IterationsOf(attempts[..|attempts| - 1], c) + if last.caseId == c then [last.iteration] else []
  }

  /** The codes the group of one case raises. */
  function CodesOfGroup(c: Case, group: seq<int>, iterations: int): set<Code> {
    Flags(c, |group| != iterations, |Elements(group)| != |group|, !IsRange(Elements(group), iterations))
  }

  /** The iterations 1 to the last, no more and no fewer. */
  predicate IsRange(found: set<int>, iterations: int) {
    (forall i | 1 <= i <= iterations :: i in found) && (forall i | i in found :: 1 <= i <= iterations)
  }

  function Flags(c: Case, count: bool, duplicate: bool, coverage: bool): set<Code> {
    (if count then {ForCase(c, AttemptCount)} else {})
    + (if duplicate then {ForCase(c, DuplicateIteration)} else {})
    + (if coverage then {ForCase(c, IterationCoverage)} else {})
  }

  lemma FlagsAreCoverage(c: Case, count: bool, duplicate: bool, coverage: bool, code: Code)
    ensures code in Flags(c, count, duplicate, coverage) ==> IsCoverage(code) && code.ForCase? && code.id == c
  {
  }

  // ---------------------------------------------------------------- coverage codes

  predicate IsCoverage(code: Code) {
    || code == CaseCoverageIncomplete
    || (code.ForCase? && code.what in {AttemptCount, DuplicateIteration, IterationCoverage})
  }

  /** The part of the report that grouping the attempts decides. */
  ghost predicate IsCovered(attempts: seq<Attempt>, iterations: int) {
    |attempts| == iterations * 7 && forall c: Case :: CodesOfGroup(c, IterationsOf(attempts, c), iterations) == {}
  }

  lemma {:induction false} DistinctSize(s: seq<int>)
    ensures |Elements(s)| <= |s| && (|Elements(s)| == |s| <==> Distinct(s))
    decreases |s|
  {
    if s == [] {
      assert Elements(s) == {};
    } else {
      var front, x := s[..|s| - 1], s[|s| - 1];
      DistinctSize(front);
      assert Elements(s) == Elements(front) + {x};
      if x in front {
        var i :| 0 <= i < |front| && front[i] == x;
        assert s[i] == s[|s| - 1];
        assert Elements(s) == Elements(front);
      }
      assert Distinct(s) ==> Distinct(front);
    }
  }

  function Range(n: nat): (r: set<int>)
    ensures |r| == n && forall i :: i in r <==> 1 <= i <= n
  {
    if n == 0 then {} else Range(n - 1) + {n}
  }

  /** A case is without code exactly when its iterations are 1 to n in some order. */
  lemma GroupIsClean(c: Case, group: seq<int>, n: nat)
    ensures CodesOfGroup(c, group, n) == {} <==> Distinct(group) && forall i :: i in group <==> 1 <= i <= n
  {
    DistinctSize(group);
    var codes := CodesOfGroup(c, group, n);
    if codes == {} {
      assert ForCase(c, DuplicateIteration) !in codes && ForCase(c, IterationCoverage) !in codes;
      forall i
        ensures i in group <==> 1 <= i <= n
      {
        assert i in group <==> i in Elements(group);
      }
    }
    if Distinct(group) && forall i :: i in group <==> 1 <= i <= n {
      assert Elements(group) == Range(n);
    }
  }

  lemma {:induction false} InGroup(attempts: seq<Attempt>, c: Case, i: int)
    ensures i in IterationsOf(attempts, c) <==> Attempted(attempts, c, i)
    decreases |attempts|
  {
    if attempts != [] {
      var front, last := attempts[..|attempts| - 1], attempts[|attempts| - 1];
      InGroup(front, c, i);
      if Attempted(front, c, i) {
        var k :| 0 <= k < |front| && IsFor(front[k], c, i);
        assert IsFor(attempts[k], c, i);
      }
      if IsFor(last, c, i) {
        assert IsFor(attempts[|attempts| - 1], c, i);
      }
      if Attempted(attempts, c, i) && !IsFor(last, c, i) {
        var k :| 0 <= k < |attempts| && IsFor(attempts[k], c, i);
        assert IsFor(front[k], c, i);
      }
    }
  }

  predicate NoRepeat(attempts: seq<Attempt>, c: Case) {
    forall j, k | 0 <= j < k < |attempts| && attempts[k].caseId == c :: !IsFor(attempts[j], c, attempts[k].iteration)
  }

  lemma {:induction false} GroupIsDistinct(attempts: seq<Attempt>, c: Case)
    ensures Distinct(IterationsOf(attempts, c)) <==> NoRepeat(attempts, c)
    decreases |attempts|
  {
    if attempts != [] {
      var front, last := attempts[..|attempts| - 1], attempts[|attempts| - 1];
      GroupIsDistinct(front, c);
      NoRepeatStep(attempts, c);
      if last.caseId == c {
        DistinctStep(IterationsOf(front, c), last.iteration);
        InGroup(front, c, last.iteration);
      } else {
        assert IterationsOf(attempts, c) == IterationsOf(front, c);
      }
    }
  }

  lemma DistinctStep(s: seq<int>, x: int)
    ensures Distinct(s + [x]) <==> Distinct(s) && x !in s
  {
    var t := s + [x];
    assert forall i | 0 <= i < |s| :: t[i] == s[i];
    assert t[|s|] == x;
  }

  lemma NoRepeatStep(attempts: seq<Attempt>, c: Case)
    requires attempts != []
    ensures var front, last := attempts[..|attempts| - 1], attempts[|attempts| - 1];
            NoRepeat(attempts, c) <==> NoRepeat(front, c) && (last.caseId == c ==> !Attempted(front, c, last.iteration))
  {
    var n := |attempts| - 1;
    var front, last := attempts[..n], attempts[n];
    if NoRepeat(attempts, c) {
      assert forall j, k | 0 <= j < k < n && front[k].caseId == c :: !IsFor(attempts[j], c, attempts[k].iteration);
      assert forall j | 0 <= j < n && last.caseId == c :: !IsFor(front[j], c, last.iteration) by {
        assert forall j | 0 <= j < n && last.caseId == c :: !IsFor(attempts[j], c, attempts[n].iteration);
      }
    }
    if NoRepeat(front, c) && (last.caseId == c ==> !Attempted(front, c, last.iteration)) {
      forall j, k | 0 <= j < k <= n && attempts[k].caseId == c
        ensures !IsFor(attempts[j], c, attempts[k].iteration)
      {
        assert front[j] == attempts[j];
        assert k < n ==> !IsFor(front[j], c, front[k].iteration);
      }
    }
  }

  /** The sizes of the groups add up to the number of attempts. */
  function Grouped(attempts: seq<Attempt>, n: nat): nat
    requires n <= 7
  {
    if n == 0 then 0 else Grouped(attempts, n - 1) + |IterationsOf(attempts, PROBES[n - 1])|
  }

  lemma {:induction false} GroupedStep(attempts: seq<Attempt>, n: nat)
    requires attempts != [] && n <= 7
    ensures Grouped(attempts, n) == Grouped(attempts[..|attempts| - 1], n)
            + if Place(attempts[|attempts| - 1].caseId) < n then 1 else 0
    decreases n
  {
    if n > 0 {
      GroupedStep(attempts, n - 1);
      PlaceIsUnique(attempts[|attempts| - 1].caseId, n - 1);
    }
  }

  lemma PlaceIsUnique(c: Case, p: nat)
    requires p < 7
    ensures PROBES[p] == c <==> Place(c) == p
  {
  }

  lemma {:induction false} GroupsAddUp(attempts: seq<Attempt>, n: nat)
    requires n == 7
    ensures Grouped(attempts, n) == |attempts|
    decreases |attempts|
  {
    if attempts == [] {
      EmptyGroups(n);
    } else {
      GroupedStep(attempts, n);
      GroupsAddUp(attempts[..|attempts| - 1], n);
    }
  }

  lemma {:induction false} EmptyGroups(n: nat)
    requires n <= 7
    ensures Grouped([], n) == 0
  {
    if n > 0 {
      EmptyGroups(n - 1);
    }
  }

  lemma {:induction false} EqualGroups(attempts: seq<Attempt>, size: nat, n: nat)
    requires n <= 7 && forall c: Case :: |IterationsOf(attempts, c)| == size
    ensures Grouped(attempts, n) == n * size
    decreases n
  {
    if n > 0 {
      EqualGroups(attempts, size, n - 1);
      assert n * size == (n - 1) * size + size;
    }
  }

  ghost predicate CaseCovered(attempts: seq<Attempt>, c: Case, n: nat) {
    NoRepeat(attempts, c) && forall i :: Attempted(attempts, c, i) <==> 1 <= i <= n
  }

  lemma CleanIffCaseCovered(attempts: seq<Attempt>, c: Case, n: nat)
    ensures CodesOfGroup(c, IterationsOf(attempts, c), n) == {} <==> CaseCovered(attempts, c, n)
  {
    var group := IterationsOf(attempts, c);
    GroupIsClean(c, group, n);
    GroupIsDistinct(attempts, c);
    forall i: int
      ensures i in group <==> Attempted(attempts, c, i)
    {
      InGroup(attempts, c, i);
    }
  }

  /** The coverage tests pass exactly when there is one attempt for every case and iteration, and no other. */
  lemma CoveredIffCovers(attempts: seq<Attempt>, n: nat)
    ensures IsCovered(attempts, n) <==> Covers(attempts, n)
  {
    forall c: Case
      ensures CodesOfGroup(c, IterationsOf(attempts, c), n) == {} <==> CaseCovered(attempts, c, n)
    {
      CleanIffCaseCovered(attempts, c, n);
    }
    if forall c: Case :: CodesOfGroup(c, IterationsOf(attempts, c), n) == {} {
      CleanGroups(attempts, n);
    }
    CoversByCase(attempts, n);
  }

  lemma CleanGroups(attempts: seq<Attempt>, n: nat)
    requires forall c: Case :: CodesOfGroup(c, IterationsOf(attempts, c), n) == {}
    ensures |attempts| == n * 7
  {
    forall c: Case
      ensures |IterationsOf(attempts, c)| == n
    {
      assert ForCase(c, AttemptCount) !in CodesOfGroup(c, IterationsOf(attempts, c), n);
    }
    GroupsAddUp(attempts, 7);
    EqualGroups(attempts, n, 7);
  }

  lemma CoversByCase(attempts: seq<Attempt>, n: nat)
    ensures Covers(attempts, n) <==> forall c: Case :: CaseCovered(attempts, c, n)
  {
    if Covers(attempts, n) {
      forall c: Case
        ensures CaseCovered(attempts, c, n)
      {
      }
    }
    if forall c: Case :: CaseCovered(attempts, c, n) {
      forall k | 0 <= k < |attempts|
        ensures 1 <= attempts[k].iteration <= n
        ensures forall j | 0 <= j < k :: !IsFor(attempts[j], attempts[k].caseId, attempts[k].iteration)
      {
        var c := attempts[k].caseId;
        assert CaseCovered(attempts, c, n) && IsFor(attempts[k], c, attempts[k].iteration);
        assert Attempted(attempts, c, attempts[k].iteration);
      }
      forall c: Case, i: int | 1 <= i <= n
        ensures Attempted(attempts, c, i)
      {
        assert CaseCovered(attempts, c, n);
      }
    }
  }

  // ---------------------------------------------------------------- the report

  datatype Profile = Ci | Qualification

  /** What the report is built from; `metrics`, `source` and `growth` are the answers of checks that are not part of
      this model. */
  datatype Input = Input(
    iterations: int,
    perCase: int,
    profile: Profile,
    attempts: seq<Attempt>,
    wallTime: nat,
    metrics: bool,
    source: bool,
    growth: set<(Case, string)>)

  const MINIMUM_ITERATIONS := 8

  predicate IsSoft(code: Code) {
    code in {MetricsUnsupported, IterationsInsufficient, SourceIdentityMissing}
  }

  /** The codes of the run as a whole. */
  function RunCodes(input: Input): set<Code> {
    (if input.wallTime > input.iterations * 7 * input.perCase then {GlobalDeadlineExceeded} else {})
    + (if input.profile == Ci then {} else
         (if !input.metrics then {MetricsUnsupported} else {})
         + (if input.iterations < MINIMUM_ITERATIONS then {IterationsInsufficient} else {})
         + (if !input.source then {SourceIdentityMissing} else {})
         + (set g | g in input.growth :: ForCase(g.0, ResourceGrowth(g.1))))
  }

  ghost predicate OwnCode(raise: Attempt -> set<Code>, attempts: seq<Attempt>, code: Code) {
    exists a :: a in attempts && code in raise(a)
  }

  ghost predicate Raised(input: Input, code: Code) {
    || code in RunCodes(input)
    || OwnCode(CodesOf, input.attempts, code)
    || (code == CaseCoverageIncomplete && |input.attempts| != input.iterations * 7)
    || GroupRaises(input.attempts, input.iterations, code)
  }

  datatype ReportStatus = AllPassed | SomeFailed | Inconclusive

  datatype Report = Report(codes: set<Code>, status: ReportStatus)

  predicate Incomplete(input: Input) {
    input.profile == Qualification && (!input.metrics || input.iterations < MINIMUM_ITERATIONS || !input.source)
  }

  function StatusOf(input: Input, codes: set<Code>): ReportStatus {
    if exists code | code in codes :: !IsSoft(code) then SomeFailed
    else if Incomplete(input) then Inconclusive
    else AllPassed
  }

  /** buildRuntimeFaultSoakReport, as far as its codes and its status go. */
  method BuildReport(input: Input) returns (r: Option<Report>)
    ensures r.Some? <==> input.iterations > 0 && input.perCase > 0
    ensures r.Some? ==> (forall code :: code in r.value.codes <==> Raised(input, code))
                        && r.value.status == StatusOf(input, r.value.codes)
  {
    if input.iterations <= 0 || input.perCase <= 0 {
      return None;
    }
    var codes, grouped := Collect(CodesOf, input.attempts);
    if |input.attempts| != input.iterations * 7 {
      codes := codes + {CaseCoverageIncomplete};
    }
    codes := AddGroups(grouped, input.attempts, input.iterations, codes);
    codes := codes + RunCodes(input);
    return Some(Report(codes, StatusOf(input, codes)));
  }

  /** The loop over the attempts: what each raises, and its iteration filed under its case. */
  method Collect(raise: Attempt -> set<Code>, attempts: seq<Attempt>)
        returns (codes: set<Code>, grouped: map<Case, seq<int>>)
    ensures forall c: Case :: c in grouped && grouped[c] == IterationsOf(attempts, c)
    ensures forall code :: code in codes <==> OwnCode(raise, attempts, code)
  {
    codes := {};
    grouped := map c: Case | c in PROBES :: [];
    ProbesAreComplete();
    var n := |attempts|;
    for k := 0 to n
      invariant forall c: Case :: c in grouped && grouped[c] == IterationsOf(attempts[..k], c)
      invariant forall code :: code in codes <==> OwnCode(raise, attempts[..k], code)
    {
      var a := attempts[k];
      OneMore(raise, attempts, k);
      grouped := grouped[a.caseId := grouped[a.caseId] + [a.iteration]];
      codes := codes + raise(a);
    }
    assert attempts[..n] == attempts;
  }

  lemma OneMore(raise: Attempt -> set<Code>, attempts: seq<Attempt>, k: nat)
    requires k < |attempts|
    ensures forall code :: OwnCode(raise, attempts[..k + 1], code) <==>
            OwnCode(raise, attempts[..k], code) || code in raise(attempts[k])
    ensures forall c: Case :: IterationsOf(attempts[..k + 1], c) ==
                              IterationsOf(attempts[..k], c) + if attempts[k].caseId == c then [attempts[k].iteration]
                                else []
  {
    var front := attempts[..k];
    assert attempts[..k + 1] == front + [attempts[k]];
    assert attempts[..k + 1][..k] == front;
    forall code
      ensures OwnCode(raise, front + [attempts[k]], code) <==> OwnCode(raise, front, code) || code in raise(attempts[k])
    {
      assert forall a :: a in front + [attempts[k]] <==> a in front || a == attempts[k];
    }
  }

  /** The group of the code's case raises it. */
  predicate GroupRaises(attempts: seq<Attempt>, iterations: int, code: Code) {
    code.ForCase? && code in CodesOfGroup(code.id, IterationsOf(attempts, code.id), iterations)
  }

  lemma GroupRaisesExactly(attempts: seq<Attempt>, iterations: int, k: nat, code: Code)
    requires k < 7
    ensures code in CodesOfGroup(PROBES[k], IterationsOf(attempts, PROBES[k]), iterations) <==>
            GroupRaises(attempts, iterations, code) && Place(code.id) == k
  {
    GroupCodesAreCoverage(PROBES[k], IterationsOf(attempts, PROBES[k]), iterations, code);
    if code.ForCase? {
      PlaceIsUnique(code.id, k);
    }
  }

  method AddGroups(grouped: map<Case, seq<int>>, attempts: seq<Attempt>, iterations: int, before: set<Code>)
        returns (codes: set<Code>)
    requires forall c: Case :: c in grouped && grouped[c] == IterationsOf(attempts, c)
    ensures forall code :: code in codes <==> code in before || GroupRaises(attempts, iterations, code)
  {
    codes := before;
    for k := 0 to |PROBES|
      invariant forall code :: code in codes <==>
                code in before || (GroupRaises(attempts, iterations, code) && Place(code.id) < k)
    {
      ghost var so := codes;
      var more := CodesOfGroup(PROBES[k], grouped[PROBES[k]], iterations);
      codes := codes + more;
      forall code
        ensures code in codes <==> code in before || (GroupRaises(attempts, iterations, code) && Place(code.id) < k + 1)
      {
        GroupRaisesExactly(attempts, iterations, k, code);
        assert code in codes <==> code in so || code in more;
      }
    }
  }

  // ---------------------------------------------------------------- what the codes and the status mean

  /** The attempt's own failure text is one the report uses for its coverage. */
  predicate NamesCoverage(a: Attempt) {
    a.status != Passed && a.failure.Some? && IsCoverage(a.failure.value)
  }

  ghost predicate NoCoverageCode(input: Input) {
    forall code | IsCoverage(code) :: !Raised(input, code)
  }

  lemma OwnCoverage(a: Attempt, code: Code)
    requires IsCoverage(code)
    ensures code in CodesOf(a) <==> NamesCoverage(a) && a.failure.value == code
  {
  }

  lemma RunCodesAreOther(input: Input, code: Code)
    requires IsCoverage(code)
    ensures code !in RunCodes(input)
  {
  }

  lemma GroupCodesAreCoverage(c: Case, group: seq<int>, iterations: int, code: Code)
    ensures code in CodesOfGroup(c, group, iterations) ==> IsCoverage(code) && code.ForCase? && code.id == c
  {
    FlagsAreCoverage(c, |group| != iterations, |Elements(group)| != |group|, !IsRange(Elements(group), iterations),
      code);
  }

  lemma NoCoverageMeansCovered(input: Input)
    requires input.iterations > 0 && NoCoverageCode(input)
    ensures IsCovered(input.attempts, input.iterations)
  {
    assert IsCoverage(CaseCoverageIncomplete) && !Raised(input, CaseCoverageIncomplete);
    forall c: Case
      ensures CodesOfGroup(c, IterationsOf(input.attempts, c), input.iterations) == {}
    {
      var codes := CodesOfGroup(c, IterationsOf(input.attempts, c), input.iterations);
      forall code
        ensures code !in codes
      {
        GroupCodesAreCoverage(c, IterationsOf(input.attempts, c), input.iterations, code);
        assert !IsCoverage(code) || !Raised(input, code);
      }
    }
  }

  /** A report without coverage codes has one attempt for every case and iteration and no other; and such a report
      carries a coverage code only if a failed attempt brought the text along. */
  lemma CoverageCodesAreExact(input: Input)
    requires input.iterations > 0
    ensures NoCoverageCode(input) <==>
            Covers(input.attempts, input.iterations) && forall a | a in input.attempts :: !NamesCoverage(a)
  {
    CoveredIffCovers(input.attempts, input.iterations);
    if NoCoverageCode(input) {
      NoCoverageMeansCovered(input);
      forall a | a in input.attempts
        ensures !NamesCoverage(a)
      {
        if NamesCoverage(a) {
          OwnCoverage(a, a.failure.value);
          assert OwnCode(CodesOf, input.attempts, a.failure.value);
        }
      }
    }
    if IsCovered(input.attempts, input.iterations) && forall a | a in input.attempts :: !NamesCoverage(a) {
      forall code | IsCoverage(code)
        ensures !Raised(input, code)
      {
        RunCodesAreOther(input, code);
        forall a | a in input.attempts
          ensures code !in CodesOf(a)
        {
          OwnCoverage(a, code);
        }
      }
    }
  }

  /** An attempt that passed with everything it has to show. */
  predicate IsClean(a: Attempt) {
    a.status == Passed && HasEvidence(a)
  }

  predicate HasEvidence(a: Attempt) {
    Suffices(a.caseId, a.evidence)
  }

  /** The evidence a case has to show: an asserted invariant, every required outcome, and a clean end. */
  predicate Suffices(c: Case, e: Evidence) {
    && e.invariants > 0 && e.cleanup.confirmed
    && (e.cleanup.orphanWorktrees.Some? ==> e.cleanup.orphanWorktrees.value == 0)
    && e.cleanup.residualPaths == 0
    && forall name | name in Required(c) :: Asserted(e.terminals, name) > 0
  }

  /** An attempt that did not pass, whose failure text is one of those that only make a report inconclusive. */
  predicate HidesFailure(a: Attempt) {
    a.status != Passed && a.failure.Some? && IsSoft(a.failure.value) && HasEvidence(a)
  }

  predicate Tolerated(a: Attempt) {
    forall code | code in CodesOf(a) :: IsSoft(code)
  }

  lemma ToleratedIsCleanOrHidden(a: Attempt)
    ensures Tolerated(a) <==> IsClean(a) || HidesFailure(a)
  {
    var codes := CodesOf(a);
    if Tolerated(a) {
      assert ForCase(a.caseId, StateInvariant) !in codes;
      assert ForCase(a.caseId, CleanupUnconfirmed) !in codes;
      assert ForCase(a.caseId, OrphanWorktree) !in codes;
      assert ForCase(a.caseId, ResidualPath) !in codes;
      forall name | name in Required(a.caseId)
        ensures Asserted(a.evidence.terminals, name) > 0
      {
        assert ForCase(a.caseId, TerminalAssertionMissing(name)) !in codes;
      }
      assert a.status != Passed ==> (if a.failure.Some? then a.failure.value else OfStatus(a.status)) in codes;
    }
  }

  predicate WithinLimits(input: Input) {
    && input.wallTime <= input.iterations * 7 * input.perCase
    && !Incomplete(input) && (input.profile == Qualification ==> input.growth == {})
  }

  ghost predicate OnlySoft(input: Input) {
    forall code | Raised(input, code) :: IsSoft(code)
  }

  lemma OnlySoftExactly(input: Input)
    requires input.iterations > 0 && !Incomplete(input)
    ensures OnlySoft(input) <==>
            && WithinLimits(input) && IsCovered(input.attempts, input.iterations)
            && forall a | a in input.attempts :: Tolerated(a)
  {
    if OnlySoft(input) {
      assert NoCoverageCode(input);
      NoCoverageMeansCovered(input);
      assert !Raised(input, GlobalDeadlineExceeded);
      if input.profile == Qualification {
        assert forall g | g in input.growth :: Raised(input, ForCase(g.0, ResourceGrowth(g.1)));
      }
      forall a, code | a in input.attempts && code in CodesOf(a)
        ensures IsSoft(code)
      {
        assert OwnCode(CodesOf, input.attempts, code);
      }
    }
  }

  /** A report passes exactly when it covers every case and iteration, keeps its limits, and every attempt is clean
      or hides its failure behind a text that counts as inconclusive. */
  lemma PassedExactly(input: Input, codes: set<Code>)
    requires input.iterations > 0 && forall code :: code in codes <==> Raised(input, code)
    ensures StatusOf(input, codes) == AllPassed <==>
            && WithinLimits(input) && Covers(input.attempts, input.iterations)
            && forall a | a in input.attempts :: IsClean(a) || HidesFailure(a)
  {
    CoveredIffCovers(input.attempts, input.iterations);
    if !Incomplete(input) {
      OnlySoftExactly(input);
    }
    forall a: Attempt
      ensures Tolerated(a) <==> IsClean(a) || HidesFailure(a)
    {
      ToleratedIsCleanOrHidden(a);
    }
    assert (exists code | code in codes :: !IsSoft(code)) <==> !OnlySoft(input);
  }

  /** The runner's own attempts never hide a failure nor name a coverage code. */
  lemma RunnerSpeaksPlainly(c: Case, iteration: int, granted: Option<int>, turn: Turn)
    ensures !HidesFailure(AttemptOf(c, iteration, granted, turn))
            && !NamesCoverage(AttemptOf(c, iteration, granted, turn))
  {
  }

  /** The report of a completed run never carries a coverage code, and passes exactly when it keeps its limits and
      every attempt is clean. */
  lemma ReportOfRun(o: Options, world: World, start: int, input: Input, codes: set<Code>)
    requires o.iterations > 0 && |input.attempts| == Slots(o)
             && AllBelong(o, Rotation(o.seed), world, start, input.attempts)
    requires input.iterations == o.iterations && forall code :: code in codes <==> Raised(input, code)
    ensures forall code | code in codes :: !IsCoverage(code)
    ensures StatusOf(input, codes) == AllPassed <==> WithinLimits(input) && forall a | a in input.attempts :: IsClean(a)
  {
    var order := Rotation(o.seed);
    EveryRotationCovers(o.seed);
    RunCovers(o, order, world, start, input.attempts);
    forall a | a in input.attempts
      ensures !HidesFailure(a) && !NamesCoverage(a)
    {
      var k :| 0 <= k < |input.attempts| && input.attempts[k] == a;
      PlainSlot(o, order, world, start, input.attempts, k);
    }
    CoverageCodesAreExact(input);
    PassedExactly(input, codes);
  }

  lemma PlainSlot(o: Options, order: Order, world: World, start: int, attempts: seq<Attempt>, k: nat)
    requires AllBelong(o, order, world, start, attempts) && k < |attempts|
    ensures !HidesFailure(attempts[k]) && !NamesCoverage(attempts[k])
  {
    assert Belongs(o, order, world, start, attempts, k);
    RunnerSpeaksPlainly(order(k / 7 + 1)[k % 7], k / 7 + 1, Granted(o, world, start, k), world(k));
  }

  /** The probe was given time, exited with 0 and showed its evidence. */
  predicate ProbePasses(c: Case, granted: Option<int>, turn: Turn) {
    granted.Some? && turn.outcome.Exited? && turn.outcome.code == 0 && Suffices(c, turn.outcome.evidence)
  }

  lemma CleanMeansPassed(c: Case, iteration: int, granted: Option<int>, turn: Turn)
    ensures IsClean(AttemptOf(c, iteration, granted, turn)) <==> ProbePasses(c, granted, turn)
  {
  }

  predicate SlotPasses(o: Options, order: Order, world: World, start: int, k: nat) {
    k % 7 < |order(k / 7 + 1)| && ProbePasses(order(k / 7 + 1)[k % 7], Granted(o, world, start, k), world(k))
  }

  lemma SlotIsClean(o: Options, order: Order, world: World, start: int, attempts: seq<Attempt>, k: nat)
    requires AllBelong(o, order, world, start, attempts) && k < |attempts|
    ensures IsClean(attempts[k]) <==> SlotPasses(o, order, world, start, k)
  {
    assert Belongs(o, order, world, start, attempts, k);
    CleanMeansPassed(order(k / 7 + 1)[k % 7], k / 7 + 1, Granted(o, world, start, k), world(k));
  }

  /** From the runner to the verdict: the report of a run passes exactly when it keeps its limits and every probe of
      every iteration was given time, exited with 0 and showed its evidence. */
  lemma PassingRun(o: Options, world: World, start: int, input: Input, codes: set<Code>)
    requires o.iterations > 0 && |input.attempts| == Slots(o)
             && AllBelong(o, Rotation(o.seed), world, start, input.attempts)
    requires input.iterations == o.iterations && forall code :: code in codes <==> Raised(input, code)
    ensures StatusOf(input, codes) == AllPassed <==>
            WithinLimits(input) && forall k: nat | k < Slots(o) :: SlotPasses(o, Rotation(o.seed), world, start, k)
  {
    ReportOfRun(o, world, start, input, codes);
    var order, attempts := Rotation(o.seed), input.attempts;
    forall k: nat | k < Slots(o)
      ensures IsClean(attempts[k]) <==> SlotPasses(o, order, world, start, k)
    {
      SlotIsClean(o, order, world, start, attempts, k);
    }
    if forall k: nat | k < Slots(o) :: SlotPasses(o, order, world, start, k) {
      forall a | a in attempts
        ensures IsClean(a)
      {
        var k :| 0 <= k < |attempts| && attempts[k] == a;
      }
    }
    if forall a | a in attempts :: IsClean(a) {
      forall k: nat | k < Slots(o)
        ensures SlotPasses(o, order, world, start, k)
      {
        assert attempts[k] in attempts;
      }
    }
  }

  /** The builder takes attempts from any caller: a failed one with such a text, and evidence, makes a passing
      report. */
  lemma HiddenFailurePasses(input: Input, codes: set<Code>, k: nat)
    requires input.iterations > 0 && (forall code :: code in codes <==> Raised(input, code)) && k < |input.attempts|
    requires StatusOf(input, codes) == AllPassed
    ensures var a := input.attempts[k].(status := Failed, failure := Some(MetricsUnsupported));
            var forged := input.(attempts := input.attempts[k := a]);
            forall codes' | (forall code :: code in codes' <==> Raised(forged, code)) ::
              StatusOf(forged, codes') == AllPassed
  {
    PassedExactly(input, codes);
    var old' := input.attempts;
    var a := old'[k].(status := Failed, failure := Some(MetricsUnsupported));
    var forged := input.(attempts := old'[k := a]);
    SameCoverage(old', forged.attempts, input.iterations);
    forall b | b in forged.attempts
      ensures IsClean(b) || HidesFailure(b)
    {
      var i :| 0 <= i < |forged.attempts| && forged.attempts[i] == b;
      assert old'[i] in old' && (IsClean(old'[i]) || HidesFailure(old'[i]));
    }
    forall codes' | forall code :: code in codes' <==> Raised(forged, code)
      ensures StatusOf(forged, codes') == AllPassed
    {
      PassedExactly(forged, codes');
    }
  }

  lemma SameCoverage(a: seq<Attempt>, b: seq<Attempt>, n: nat)
    requires |a| == |b| && forall k | 0 <= k < |a| :: a[k].caseId == b[k].caseId && a[k].iteration == b[k].iteration
    requires Covers(a, n)
    ensures Covers(b, n)
  {
    forall c: Case, i: int | 1 <= i <= n
      ensures Attempted(b, c, i)
    {
      assert Attempted(a, c, i);
      var k :| 0 <= k < |a| && IsFor(a[k], c, i);
      assert IsFor(b[k], c, i);
    }
    forall j, k | 0 <= j < k < |b|
      ensures !IsFor(b[j], b[k].caseId, b[k].iteration)
    {
      assert !IsFor(a[j], a[k].caseId, a[k].iteration);
    }
  }
}
