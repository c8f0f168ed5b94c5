/** The hash-chained sample ledger of scripts/operations/limited-slo-ledger.ts and the observation rebuilt from it. */
module SloLedger {
  import opened Basics

  type Digest = string

  const MAX_RETAINED_SAMPLES := 10_000

  datatype AdmissionMaterial = AdmissionMaterial(
    sequence: int,
    admissionId: string,
    previous: Option<Digest>,
    admittedAt: int,
    consent: Digest)

  datatype Admission = Admission(material: AdmissionMaterial, digest: Digest)

  datatype G0 = G0(
    unauthorizedSideEffects: nat,
    secretOrContentEgress: nat,
    sandboxOrWorkspaceEscape: nat,
    runtimeStateCorruption: nat,
    requiredVerificationBypass: nat)

  datatype Sample = Sample(
    checksPassed: bool,
    humanAccepted: bool,
    recoveryRequired: bool,
    recoverySucceeded: bool,
    unrelatedDiff: bool,
    falseCompletion: bool,
    integrated: bool,
    reverted: bool,
    g0: G0,
    g1Failures: nat)

  datatype TerminalMaterial = TerminalMaterial(
    sequence: int,
    receiptId: string,
    admissionId: string,
    admissionDigest: Digest,
    previous: Option<Digest>,
    finalizedAt: int,
    outcome: Digest,
    sample: Sample)

  datatype Terminal = Terminal(material: TerminalMaterial, digest: Digest)

  /** What ties the workflow run to the released artifact. */
  datatype Binding = Binding(repository: string, repositoryId: string, headSha: string, workflowSha: string,
                             artifactDigest: Digest, attestation: Digest)

  datatype Artifact = Artifact(repository: string, repositoryId: string, commit: string, payload: Digest)

  datatype LedgerMaterial = LedgerMaterial(
    artifact: Artifact,
    source: Binding,
    startedAt: int,
    endedAt: int,
    admissions: seq<Admission>,
    terminals: seq<Terminal>)

  datatype Ledger = Ledger(material: LedgerMaterial, digest: Digest)

  datatype Hashes = Hashes(
    admission: AdmissionMaterial -> Digest,
    terminal: TerminalMaterial -> Digest,
    ledger: LedgerMaterial -> Digest)

  // ---------------------------------------------------------------- what an accepted ledger is

  /** The rules of the terminal receipt schema. */
  predicate IsSample(s: Sample) {
    (s.recoverySucceeded ==> s.recoveryRequired) && (s.reverted ==> s.integrated)
  }

  predicate IsWellFormed(m: LedgerMaterial) {
    && |m.admissions| <= MAX_RETAINED_SAMPLES && |m.terminals| <= MAX_RETAINED_SAMPLES
    && (forall a | a in m.admissions :: 0 < a.material.sequence <= MAX_RETAINED_SAMPLES)
    && (forall t | t in m.terminals :: 0 < t.material.sequence <= MAX_RETAINED_SAMPLES && IsSample(t.material.sample))
  }

  predicate IsBound(m: LedgerMaterial) {
    && m.source.repository == m.artifact.repository && m.source.repositoryId == m.artifact.repositoryId
    && m.source.headSha == m.artifact.commit && m.source.workflowSha == m.artifact.commit
    && m.source.artifactDigest == m.artifact.payload && m.source.attestation == m.artifact.payload
  }

  /** The admission at `i` continues the chain before it. */
  predicate AdmissionFits(hash: AdmissionMaterial -> Digest, startedAt: int, admissions: seq<Admission>, i: nat)
    requires i < |admissions|
  {
    var a := admissions[i];
    && a.material.sequence == i + 1 && a.digest == hash(a.material)
    && a.material.previous == (if i == 0 then None else Some(admissions[i - 1].digest))
    && startedAt <= a.material.admittedAt && (i > 0 ==> admissions[i - 1].material.admittedAt <= a.material.admittedAt)
    && forall j | 0 <= j < i :: admissions[j].material.admissionId != a.material.admissionId
  }

  predicate Answers(t: Terminal, a: Admission) {
    && t.material.admissionId == a.material.admissionId && t.material.admissionDigest == a.digest
    && a.material.admittedAt <= t.material.finalizedAt
  }

  predicate TerminalFits(hash: TerminalMaterial -> Digest, endedAt: int, admissions: seq<Admission>,
                         terminals: seq<Terminal>, i: nat)
    requires i < |terminals|
  {
    var t := terminals[i];
    && t.material.sequence == i + 1 && t.digest == hash(t.material)
    && t.material.previous == (if i == 0 then None else Some(terminals[i - 1].digest))
    && Names(t, admissions)
    && t.material.finalizedAt <= endedAt && (i > 0 ==> terminals[i - 1].material.finalizedAt <= t.material.finalizedAt)
    && forall j | 0 <= j < i ::
         terminals[j].material.receiptId != t.material.receiptId
           && terminals[j].material.admissionId != t.material.admissionId
  }

  predicate IsAdmissionChain(hash: AdmissionMaterial -> Digest, startedAt: int, admissions: seq<Admission>) {
    forall i | 0 <= i < |admissions| :: AdmissionFits(hash, startedAt, admissions, i)
  }

  predicate IsTerminalChain(hash: TerminalMaterial -> Digest, endedAt: int, admissions: seq<Admission>,
                            terminals: seq<Terminal>) {
    forall i | 0 <= i < |terminals| :: TerminalFits(hash, endedAt, admissions, terminals, i)
  }

  predicate IsLedger(h: Hashes, ledger: Ledger) {
    var m := ledger.material;
    && IsWellFormed(m) && m.startedAt <= m.endedAt && IsBound(m)
    && IsAdmissionChain(h.admission, m.startedAt, m.admissions)
    && IsTerminalChain(h.terminal, m.endedAt, m.admissions, m.terminals)
    && |m.terminals| == |m.admissions|
    && ledger.digest == h.ledger(m)
  }

  // ---------------------------------------------------------------- identities

  function IdsOf(admissions: seq<Admission>): set<string> { set a | a in admissions :: a.material.admissionId }

  function AnsweredBy(terminals: seq<Terminal>): set<string> { set t | t in terminals :: t.material.admissionId }

  function ReceiptsOf(terminals: seq<Terminal>): set<string> { set t | t in terminals :: t.material.receiptId }

  predicate DistinctIds(admissions: seq<Admission>) {
    forall i, j | 0 <= i < j < |admissions| :: admissions[i].material.admissionId != admissions[j].material.admissionId
  }

  predicate DistinctAnswers(terminals: seq<Terminal>) {
    forall i, j | 0 <= i < j < |terminals| :: terminals[i].material.admissionId != terminals[j].material.admissionId
  }

  lemma IdsMore(admissions: seq<Admission>, n: nat)
    requires n < |admissions|
    ensures IdsOf(admissions[..n + 1]) == IdsOf(admissions[..n]) + {admissions[n].material.admissionId}
    ensures admissions[n].material.admissionId in IdsOf(admissions[..n]) <==>
            exists j :: 0 <= j < n && admissions[j].material.admissionId == admissions[n].material.admissionId
  {
    assert admissions[..n + 1] == admissions[..n] + [admissions[n]];
    assert forall j | 0 <= j < n :: admissions[j] == admissions[..n][j];
  }

  lemma AnsweredMore(terminals: seq<Terminal>, n: nat)
    requires n < |terminals|
    ensures AnsweredBy(terminals[..n + 1]) == AnsweredBy(terminals[..n]) + {terminals[n].material.admissionId}
    ensures terminals[n].material.admissionId in AnsweredBy(terminals[..n]) <==>
            exists j :: 0 <= j < n && terminals[j].material.admissionId == terminals[n].material.admissionId
  {
    assert terminals[..n + 1] == terminals[..n] + [terminals[n]];
    assert forall j | 0 <= j < n :: terminals[j] == terminals[..n][j];
  }

  lemma ReceiptsMore(terminals: seq<Terminal>, n: nat)
    requires n < |terminals|
    ensures ReceiptsOf(terminals[..n + 1]) == ReceiptsOf(terminals[..n]) + {terminals[n].material.receiptId}
    ensures terminals[n].material.receiptId in ReceiptsOf(terminals[..n]) <==>
            exists j :: 0 <= j < n && terminals[j].material.receiptId == terminals[n].material.receiptId
  {
    assert terminals[..n + 1] == terminals[..n] + [terminals[n]];
    assert forall j | 0 <= j < n :: terminals[j] == terminals[..n][j];
  }

  lemma {:induction false} IdsCount(admissions: seq<Admission>)
    requires DistinctIds(admissions)
    ensures |IdsOf(admissions)| == |admissions|
    decreases |admissions|
  {
    if admissions == [] {
      assert IdsOf(admissions) == {};
    } else {
      var n := |admissions| - 1;
      IdsCount(admissions[..n]);
      IdsMore(admissions, n);
      assert admissions[..n + 1] == admissions;
    }
  }

  lemma {:induction false} AnswersCount(terminals: seq<Terminal>)
    requires DistinctAnswers(terminals)
    ensures |AnsweredBy(terminals)| == |terminals|
    decreases |terminals|
  {
    if terminals == [] {
      assert AnsweredBy(terminals) == {};
    } else {
      var n := |terminals| - 1;
      AnswersCount(terminals[..n]);
      AnsweredMore(terminals, n);
      assert terminals[..n + 1] == terminals;
    }
  }

  lemma SameIdSameAdmission(admissions: seq<Admission>, a: Admission, b: Admission)
    requires DistinctIds(admissions) && a in admissions && b in admissions
             && a.material.admissionId == b.material.admissionId
    ensures a == b
  {
    var i :| 0 <= i < |admissions| && admissions[i] == a;
    var j :| 0 <= j < |admissions| && admissions[j] == b;
  }

  lemma ChainHasDistinctIds(hash: AdmissionMaterial -> Digest, startedAt: int, admissions: seq<Admission>)
    requires IsAdmissionChain(hash, startedAt, admissions)
    ensures DistinctIds(admissions)
  {
    forall i, j | 0 <= i < j < |admissions|
      ensures admissions[i].material.admissionId != admissions[j].material.admissionId
    {
      assert AdmissionFits(hash, startedAt, admissions, j);
    }
  }

  predicate Names(t: Terminal, admissions: seq<Admission>) {
    exists a | a in admissions :: Answers(t, a)
  }

  predicate IsAnswered(a: Admission, terminals: seq<Terminal>) {
    exists t | t in terminals :: Answers(t, a)
  }

  lemma ReceiptsAreDistinct(hash: TerminalMaterial -> Digest, endedAt: int, admissions: seq<Admission>,
                            terminals: seq<Terminal>)
    requires IsTerminalChain(hash, endedAt, admissions, terminals)
    ensures DistinctAnswers(terminals)
    ensures forall t | t in terminals :: t.material.finalizedAt <= endedAt && Names(t, admissions)
  {
    forall i, j | 0 <= i < j < |terminals|
      ensures terminals[i].material.admissionId != terminals[j].material.admissionId
    {
      assert TerminalFits(hash, endedAt, admissions, terminals, j);
    }
    forall t | t in terminals
      ensures t.material.finalizedAt <= endedAt && Names(t, admissions)
    {
      var i :| 0 <= i < |terminals| && terminals[i] == t;
      assert TerminalFits(hash, endedAt, admissions, terminals, i);
    }
  }

  // ---------------------------------------------------------------- the loops of the verification

  /** The admissions by their identity. */
  ghost predicate Indexes(admissions: seq<Admission>, byId: map<string, Admission>) {
    byId.Keys == IdsOf(admissions) && forall id | id in byId ::
      byId[id].material.admissionId == id && byId[id] in admissions
  }

  /** The checks on one admission, given what the loop carries. */
  predicate TakesAdmission(hash: AdmissionMaterial -> Digest, startedAt: int, a: Admission, i: nat, seen: set<string>,
                           previous: Option<Digest>, previousAt: Option<int>)
  {
    && a.material.sequence == i + 1 && a.material.previous == previous && a.material.admissionId !in seen
    && a.digest == hash(a.material) && a.material.admittedAt >= startedAt
    && (previousAt.Some? ==> a.material.admittedAt >= previousAt.value)
  }

  method VerifyAdmissions(hash: AdmissionMaterial -> Digest, startedAt: int, admissions: seq<Admission>)
      returns (ok: bool, byId: map<string, Admission>)
    ensures ok <==> IsAdmissionChain(hash, startedAt, admissions)
    ensures ok ==> Indexes(admissions, byId)
  {
    byId := map[];
    var previous: Option<Digest> := None;
    var previousAt: Option<int> := None;
    for i := 0 to |admissions|
      invariant forall j | 0 <= j < i :: AdmissionFits(hash, startedAt, admissions, j)
      invariant Indexes(admissions[..i], byId)
      invariant previous == if i == 0 then None else Some(admissions[i - 1].digest)
      invariant previousAt == if i == 0 then None else Some(admissions[i - 1].material.admittedAt)
    {
      var a := admissions[i];
      IdsMore(admissions, i);
      if !TakesAdmission(hash, startedAt, a, i, byId.Keys, previous, previousAt) {
        assert !AdmissionFits(hash, startedAt, admissions, i);
        return false, byId;
      }
      assert admissions[..i + 1] == admissions[..i] + [a];
      byId := byId[a.material.admissionId := a];
      previous := Some(a.digest);
      previousAt := Some(a.material.admittedAt);
    }
    assert admissions[..|admissions|] == admissions;
    return true, byId;
  }

  /** Whether the receipt names an admission it may answer. */
  lemma LooksUp(admissions: seq<Admission>, byId: map<string, Admission>, t: Terminal)
    requires Indexes(admissions, byId) && DistinctIds(admissions)
    ensures Names(t, admissions) <==> t.material.admissionId in byId && Answers(t, byId[t.material.admissionId])
  {
    if a :| a in admissions && Answers(t, a) {
      assert a.material.admissionId in IdsOf(admissions);
      SameIdSameAdmission(admissions, a, byId[t.material.admissionId]);
    }
  }

  /** The checks on one receipt, given what the loop carries. */
  predicate TakesTerminal(hash: TerminalMaterial -> Digest, endedAt: int, byId: map<string, Admission>,
                          t: Terminal, i: nat, receipts: set<string>, answered: set<string>,
                          previous: Option<Digest>, previousAt: Option<int>)
  {
    && t.material.sequence == i + 1 && t.material.previous == previous && t.material.receiptId !in receipts
    && t.material.admissionId in byId && Answers(t, byId[t.material.admissionId]) && t.material.admissionId !in answered
    && t.digest == hash(t.material) && t.material.finalizedAt <= endedAt
    && (previousAt.Some? ==> t.material.finalizedAt >= previousAt.value)
  }

  lemma TakesExactly(hash: TerminalMaterial -> Digest, endedAt: int, admissions: seq<Admission>,
                     byId: map<string, Admission>, terminals: seq<Terminal>, i: nat)
    requires Indexes(admissions, byId) && DistinctIds(admissions) && i < |terminals|
    ensures TerminalFits(hash, endedAt, admissions, terminals, i) <==>
            TakesTerminal(hash, endedAt, byId, terminals[i], i, ReceiptsOf(terminals[..i]), AnsweredBy(terminals[..i]),
                          if i == 0 then None else Some(terminals[i - 1].digest),
                          if i == 0 then None else Some(terminals[i - 1].material.finalizedAt))
  {
    LooksUp(admissions, byId, terminals[i]);
    AnsweredMore(terminals, i);
    ReceiptsMore(terminals, i);
  }

  method VerifyTerminals(hash: TerminalMaterial -> Digest, endedAt: int, ghost admissions: seq<Admission>,
                         byId: map<string, Admission>, terminals: seq<Terminal>)
      returns (ok: bool, answered: set<string>)
    requires Indexes(admissions, byId) && DistinctIds(admissions)
    ensures ok <==> IsTerminalChain(hash, endedAt, admissions, terminals)
    ensures ok ==> answered == AnsweredBy(terminals)
  {
    answered := {};
    var receipts: set<string> := {};
    var previous: Option<Digest> := None;
    var previousAt: Option<int> := None;
    for i := 0 to |terminals|
      invariant forall j | 0 <= j < i :: TerminalFits(hash, endedAt, admissions, terminals, j)
      invariant receipts == ReceiptsOf(terminals[..i]) && answered == AnsweredBy(terminals[..i])
      invariant previous == if i == 0 then None else Some(terminals[i - 1].digest)
      invariant previousAt == if i == 0 then None else Some(terminals[i - 1].material.finalizedAt)
    {
      var t := terminals[i];
      TakesExactly(hash, endedAt, admissions, byId, terminals, i);
      if !TakesTerminal(hash, endedAt, byId, t, i, receipts, answered, previous, previousAt) {
        return false, answered;
      }
      AnsweredMore(terminals, i);
      ReceiptsMore(terminals, i);
      receipts := receipts + {t.material.receiptId};
      answered := answered + {t.material.admissionId};
      previous := Some(t.digest);
      previousAt := Some(t.material.finalizedAt);
    }
    assert terminals[..|terminals|] == terminals;
    return true, answered;
  }

  /** verifyLimitedSloSampleLedger accepts exactly the ledgers. */
  method VerifyLimitedSloSampleLedger(h: Hashes, ledger: Ledger) returns (ok: bool)
    ensures ok <==> IsLedger(h, ledger)
  {
    var m := ledger.material;
    if !IsWellFormed(m) || m.endedAt < m.startedAt || !IsBound(m) {
      return false;
    }
    var chained, byId := VerifyAdmissions(h.admission, m.startedAt, m.admissions);
    if !chained {
      return false;
    }
    ChainHasDistinctIds(h.admission, m.startedAt, m.admissions);
    var settled, answered := VerifyTerminals(h.terminal, m.endedAt, m.admissions, byId, m.terminals);
    if !settled {
      return false;
    }
    ReceiptsAreDistinct(h.terminal, m.endedAt, m.admissions, m.terminals);
    IdsCount(m.admissions);
    AnswersCount(m.terminals);
    return |answered| == |byId.Keys| && ledger.digest == h.ledger(m);
  }

  // ---------------------------------------------------------------- receipts and admissions

  /** Every admission has a receipt and every receipt an admission, and no two share one. */
  predicate InBijection(admissions: seq<Admission>, terminals: seq<Terminal>) {
    && |admissions| == |terminals| && DistinctIds(admissions) && DistinctAnswers(terminals)
    && (forall a | a in admissions :: IsAnswered(a, terminals))
    && (forall t | t in terminals :: Names(t, admissions))
  }

  lemma AllAnswered(admissions: seq<Admission>, terminals: seq<Terminal>)
    requires |admissions| == |terminals| && DistinctIds(admissions) && DistinctAnswers(terminals)
    requires forall t | t in terminals :: Names(t, admissions)
    ensures InBijection(admissions, terminals)
  {
    IdsCount(admissions);
    AnswersCount(terminals);
    SubsetOfSameSize(AnsweredBy(terminals), IdsOf(admissions));
    forall a | a in admissions
      ensures IsAnswered(a, terminals)
    {
      assert a.material.admissionId in AnsweredBy(terminals);
      var t :| t in terminals && t.material.admissionId == a.material.admissionId;
      assert Names(t, admissions);
      var b :| b in admissions && Answers(t, b);
      SameIdSameAdmission(admissions, a, b);
    }
  }

  /** In an accepted ledger receipts and admissions are in bijection. */
  lemma LedgerIsBijection(h: Hashes, ledger: Ledger)
    requires IsLedger(h, ledger)
    ensures InBijection(ledger.material.admissions, ledger.material.terminals)
  {
    var m := ledger.material;
    ChainHasDistinctIds(h.admission, m.startedAt, m.admissions);
    ReceiptsAreDistinct(h.terminal, m.endedAt, m.admissions, m.terminals);
    AllAnswered(m.admissions, m.terminals);
  }

  /** Every admission lies inside the observation window, although only its lower end is compared with it. */
  lemma AdmissionsAreInside(h: Hashes, ledger: Ledger, a: Admission)
    requires IsLedger(h, ledger) && a in ledger.material.admissions
    ensures ledger.material.startedAt <= a.material.admittedAt <= ledger.material.endedAt
  {
    var m := ledger.material;
    LedgerIsBijection(h, ledger);
    ReceiptsAreDistinct(h.terminal, m.endedAt, m.admissions, m.terminals);
    assert IsAnswered(a, m.terminals);
    var i :| 0 <= i < |m.admissions| && m.admissions[i] == a;
    assert AdmissionFits(h.admission, m.startedAt, m.admissions, i);
  }

  // ---------------------------------------------------------------- the chains pin their contents

  ghost predicate Injective<M(!new)>(hash: M -> Digest) {
    forall a, b | hash(a) == hash(b) :: a == b
  }

  /** The admission digest at `i` of one chain pins everything before it: if it appears in another chain, it appears
      at the same place and both chains agree up to there. */
  lemma {:induction false} AdmissionDigestPinsPrefix(hash: AdmissionMaterial -> Digest, s: int, a: seq<Admission>,
                                                     i: nat, t: int, b: seq<Admission>, j: nat)
    requires Injective(hash) && IsAdmissionChain(hash, s, a) && IsAdmissionChain(hash, t, b)
    requires i < |a| && j < |b| && a[i].digest == b[j].digest
    ensures i == j && a[..i + 1] == b[..i + 1]
    decreases i
  {
    assert AdmissionFits(hash, s, a, i) && AdmissionFits(hash, t, b, j);
    assert a[i] == b[j];
    if i > 0 {
      AdmissionDigestPinsPrefix(hash, s, a, i - 1, t, b, i - 1);
      assert a[..i + 1] == a[..i] + [a[i]] && b[..i + 1] == b[..i] + [b[i]];
    }
  }

  lemma {:induction false} TerminalDigestPinsPrefix(hash: TerminalMaterial -> Digest, s: int, x: seq<Admission>,
                                                    a: seq<Terminal>, i: nat,
                                 t: int, y: seq<Admission>, b: seq<Terminal>, j: nat)
    requires Injective(hash) && IsTerminalChain(hash, s, x, a) && IsTerminalChain(hash, t, y, b)
    requires i < |a| && j < |b| && a[i].digest == b[j].digest
    ensures i == j && a[..i + 1] == b[..i + 1]
    decreases i
  {
    assert TerminalFits(hash, s, x, a, i) && TerminalFits(hash, t, y, b, j);
    assert a[i] == b[j];
    if i > 0 {
      TerminalDigestPinsPrefix(hash, s, x, a, i - 1, t, y, b, i - 1);
      assert a[..i + 1] == a[..i] + [a[i]] && b[..i + 1] == b[..i] + [b[i]];
    }
  }

  lemma AgreeByDigest(hash: AdmissionMaterial -> Digest, s: int, a: seq<Admission>, t: int, b: seq<Admission>)
    requires Injective(hash) && IsAdmissionChain(hash, s, a) && IsAdmissionChain(hash, t, b)
    requires a != [] && b != [] && a[|a| - 1].digest == b[|b| - 1].digest
    ensures a == b
  {
    AdmissionDigestPinsPrefix(hash, s, a, |a| - 1, t, b, |b| - 1);
    assert a[..|a|] == a && b[..|b|] == b;
  }

  /** Accepted ledgers with the same last receipt have the same receipts and the same admissions. */
  lemma LastReceiptPinsSamples(h: Hashes, a: Ledger, b: Ledger)
    requires Injective(h.admission) && Injective(h.terminal) && IsLedger(h, a) && IsLedger(h, b)
    requires a.material.terminals != [] && b.material.terminals != []
    requires a.material.terminals[|a.material.terminals| - 1].digest ==
             b.material.terminals[|b.material.terminals| - 1].digest
    ensures a.material.terminals == b.material.terminals && a.material.admissions == b.material.admissions
  {
    var x, y := a.material, b.material;
    var n := |x.terminals|;
    TerminalDigestPinsPrefix(h.terminal, x.endedAt, x.admissions, x.terminals, n - 1, y.endedAt, y.admissions,
      y.terminals, |y.terminals| - 1);
    assert x.terminals[..n] == x.terminals && y.terminals[..n] == y.terminals;
    LedgerIsBijection(h, a);
    LedgerIsBijection(h, b);
    var j := SameReceiptSameAdmission(x.admissions, n - 1, y.admissions, x.terminals);
    AdmissionDigestPinsPrefix(h.admission, x.startedAt, x.admissions, n - 1, y.startedAt, y.admissions, j);
    assert x.admissions[..n] == x.admissions && y.admissions[..n] == y.admissions;
  }

  lemma SameReceiptSameAdmission(x: seq<Admission>, i: nat, y: seq<Admission>, terminals: seq<Terminal>)
        returns (j: nat)
    requires InBijection(x, terminals) && InBijection(y, terminals) && i < |x|
    ensures j < |y| && x[i].digest == y[j].digest
  {
    assert IsAnswered(x[i], terminals);
    var t :| t in terminals && Answers(t, x[i]);
    assert Names(t, y);
    var other :| other in y && Answers(t, other);
    j :| 0 <= j < |y| && y[j] == other;
  }

  // ---------------------------------------------------------------- the observation

  type Test = Sample -> bool

  predicate Passes(s: Sample) { s.checksPassed }
  predicate Burns(s: Sample) { !s.checksPassed }
  predicate Accepted(s: Sample) { s.humanAccepted }
  predicate NeedsRecovery(s: Sample) { s.recoveryRequired }
  predicate Recovers(s: Sample) { s.recoveryRequired && s.recoverySucceeded }
  predicate Strays(s: Sample) { s.unrelatedDiff }
  predicate FalselyCompletes(s: Sample) { s.falseCompletion }
  predicate Integrates(s: Sample) { s.integrated }
  predicate Reverts(s: Sample) { s.integrated && s.reverted }

  /** The length of a filter. */
  function Count(p: Test, samples: seq<Sample>): nat {
    if samples == [] then 0
    else Count(p, samples[..|samples| - 1]) + if p(samples[|samples| - 1]) then 1 else 0
  }

  function Rate(count: nat, denominator: nat): real {
    if denominator == 0 then 0.0 else count as real / denominator as real
  }

  function AddG0(a: G0, b: G0): G0 {
    G0(a.unauthorizedSideEffects + b.unauthorizedSideEffects, a.secretOrContentEgress + b.secretOrContentEgress,
       a.sandboxOrWorkspaceEscape + b.sandboxOrWorkspaceEscape, a.runtimeStateCorruption + b.runtimeStateCorruption,
       a.requiredVerificationBypass + b.requiredVerificationBypass)
  }

  const CLEAN := G0(0, 0, 0, 0, 0)

  function Failures(g: G0): nat {
    g.unauthorizedSideEffects + g.secretOrContentEgress + g.sandboxOrWorkspaceEscape + g.runtimeStateCorruption
      + g.requiredVerificationBypass
  }

  predicate IsClean(g: G0) { Failures(g) == 0 }

  function TotalG0(samples: seq<Sample>): G0 {
    if samples == [] then CLEAN else AddG0(TotalG0(samples[..|samples| - 1]), samples[|samples| - 1].g0)
  }

  function TotalG1(samples: seq<Sample>): nat {
    if samples == [] then 0 else TotalG1(samples[..|samples| - 1]) + samples[|samples| - 1].g1Failures
  }

  datatype Observation = Observation(
    tasks: nat,
    recoveryRequired: nat,
    integratedCount: nat,
    g0: G0,
    g1Failures: nat,
    burn: real,
    metrics: Metrics)

  datatype Metrics = Metrics(
    checksPassed: real,
    humanAccepted: real,
    recoverySuccess: real,
    unrelatedDiff: real,
    falseCompletion: real,
    integrated: real,
    reverted: real)

  function SamplesOf(terminals: seq<Terminal>): (r: seq<Sample>)
    ensures |r| == |terminals| && forall i | 0 <= i < |r| :: r[i] == terminals[i].material.sample
  {
    seq(|terminals|, i requires 0 <= i < |terminals| => terminals[i].material.sample)
  }

  function MetricsOf(samples: seq<Sample>, tasks: nat): Metrics {
    Metrics(
      Rate(Count(Passes, samples), tasks),
      Rate(Count(Accepted, samples), tasks),
      Rate(Count(Recovers, samples), Count(NeedsRecovery, samples)),
      Rate(Count(Strays, samples), tasks),
      Rate(Count(FalselyCompletes, samples), tasks),
      Rate(Count(Integrates, samples), tasks),
      Rate(Count(Reverts, samples), Count(Integrates, samples)))
  }

  function Observed(m: LedgerMaterial): Observation {
    var samples, tasks := SamplesOf(m.terminals), |m.admissions|;
    Observation(tasks, Count(NeedsRecovery, samples), Count(Integrates, samples), TotalG0(samples), TotalG1(samples),
                Rate(Count(Burns, samples), tasks), MetricsOf(samples, tasks))
  }

  /** rebuildLimitedSloObservation; none stands for a refused ledger. */
  method RebuildLimitedSloObservation(h: Hashes, ledger: Ledger) returns (r: Option<Observation>)
    ensures r == if IsLedger(h, ledger) then Some(Observed(ledger.material)) else None
  {
    var ok := VerifyLimitedSloSampleLedger(h, ledger);
    if !ok {
      return None;
    }
    var m := ledger.material;
    var samples, tasks := SamplesOf(m.terminals), |m.admissions|;
    var g0, g1 := SumFailures(samples);
    return Some(Observation(tasks, Count(NeedsRecovery, samples), Count(Integrates, samples), g0, g1,
                            Rate(Count(Burns, samples), tasks), MetricsOf(samples, tasks)));
  }

  method SumFailures(samples: seq<Sample>) returns (g0: G0, g1: nat)
    ensures g0 == TotalG0(samples) && g1 == TotalG1(samples)
  {
    g0, g1 := CLEAN, 0;
    for i := 0 to |samples|
      invariant g0 == TotalG0(samples[..i]) && g1 == TotalG1(samples[..i])
    {
      assert samples[..i + 1][..i] == samples[..i];
      g0 := AddG0(g0, samples[i].g0);
      g1 := g1 + samples[i].g1Failures;
    }
    assert samples[..|samples|] == samples;
  }

  lemma {:induction false} CountSplits(p: Test, q: Test, samples: seq<Sample>)
    requires forall s | s in samples :: q(s) == !p(s)
    ensures Count(p, samples) + Count(q, samples) == |samples|
    decreases |samples|
  {
    if samples != [] {
      CountSplits(p, q, samples[..|samples| - 1]);
    }
  }

  lemma {:induction false} CountGrows(p: Test, q: Test, samples: seq<Sample>)
    requires forall s | s in samples && p(s) :: q(s)
    ensures Count(p, samples) <= Count(q, samples) <= |samples|
    decreases |samples|
  {
    if samples != [] {
      CountGrows(p, q, samples[..|samples| - 1]);
    }
  }

  predicate IsRate(r: real) { 0.0 <= r <= 1.0 }

  lemma RateIsRate(count: nat, denominator: nat)
    requires count <= denominator
    ensures IsRate(Rate(count, denominator))
  {
    if denominator > 0 {
      var c, d := count as real, denominator as real;
      QuotientBound(c, d);
    }
  }

  lemma QuotientBound(c: real, d: real)
    requires 0.0 <= c <= d && d > 0.0
    ensures 0.0 <= c / d <= 1.0
  {
    NonNegative(c, d);
    NonNegative(d - c, d);
    AddOver(c, d - c, d);
  }

  lemma NonNegative(c: real, d: real)
    requires 0.0 <= c && d > 0.0
    ensures 0.0 <= c / d
  {
  }

  lemma RatesAddUp(a: nat, b: nat)
    requires a + b > 0
    ensures Rate(a, a + b) + Rate(b, a + b) == 1.0
  {
    var x, y, d := a as real, b as real, (a + b) as real;
    assert d == x + y;
    AddOver(x, y, d);
  }

  lemma AddOver(x: real, y: real, d: real)
    requires d > 0.0 && d == x + y
    ensures x / d + y / d == 1.0
  {
    assert x / d + y / d == (x + y) / d;
    assert d / d == 1.0;
  }

  lemma PartIsRate(p: Test, samples: seq<Sample>)
    ensures IsRate(Rate(Count(p, samples), |samples|))
  {
    CountGrows(p, p, samples);
    RateIsRate(Count(p, samples), |samples|);
  }

  lemma PartOfPartIsRate(p: Test, q: Test, samples: seq<Sample>)
    requires forall s | s in samples && p(s) :: q(s)
    ensures IsRate(Rate(Count(p, samples), Count(q, samples)))
  {
    CountGrows(p, q, samples);
    RateIsRate(Count(p, samples), Count(q, samples));
  }

  predicate AreRates(m: Metrics) {
    && IsRate(m.checksPassed) && IsRate(m.humanAccepted) && IsRate(m.recoverySuccess) && IsRate(m.unrelatedDiff)
    && IsRate(m.falseCompletion) && IsRate(m.integrated) && IsRate(m.reverted)
  }

  lemma MetricsAreRates(samples: seq<Sample>)
    ensures AreRates(MetricsOf(samples, |samples|))
  {
    PartIsRate(Passes, samples);
    PartIsRate(Accepted, samples);
    PartOfPartIsRate(Recovers, NeedsRecovery, samples);
    PartIsRate(Strays, samples);
    PartIsRate(FalselyCompletes, samples);
    PartIsRate(Integrates, samples);
    PartOfPartIsRate(Reverts, Integrates, samples);
  }

  predicate AllClean(samples: seq<Sample>) {
    forall i | 0 <= i < |samples| :: IsClean(samples[i].g0)
  }

  lemma AddClean(a: G0, b: G0)
    ensures IsClean(AddG0(a, b)) <==> IsClean(a) && IsClean(b)
  {
    assert Failures(AddG0(a, b)) == Failures(a) + Failures(b);
  }

  predicate AllFree(samples: seq<Sample>) {
    forall i | 0 <= i < |samples| :: samples[i].g1Failures == 0
  }

  lemma CleanToTheLast(samples: seq<Sample>, n: nat)
    requires |samples| == n + 1
    ensures AllClean(samples) <==> AllClean(samples[..n]) && IsClean(samples[n].g0)
  {
    var front := samples[..n];
    if AllClean(samples) {
      forall i | 0 <= i < n
        ensures IsClean(front[i].g0)
      {
        assert front[i] == samples[i];
      }
    }
    if AllClean(front) && IsClean(samples[n].g0) {
      forall i | 0 <= i <= n
        ensures IsClean(samples[i].g0)
      {
        assert i < n ==> front[i] == samples[i];
      }
    }
  }

  lemma FreeToTheLast(samples: seq<Sample>, n: nat)
    requires |samples| == n + 1
    ensures AllFree(samples) <==> AllFree(samples[..n]) && samples[n].g1Failures == 0
  {
    var front := samples[..n];
    if AllFree(front) && samples[n].g1Failures == 0 {
      forall i | 0 <= i <= n
        ensures samples[i].g1Failures == 0
      {
        assert i < n ==> front[i] == samples[i];
      }
    }
  }

  lemma {:induction false} CleanTotal(samples: seq<Sample>)
    ensures IsClean(TotalG0(samples)) <==> AllClean(samples)
    decreases |samples|
  {
    if samples != [] {
      var n := |samples| - 1;
      CleanTotal(samples[..n]);
      AddClean(TotalG0(samples[..n]), samples[n].g0);
      CleanToTheLast(samples, n);
    }
  }

  lemma {:induction false} FreeTotal(samples: seq<Sample>)
    ensures TotalG1(samples) == 0 <==> AllFree(samples)
    decreases |samples|
  {
    if samples != [] {
      var n := |samples| - 1;
      FreeTotal(samples[..n]);
      FreeToTheLast(samples, n);
    }
  }

  /** In the observation of an accepted ledger every rate is one, passing and burning share the whole, and the
      failure totals are clean exactly when every single sample is. */
  lemma ObservationLaws(h: Hashes, ledger: Ledger)
    requires IsLedger(h, ledger)
    ensures var o := Observed(ledger.material);
            && IsRate(o.burn) && AreRates(o.metrics) && (o.tasks > 0 ==> o.metrics.checksPassed + o.burn == 1.0)
            && (IsClean(o.g0) <==> AllClean(SamplesOf(ledger.material.terminals)))
            && (o.g1Failures == 0 <==> AllFree(SamplesOf(ledger.material.terminals)))
  {
    var m := ledger.material;
    var samples := SamplesOf(m.terminals);
    MetricsAreRates(samples);
    PartIsRate(Burns, samples);
    CountSplits(Passes, Burns, samples);
    if samples != [] {
      RatesAddUp(Count(Passes, samples), Count(Burns, samples));
    }
    CleanTotal(samples);
    FreeTotal(samples);
  }

  // ---------------------------------------------------------------- what the figures count

  function Where(p: Test, samples: seq<Sample>): set<int> {
    set i | 0 <= i < |samples| && p(samples[i])
  }

  lemma {:induction false} CountIsSize(p: Test, samples: seq<Sample>)
    ensures Count(p, samples) == |Where(p, samples)|
    decreases |samples|
  {
    if samples == [] {
      assert Where(p, samples) == {};
    } else {
      var n := |samples| - 1;
      CountIsSize(p, samples[..n]);
      assert Where(p, samples) == Where(p, samples[..n]) + if p(samples[n]) then {n} else {};
    }
  }

  lemma SamplesAreSound(h: Hashes, ledger: Ledger)
    requires IsLedger(h, ledger)
    ensures forall i | 0 <= i < |ledger.material.terminals| :: IsSample(ledger.material.terminals[i].material.sample)
  {
    forall i | 0 <= i < |ledger.material.terminals|
      ensures IsSample(ledger.material.terminals[i].material.sample)
    {
      assert ledger.material.terminals[i] in ledger.material.terminals;
    }
  }

  datatype Metric =
    | Burn | ChecksPassed | HumanAccepted | UnrelatedDiff | FalseCompletion | Integrated | RecoverySuccess | Reverted

  function Value(o: Observation, metric: Metric): real {
    match metric
    case Burn => o.burn
    case ChecksPassed => o.metrics.checksPassed
    case HumanAccepted => o.metrics.humanAccepted
    case UnrelatedDiff => o.metrics.unrelatedDiff
    case FalseCompletion => o.metrics.falseCompletion
    case Integrated => o.metrics.integrated
    case RecoverySuccess => o.metrics.recoverySuccess
    case Reverted => o.metrics.reverted
  }

  /** The sample is one the metric is about. */
  predicate Concerns(metric: Metric, s: Sample) {
    match metric
    case RecoverySuccess => s.recoveryRequired
    case Reverted => s.integrated
    case _ => true
  }

  predicate Shows(metric: Metric, s: Sample) {
    match metric
    case Burn => !s.checksPassed
    case ChecksPassed => s.checksPassed
    case HumanAccepted => s.humanAccepted
    case UnrelatedDiff => s.unrelatedDiff
    case FalseCompletion => s.falseCompletion
    case Integrated => s.integrated
    case RecoverySuccess => s.recoverySucceeded
    case Reverted => s.reverted
  }

  function Concerned(metric: Metric, ts: seq<Terminal>): set<int> {
    set i | 0 <= i < |ts| && Concerns(metric, ts[i].material.sample)
  }

  function Showing(metric: Metric, ts: seq<Terminal>): set<int> {
    set i | 0 <= i < |ts| && Shows(metric, ts[i].material.sample)
  }

  lemma Everyone(p: Test, samples: seq<Sample>)
    requires forall s | s in samples :: p(s)
    ensures |Where(p, samples)| == |samples|
  {
    CountIsSize(p, samples);
    CountAll(p, samples);
  }

  lemma {:induction false} CountAll(p: Test, samples: seq<Sample>)
    requires forall s | s in samples :: p(s)
    ensures Count(p, samples) == |samples|
    decreases |samples|
  {
    if samples != [] {
      CountAll(p, samples[..|samples| - 1]);
    }
  }

  /** Every rate of the observation is the rate of the receipts that show it among the receipts it is about. */
  lemma RateMeans(h: Hashes, ledger: Ledger, metric: Metric)
    requires IsLedger(h, ledger)
    ensures var ts := ledger.material.terminals;
            Value(Observed(ledger.material), metric) == Rate(|Showing(metric, ts)|, |Concerned(metric, ts)|)
  {
    SamplesAreSound(h, ledger);
    match metric
    case RecoverySuccess => RecoveryMeans(ledger.material);
    case Reverted => RevertMeans(ledger.material);
    case _ => TaskRateMeans(ledger.material, metric);
  }

  lemma TaskRateMeans(m: LedgerMaterial, metric: Metric)
    requires |m.admissions| == |m.terminals| && !metric.RecoverySuccess? && !metric.Reverted?
    ensures Value(Observed(m), metric) == Rate(|Showing(metric, m.terminals)|, |Concerned(metric, m.terminals)|)
  {
    var samples, all: Test := SamplesOf(m.terminals), s => true;
    Everyone(all, samples);
    assert Concerned(metric, m.terminals) == Where(all, samples);
    var p: Test := match metric
      case Burn => Burns
      case ChecksPassed => Passes
      case HumanAccepted => Accepted
      case UnrelatedDiff => Strays
      case FalseCompletion => FalselyCompletes
      case Integrated => Integrates;
    CountIsSize(p, samples);
    assert Showing(metric, m.terminals) == Where(p, samples);
  }

  lemma RecoveryMeans(m: LedgerMaterial)
    requires forall i | 0 <= i < |m.terminals| :: IsSample(m.terminals[i].material.sample)
    ensures Observed(m).metrics.recoverySuccess ==
            Rate(|Showing(RecoverySuccess, m.terminals)|, |Concerned(RecoverySuccess, m.terminals)|)
  {
    var samples := SamplesOf(m.terminals);
    CountIsSize(Recovers, samples);
    CountIsSize(NeedsRecovery, samples);
    assert Showing(RecoverySuccess, m.terminals) == Where(Recovers, samples);
    assert Concerned(RecoverySuccess, m.terminals) == Where(NeedsRecovery, samples);
  }

  lemma RevertMeans(m: LedgerMaterial)
    requires forall i | 0 <= i < |m.terminals| :: IsSample(m.terminals[i].material.sample)
    ensures Observed(m).metrics.reverted == Rate(|Showing(Reverted, m.terminals)|, |Concerned(Reverted, m.terminals)|)
  {
    var samples := SamplesOf(m.terminals);
    CountIsSize(Reverts, samples);
    CountIsSize(Integrates, samples);
    assert Showing(Reverted, m.terminals) == Where(Reverts, samples);
    assert Concerned(Reverted, m.terminals) == Where(Integrates, samples);
  }
}
