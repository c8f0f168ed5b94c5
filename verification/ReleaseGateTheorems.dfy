/** What an approval, a waiver and an enabled capability mean, for every policy and bundle. */
module ReleaseGateTheorems {
  import opened Basics
  import opened ReleaseGate

  // ---------------------------------------------------------------- requirements

  /** The evidence was produced where the policy's mode wants it to be. */
  predicate RunsAsRequired(p: PolicyMaterial, b: BundleMaterial, r: Result) {
    match p.mode
    case SyntheticFoundation => r.execution.source.LocalSynthetic?
    case GithubRelease =>
      if r.kind == MaintainerSecurityReview
      then IsMaintainers(r) && IsReleaseRun(r.execution.source.run, p) && !EndsAfter(b.results, r.execution.endedAt)
      else r.execution.source.GithubActions? && IsReleaseRun(r.execution.source.run, p)
  }

  predicate IsMaintainers(r: Result) {
    r.execution.source.GithubMaintainerReview? && r.execution.source.reviewer == MAINTAINER
      && r.execution.source.actor == MAINTAINER
  }

  /** The evidence is what the requirement asks for, on every count. */
  predicate Fulfils(p: PolicyMaterial, b: BundleMaterial, q: Requirement, r: Result, now: int) {
    && r.kind == q.kind && r.gate == q.gate && r.capability == q.capability && r.route == q.route
       && r.platform == q.platform
    && r.artifact == b.artifact && !IsStale(q, r, now) && (r.expiresAt.Some? ==> now < r.expiresAt.value)
    && RunsAsRequired(p, b, r) && r.status == Passed
  }

  lemma ExecutionIsClean(p: PolicyMaterial, b: BundleMaterial, r: Result)
    ensures ExecutionReasons(p, b, r) == [] <==> RunsAsRequired(p, b, r)
  {
  }

  lemma ItemIsClean(p: PolicyMaterial, b: BundleMaterial, q: Requirement, r: Result, now: int)
    ensures ItemReasons(p, b, q, r, now) == [] <==> Fulfils(p, b, q, r, now)
  {
    ExecutionIsClean(p, b, r);
  }

  lemma WhenTells(c: bool, reason: Reason, x: Reason)
    ensures x in When(c, reason) <==> c && x == reason
  {
  }

  /** A field of the evidence differs from what is required, and the reason says which. */
  predicate Differs(artifact: Artifact, q: Requirement, r: Result, reason: Reason) {
    || (reason == KindMismatch && r.kind != q.kind)
    || (reason == GateMismatch && r.gate != q.gate)
    || (reason == CapabilityMismatch && r.capability != q.capability)
    || (reason == RouteMismatch && r.route != q.route)
    || (reason == PlatformMismatch && r.platform != q.platform)
    || (reason == ResultArtifactMismatch && r.artifact != artifact)
  }

  lemma AmongSix(x: Reason, a: seq<Reason>, b: seq<Reason>, c: seq<Reason>, d: seq<Reason>, e: seq<Reason>,
                 f: seq<Reason>)
    ensures x in a + b + c + d + e + f <==> x in a || x in b || x in c || x in d || x in e || x in f
  {
  }

  lemma MismatchesTell(artifact: Artifact, q: Requirement, r: Result, reason: Reason)
    ensures reason in MismatchesOf(artifact, q, r) <==> Differs(artifact, q, r, reason)
  {
    WhenTells(r.kind != q.kind, KindMismatch, reason);
    WhenTells(r.gate != q.gate, GateMismatch, reason);
    WhenTells(r.capability != q.capability, CapabilityMismatch, reason);
    WhenTells(q.route != r.route, RouteMismatch, reason);
    WhenTells(q.platform != r.platform, PlatformMismatch, reason);
    WhenTells(r.artifact != artifact, ResultArtifactMismatch, reason);
    AmongSix(reason, When(r.kind != q.kind, KindMismatch), When(r.gate != q.gate, GateMismatch),
             When(r.capability != q.capability, CapabilityMismatch), When(q.route != r.route, RouteMismatch),
             When(q.platform != r.platform, PlatformMismatch), When(r.artifact != artifact, ResultArtifactMismatch));
  }

  predicate TooOld(q: Requirement, r: Result, now: int, reason: Reason) {
    || (reason == StaleEvidence && IsStale(q, r, now))
    || (reason == ExpiredEvidence && r.expiresAt.Some? && r.expiresAt.value <= now)
  }

  lemma AgesTell(q: Requirement, r: Result, now: int, reason: Reason)
    ensures reason in AgeReasons(q, r, now) <==> TooOld(q, r, now, reason)
  {
    WhenTells(IsStale(q, r, now), StaleEvidence, reason);
    WhenTells(r.expiresAt.Some? && r.expiresAt.value <= now, ExpiredEvidence, reason);
  }

  /** The evidence was not produced where the policy's mode wants it to be, and the reason says in what way. */
  predicate Misplaced(p: PolicyMaterial, b: BundleMaterial, r: Result, reason: Reason) {
    var source, review := r.execution.source, r.kind == MaintainerSecurityReview;
    if p.mode == SyntheticFoundation then reason == NonSyntheticExecution && !source.LocalSynthetic?
    else
      match reason
      case ReviewNeedsMaintainer => review && !source.GithubMaintainerReview?
      case ReviewMaintainerMismatch =>
        review && source.GithubMaintainerReview? && !(source.reviewer == source.actor == MAINTAINER)
      case ReviewGithubMismatch => review && source.GithubMaintainerReview? && !IsReleaseRun(source.run, p)
      case ReviewPrecedesEvidence =>
        && review && source.GithubMaintainerReview?
        && exists x | x in b.results :: x.kind != MaintainerSecurityReview && r.execution.endedAt < x.execution.endedAt
      case NonGithubExecution => !review && !source.GithubActions?
      case GithubIdentityMismatch => !review && source.GithubActions? && !IsReleaseRun(source.run, p)
      case _ => false
  }

  lemma ReviewExecutionTells(p: PolicyMaterial, b: BundleMaterial, r: Result, reason: Reason)
    requires p.mode == GithubRelease && r.kind == MaintainerSecurityReview && r.execution.source.GithubMaintainerReview?
    ensures reason in ExecutionReasons(p, b, r) <==> Misplaced(p, b, r, reason)
  {
    var source := r.execution.source;
    WhenTells(source.reviewer != MAINTAINER || source.actor != MAINTAINER, ReviewMaintainerMismatch, reason);
    WhenTells(!IsReleaseRun(source.run, p), ReviewGithubMismatch, reason);
    WhenTells(EndsAfter(b.results, r.execution.endedAt), ReviewPrecedesEvidence, reason);
    AmongThree(reason, When(source.reviewer != MAINTAINER || source.actor != MAINTAINER, ReviewMaintainerMismatch),
               When(!IsReleaseRun(source.run, p), ReviewGithubMismatch),
               When(EndsAfter(b.results, r.execution.endedAt), ReviewPrecedesEvidence));
  }

  lemma AmongThree(x: Reason, a: seq<Reason>, b: seq<Reason>, c: seq<Reason>)
    ensures x in a + b + c <==> x in a || x in b || x in c
  {
  }

  lemma ExecutionsTell(p: PolicyMaterial, b: BundleMaterial, r: Result, reason: Reason)
    ensures reason in ExecutionReasons(p, b, r) <==> Misplaced(p, b, r, reason)
  {
    if p.mode == GithubRelease && r.kind == MaintainerSecurityReview && r.execution.source.GithubMaintainerReview? {
      ReviewExecutionTells(p, b, r, reason);
    }
  }

  lemma AmongFour(x: Reason, a: seq<Reason>, b: seq<Reason>, c: seq<Reason>, d: seq<Reason>)
    ensures x in a + b + c + d <==> x in a || x in b || x in c || x in d
  {
  }

  /** Each reason is given exactly for its own defect. */
  lemma ReasonsTell(p: PolicyMaterial, b: BundleMaterial, q: Requirement, r: Result, now: int, reason: Reason)
    ensures reason in ItemReasons(p, b, q, r, now) <==>
            || Differs(b.artifact, q, r, reason) || TooOld(q, r, now, reason) || Misplaced(p, b, r, reason)
            || (reason == EvidenceStatus(r.status) && r.status != Passed)
  {
    MismatchesTell(b.artifact, q, r, reason);
    AgesTell(q, r, now, reason);
    ExecutionsTell(p, b, r, reason);
    WhenTells(r.status != Passed, EvidenceStatus(r.status), reason);
    AmongFour(reason, MismatchesOf(b.artifact, q, r), AgeReasons(q, r, now), ExecutionReasons(p, b, r),
              When(r.status != Passed, EvidenceStatus(r.status)));
  }

  ghost predicate IsFulfilled(p: PolicyMaterial, b: BundleMaterial, q: Requirement, now: int) {
    exists r :: r in b.results && r.evidenceId == q.evidenceId && Fulfils(p, b, q, r, now)
  }

  /** The evidence falls short, but an exception in force covers it. */
  predicate Excused(p: PolicyMaterial, b: BundleMaterial, q: Requirement, r: Result, e: Exception, now: int) {
    !Fulfils(p, b, q, r, now) && Waivable(r) && InForce(e, r, now) && r.gate == q.gate
  }

  ghost predicate IsWaived(p: PolicyMaterial, b: BundleMaterial, q: Requirement, now: int) {
    exists r, e :: r in b.results && r.evidenceId == q.evidenceId && e in b.exceptions && Excused(p, b, q, r, e, now)
  }

  predicate DistinctResults(results: seq<Result>) {
    forall i, j | 0 <= i < j < |results| :: results[i].evidenceId != results[j].evidenceId
  }

  lemma {:induction false} FoundResult(results: seq<Result>, id: string)
    requires DistinctResults(results)
    ensures FindResult(results, id).None? ==> forall r | r in results :: r.evidenceId != id
    ensures FindResult(results, id).Some? ==> var r := FindResult(results, id).value; r in results && r.evidenceId == id
    ensures FindResult(results, id).Some? ==>
            forall r | r in results && r.evidenceId == id :: r == FindResult(results, id).value
    decreases |results|
  {
    if results != [] {
      var front, last := results[..|results| - 1], results[|results| - 1];
      FoundResult(front, id);
      assert forall r :: r in results <==> r in front || r == last;
      assert last.evidenceId == id ==> forall r | r in front :: r.evidenceId != id;
    }
  }

  lemma {:induction false} FoundException(exceptions: seq<Exception>, r: Result, now: int)
    ensures MatchingException(exceptions, r, now).Some? <==> exists e :: e in exceptions && InForce(e, r, now)
    ensures MatchingException(exceptions, r, now).Some? ==> MatchingException(exceptions, r, now).value.gate == r.gate
    decreases |exceptions|
  {
    if exceptions != [] {
      FoundException(exceptions[1..], r, now);
      assert forall e :: e in exceptions <==> e == exceptions[0] || e in exceptions[1..];
    }
  }

  /** The status of a requirement, in terms of the evidence and exceptions in the bundle. */
  lemma ItemMeaning(p: PolicyMaterial, b: BundleMaterial, q: Requirement, now: int)
    requires DistinctResults(b.results)
    ensures ItemOf(p, b, now, q).status == ItemPassed <==> IsFulfilled(p, b, q, now)
    ensures ItemOf(p, b, now, q).status == ItemWaived <==> IsWaived(p, b, q, now)
    ensures ItemOf(p, b, now, q).status == ItemBlocked ==> ItemOf(p, b, now, q).reasons != []
  {
    FoundResult(b.results, q.evidenceId);
    var found := FindResult(b.results, q.evidenceId);
    if found.Some? {
      ItemIsClean(p, b, q, found.value, now);
      FoundException(b.exceptions, found.value, now);
      if ItemOf(p, b, now, q).status == ItemWaived {
        var e :| e in b.exceptions && InForce(e, found.value, now);
        assert Excused(p, b, q, found.value, e, now);
      }
    }
  }

  // ---------------------------------------------------------------- the candidate as a whole

  predicate SafeRisk(risk: Risk, ds: seq<Disposition>) {
    risk.status == Settled(Mitigated) || (risk.status == Settled(Accepted) && risk.severity == P2
      && IsAccepted(ds, risk.riskId))
  }

  lemma {:induction false} RisksAreClean(risks: seq<Risk>, ds: seq<Disposition>)
    ensures RiskReasons(risks, ds) == [] <==> forall risk | risk in risks :: SafeRisk(risk, ds)
    decreases |risks|
  {
    if risks != [] {
      var front, last := risks[..|risks| - 1], risks[|risks| - 1];
      RisksAreClean(front, ds);
      assert forall risk :: risk in risks <==> risk in front || risk == last;
      assert ReasonsOfRisk(last, ds) == [] <==> SafeRisk(last, ds);
    }
  }

  lemma {:induction false} DispositionsAreClean(ds: seq<Disposition>, risks: seq<Risk>)
    ensures MismatchReasons(ds, risks) == [] <==> forall d | d in ds :: Agrees(d, risks)
    decreases |ds|
  {
    if ds != [] {
      var front, last := ds[..|ds| - 1], ds[|ds| - 1];
      DispositionsAreClean(front, risks);
      assert forall d :: d in ds <==> d in front || d == last;
    }
  }

  lemma {:induction false} NothingUnexpected(p: PolicyMaterial, results: seq<Result>)
    ensures Unexpected(p, results) == [] <==> forall r | r in results :: IsRequired(p, r.evidenceId)
    decreases |results|
  {
    if results != [] {
      var front, last := results[..|results| - 1], results[|results| - 1];
      NothingUnexpected(p, front);
      assert forall r :: r in results <==> r in front || r == last;
    }
  }

  predicate SameIdentity(p: Policy, b: BundleMaterial, artifact: Artifact) {
    && b.artifact == artifact && artifact.gatePolicyDigest == p.digest
    && artifact.repository == p.material.repository && artifact.repositoryId == p.material.repositoryId
    && (if p.material.mode == SyntheticFoundation then b.nonDistributable && b.syntheticTrustRoot
        else !b.nonDistributable && !b.syntheticTrustRoot)
  }

  /** Nothing is wrong with the bundle as a whole. */
  predicate IsCleared(p: Policy, b: BundleMaterial, artifact: Artifact) {
    && SameIdentity(p, b, artifact) && (forall r | r in b.results :: IsRequired(p.material, r.evidenceId))
    && (forall risk | risk in b.risks :: SafeRisk(risk, Dispositions(b.results)))
    && (forall d | d in Dispositions(b.results) :: Agrees(d, b.risks))
  }

  lemma IdentityIsClean(p: Policy, b: BundleMaterial, artifact: Artifact)
    ensures IdentityReasons(p, b, artifact) == [] <==> SameIdentity(p, b, artifact)
  {
  }

  lemma ClearedExactly(p: Policy, b: BundleMaterial, artifact: Artifact)
    ensures ReasonsSoFar(p, b, artifact) == [] <==> IsCleared(p, b, artifact)
  {
    var ds := Dispositions(b.results);
    IdentityIsClean(p, b, artifact);
    NothingUnexpected(p.material, b.results);
    RisksAreClean(b.risks, ds);
    DispositionsAreClean(ds, b.risks);
    var i, u, k, m := IdentityReasons(p, b, artifact), Unexpected(p.material, b.results), RiskReasons(b.risks, ds),
      MismatchReasons(ds, b.risks);
    assert i + u + k + m == [] <==> i == [] && u == [] && k == [] && m == [];
  }

  ghost predicate IsMet(p: PolicyMaterial, b: BundleMaterial, q: Requirement, now: int) {
    IsFulfilled(p, b, q, now) || IsWaived(p, b, q, now)
  }

  lemma {:induction false} FoundItem(items: seq<Item>, i: nat)
    requires i < |items| && forall j, k | 0 <= j < k < |items| ::
             items[j].requirement.requirementId != items[k].requirement.requirementId
    ensures FindItem(items, items[i].requirement.requirementId) == Some(items[i])
    decreases |items|
  {
    if i > 0 {
      assert items[0].requirement.requirementId != items[i].requirement.requirementId;
      assert items[1..][i - 1] == items[i];
      FoundItem(items[1..], i - 1);
    }
  }

  lemma {:induction false} SecurityIsARequirement(requirements: seq<Requirement>)
    ensures forall q :: q in SecurityRequirements(requirements) <==>
            q in requirements && q.kind == MaintainerSecurityReview
    decreases |requirements|
  {
    if requirements != [] {
      SecurityIsARequirement(requirements[1..]);
      assert forall q :: q in requirements <==> q == requirements[0] || q in requirements[1..];
    }
  }

  /** The requirement of the maintainer's review of a release policy. */
  function Security(p: PolicyMaterial): Requirement
    requires IsPolicy(p) && p.mode == GithubRelease
  {
    SecurityRequirements(p.requirements)[0]
  }

  lemma SecurityIsUnique(p: PolicyMaterial)
    requires IsPolicy(p) && p.mode == GithubRelease
    ensures Security(p) in p.requirements && Security(p).kind == MaintainerSecurityReview
            && Security(p).capability.None?
    ensures Security(p).route.Some? && Security(p).platform.Some?
    ensures forall q | q in p.requirements && q.kind == MaintainerSecurityReview :: q == Security(p)
  {
    SecurityIsARequirement(p.requirements);
    var security := SecurityRequirements(p.requirements);
    assert security[0] in security;
    assert forall q | q in security :: q == security[0];
  }

  lemma SecurityItem(p: PolicyMaterial, b: BundleMaterial, now: int)
    requires IsPolicy(p) && p.mode == GithubRelease
    ensures FindItem(Items(p, b, now), Security(p).requirementId) == Some(ItemOf(p, b, now, Security(p)))
  {
    SecurityIsUnique(p);
    var i :| 0 <= i < |p.requirements| && p.requirements[i] == Security(p);
    var items := Items(p, b, now);
    assert items[i] == ItemOf(p, b, now, Security(p));
    FoundItem(items, i);
  }

  /** The maintainer's approval is missing unless nothing is wrong and the review itself passed. */
  lemma ApprovalExactly(p: Policy, b: BundleMaterial, artifact: Artifact, now: int)
    requires IsPolicy(p.material) && DistinctResults(b.results)
    ensures GlobalReasons(p, b, artifact, now) == [] <==>
            IsCleared(p, b, artifact) && (p.material.mode == GithubRelease ==>
              IsFulfilled(p.material, b, Security(p.material), now))
  {
    ClearedExactly(p, b, artifact);
    if p.material.mode == GithubRelease {
      ApprovalIsMissing(p.material, b, now, ReasonsSoFar(p, b, artifact));
    }
  }

  lemma ApprovalIsMissing(p: PolicyMaterial, b: BundleMaterial, now: int, soFar: seq<Reason>)
    requires IsPolicy(p) && p.mode == GithubRelease && DistinctResults(b.results)
    ensures NeedsApproval(p, Items(p, b, now), soFar) <==> soFar != [] || !IsFulfilled(p, b, Security(p), now)
  {
    SecurityItem(p, b, now);
    ItemMeaning(p, b, Security(p), now);
  }

  // ---------------------------------------------------------------- the decision

  lemma NoReasons(reasons: seq<Reason>)
    ensures Set(reasons) == {} <==> reasons == []
  {
    if reasons != [] {
      assert reasons[0] in Set(reasons);
    }
  }

  ghost predicate NoneBlocked(items: seq<Item>, capability: Option<string>) {
    forall item | item in items && item.requirement.capability == capability :: item.status != ItemBlocked
  }

  ghost predicate SpeaksUp(items: seq<Item>) {
    forall item | item in items && item.status == ItemBlocked :: item.reasons != []
  }

  lemma TaggedSpeaks(item: Item)
    requires item.reasons != []
    ensures Tagged(item) != {}
  {
    assert OfRequirement(item.requirement.requirementId, item.reasons[0]) in Tagged(item);
  }

  lemma BlockedHaveReasons(items: seq<Item>, capability: Option<string>)
    requires SpeaksUp(items)
    ensures BlockedReasons(items, capability) == {} <==> NoneBlocked(items, capability)
  {
    forall item | item in items && item.requirement.capability == capability && item.status == ItemBlocked
      ensures BlockedReasons(items, capability) != {}
    {
      TaggedSpeaks(item);
      var reason :| reason in Tagged(item);
      assert reason in BlockedReasons(items, capability);
    }
  }

  ghost predicate NoneBlockedAt(items: seq<Item>, gate: Gate) {
    forall item | item in items && item.requirement.gate == gate && item.requirement.capability.None? ::
      item.status != ItemBlocked
  }

  lemma GateIsClear(items: seq<Item>, global: seq<Reason>, gate: Gate)
    requires SpeaksUp(items)
    ensures GateReasons(items, global, gate) == {} <==> global == [] && NoneBlockedAt(items, gate)
  {
    NoReasons(global);
    forall item | item in items && item.requirement.gate == gate && item.requirement.capability.None?
      && item.status == ItemBlocked
      ensures GateReasons(items, global, gate) != {}
    {
      TaggedSpeaks(item);
      var reason :| reason in Tagged(item);
      assert reason in GateReasons(items, global, gate);
    }
  }

  lemma EveryGate(gate: Gate)
    ensures gate in GATES
  {
    var place := match gate case G0 => 0 case G1 => 1 case G2 => 2 case G3 => 3 case G4 => 4 case G5 => 5;
    assert GATES[place] == gate;
  }

  lemma BlockedExactly(p: PolicyMaterial, items: seq<Item>, global: seq<Reason>, needsApproval: bool)
    requires SpeaksUp(items)
    ensures Conclude(p, items, global, needsApproval).overall == OverallBlocked <==>
            global != [] || !NoneBlocked(items, None)
  {
    var gates := Conclude(p, items, global, needsApproval).gates;
    forall gate: Gate
      ensures gate in gates && (gates[gate] == GateBlocked <==> global != [] || !NoneBlockedAt(items, gate))
    {
      EveryGate(gate);
      GateIsClear(items, global, gate);
    }
    assert G0 in gates;
    assert NoneBlocked(items, None) <==> forall gate: Gate :: NoneBlockedAt(items, gate) by {
      forall item | item in items && item.requirement.capability.None? && item.status == ItemBlocked
        ensures !NoneBlockedAt(items, item.requirement.gate)
      {
      }
    }
  }

  lemma ItemsSpeakUp(p: PolicyMaterial, b: BundleMaterial, now: int)
    requires DistinctResults(b.results)
    ensures SpeaksUp(Items(p, b, now))
    ensures forall capability: Option<string> :: NoneBlocked(Items(p, b, now), capability) <==>
              forall q | q in p.requirements && q.capability == capability :: IsMet(p, b, q, now)
  {
    var items := Items(p, b, now);
    forall i | 0 <= i < |items|
      ensures items[i].status == ItemBlocked <==> !IsMet(p, b, p.requirements[i], now)
      ensures items[i].status == ItemBlocked ==> items[i].reasons != []
    {
      ItemMeaning(p, b, p.requirements[i], now);
    }
    forall capability: Option<string>
      ensures NoneBlocked(items, capability) <==>
              forall q | q in p.requirements && q.capability == capability :: IsMet(p, b, q, now)
    {
      ScopeIsMet(p, b, now, items, capability);
    }
  }

  lemma ScopeIsMet(p: PolicyMaterial, b: BundleMaterial, now: int, items: seq<Item>, capability: Option<string>)
    requires |items| == |p.requirements| && forall i | 0 <= i < |items| :: items[i].requirement == p.requirements[i]
    requires forall i | 0 <= i < |items| :: items[i].status == ItemBlocked <==> !IsMet(p, b, p.requirements[i], now)
    ensures NoneBlocked(items, capability) <==>
            forall q | q in p.requirements && q.capability == capability :: IsMet(p, b, q, now)
  {
    if NoneBlocked(items, capability) {
      forall q | q in p.requirements && q.capability == capability
        ensures IsMet(p, b, q, now)
      {
        var i :| 0 <= i < |items| && p.requirements[i] == q;
        assert items[i] in items;
      }
    } else {
      var item :| item in items && item.requirement.capability == capability && item.status == ItemBlocked;
      var i :| 0 <= i < |items| && items[i] == item;
      assert p.requirements[i] in p.requirements;
    }
  }

  ghost predicate AllMet(p: PolicyMaterial, b: BundleMaterial, capability: Option<string>, now: int) {
    forall q | q in p.requirements && q.capability == capability :: IsMet(p, b, q, now)
  }

  /** The candidate can be approved: nothing is wrong with the bundle, every global requirement is fulfilled or
      waived, and in a release the maintainer's review is fulfilled. */
  ghost predicate IsApprovable(p: Policy, b: BundleMaterial, artifact: Artifact, now: int)
    requires IsPolicy(p.material)
  {
    && IsCleared(p, b, artifact) && AllMet(p.material, b, None, now)
    && (p.material.mode == GithubRelease ==> IsFulfilled(p.material, b, Security(p.material), now))
  }

  /** The overall decision, exactly: every approval is earned, and nothing that is earned is refused. */
  lemma ApprovedExactly(p: Policy, b: BundleMaterial, artifact: Artifact, now: int)
    requires IsPolicy(p.material) && DistinctResults(b.results)
    ensures Decide(p, b, artifact, now).overall ==
            if !IsApprovable(p, b, artifact, now) then OverallBlocked
            else if p.material.mode == GithubRelease then ApprovedCandidate
            else ApprovedFoundation
  {
    var items, global := Items(p.material, b, now), GlobalReasons(p, b, artifact, now);
    ItemsSpeakUp(p.material, b, now);
    ApprovalExactly(p, b, artifact, now);
    BlockedExactly(p.material, items, global, NeedsApproval(p.material, items, ReasonsSoFar(p, b, artifact)));
    assert NoneBlocked(items, None) <==> AllMet(p.material, b, None, now);
  }

  /** A capability is enabled exactly when the candidate is approved and the capability has requirements, all of them
      met. */
  lemma EnabledExactly(p: Policy, b: BundleMaterial, artifact: Artifact, now: int, capability: string)
    requires IsPolicy(p.material) && DistinctResults(b.results)
    ensures capability in Decide(p, b, artifact, now).enabled <==>
            && capability in p.material.capabilities && Decide(p, b, artifact, now).overall != OverallBlocked
            && (exists q :: q in p.material.requirements && q.capability == Some(capability))
            && AllMet(p.material, b, Some(capability), now)
  {
    var items, global := Items(p.material, b, now), GlobalReasons(p, b, artifact, now);
    ItemsSpeakUp(p.material, b, now);
    BlockedExactly(p.material, items, global, NeedsApproval(p.material, items, ReasonsSoFar(p, b, artifact)));
    NoReasons(global);
    BlockedHaveReasons(items, None);
    BlockedHaveReasons(items, Some(capability));
    assert NoneBlocked(items, Some(capability)) <==> AllMet(p.material, b, Some(capability), now);
    AppliesExactly(p.material, items, capability);
  }

  lemma AppliesExactly(p: PolicyMaterial, items: seq<Item>, capability: string)
    requires |items| == |p.requirements| && forall i | 0 <= i < |items| :: items[i].requirement == p.requirements[i]
    ensures Applies(items, capability) <==> exists q :: q in p.requirements && q.capability == Some(capability)
  {
    if q :| q in p.requirements && q.capability == Some(capability) {
      var i :| 0 <= i < |items| && p.requirements[i] == q;
      assert items[i] in items;
    }
  }

  // ---------------------------------------------------------------- consequences

  /** An approved candidate has no open risk, no accepted P0 or P1 risk, and a passed review of this very artifact by
      the maintainer, which no automatic evidence outlasts. */
  lemma ApprovedCandidateIsReviewed(p: Policy, b: BundleMaterial, artifact: Artifact, now: int)
    requires IsPolicy(p.material) && IsBundle(b) && Decide(p, b, artifact, now).overall == ApprovedCandidate
    ensures forall risk | risk in b.risks ::
            risk.status != Open && (risk.severity != P2 ==> risk.status == Settled(Mitigated))
    ensures exists r :: r in b.results && r.kind == MaintainerSecurityReview && r.status == Passed && IsMaintainers(r)
                        && r.review.Some? && r.review.value.passed && r.review.value.candidate == artifact
                        && forall other | other in b.results && other.kind != MaintainerSecurityReview ::
                             other.execution.endedAt <= r.execution.endedAt
  {
    ApprovedExactly(p, b, artifact, now);
    SecurityIsUnique(p.material);
    var q := Security(p.material);
    var r :| r in b.results && r.evidenceId == q.evidenceId && Fulfils(p.material, b, q, r, now);
    assert IsResult(r) && r.artifact == artifact;
    assert forall risk | risk in b.risks :: SafeRisk(risk, Dispositions(b.results));
  }

  /** A waiver leaves G0, G1 and missing evidence alone and rests on an exception in force for the evidence and its
      gate; in a release it never stands for the maintainer's review. */
  lemma WaiversAreBounded(p: Policy, b: BundleMaterial, artifact: Artifact, now: int, q: Requirement)
    requires IsPolicy(p.material) && IsBundle(b) && q in p.material.requirements && IsWaived(p.material, b, q, now)
    ensures q.gate != G0 && q.gate != G1
    ensures exists e ::
              e in b.exceptions && e.evidenceId == q.evidenceId && e.gate == q.gate && e.approvedAt <= now < e.expiresAt
    ensures exists r :: r in b.results && r.evidenceId == q.evidenceId && r.kind != MaintainerSecurityReview
    ensures Decide(p, b, artifact, now).overall == ApprovedCandidate ==> q.kind != MaintainerSecurityReview
  {
    var r, e :| r in b.results && r.evidenceId == q.evidenceId && e in b.exceptions
      && Excused(p.material, b, q, r, e, now);
    if Decide(p, b, artifact, now).overall == ApprovedCandidate {
      ApprovedExactly(p, b, artifact, now);
      SecurityIsUnique(p.material);
      var security := Security(p.material);
      var s :| s in b.results && s.evidenceId == security.evidenceId && Fulfils(p.material, b, security, s, now);
      assert q == security ==> s == r by {
        FoundResult(b.results, q.evidenceId);
      }
    }
  }
}
