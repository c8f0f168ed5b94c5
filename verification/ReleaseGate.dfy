/** The release gate, scripts/release/gate-evaluator.ts, with the bundle rules of scripts/release/evidence-schema.ts. */
module ReleaseGate {
  import opened Basics

  datatype Gate = G0 | G1 | G2 | G3 | G4 | G5

  const GATES: seq<Gate> := [G0, G1, G2, G3, G4, G5]

  /** The kinds of evidence; the gate treats all but the maintainer's review alike. */
  datatype Kind = MaintainerSecurityReview | Automatic(name: string)

  datatype Mode = SyntheticFoundation | GithubRelease

  datatype Requirement = Requirement(
    requirementId: string,
    evidenceId: string,
    kind: Kind,
    gate: Gate,
    capability: Option<string>,
    maxAgeSeconds: Option<nat>,
    route: Option<string>,
    platform: Option<string>)

  datatype PolicyMaterial = PolicyMaterial(
    mode: Mode,
    repository: string,
    repositoryId: string,
    workflowPath: string,
    workflowSha: string,
    refPrefixes: seq<string>,
    capabilities: seq<string>,
    requirements: seq<Requirement>)

  datatype Policy = Policy(material: PolicyMaterial, digest: string)

  datatype Artifact = Artifact(
    repository: string,
    repositoryId: string,
    commit: string,
    payload: string,
    manifest: string,
    behavior: string,
    profile: string,
    gatePolicyDigest: string)

  datatype Workflow = Workflow(
    repository: string,
    repositoryId: string,
    path: string,
    workflowRef: string,
    sha: string,
    ref: string)

  datatype Source =
    | GithubActions(run: Workflow)
    | LocalSynthetic
    | External
    | GithubMaintainerReview(run: Workflow, actor: string, reviewer: string)

  datatype Execution = Execution(source: Source, commit: string, startedAt: int, endedAt: int)

  datatype Standing = Mitigated | Accepted

  datatype Disposition = Disposition(riskId: string, standing: Standing)

  datatype Review = Review(
    passed: bool,
    candidate: Artifact,
    route: string,
    platform: string,
    reviewer: string,
    reviewedAt: int,
    run: Workflow,
    actor: string,
    dispositions: seq<Disposition>)

  datatype Status = Passed | Failed | Blocked | NotRun

  datatype Result = Result(
    evidenceId: string,
    kind: Kind,
    gate: Gate,
    capability: Option<string>,
    status: Status,
    artifact: Artifact,
    execution: Execution,
    route: Option<string>,
    platform: Option<string>,
    expiresAt: Option<int>,
    review: Option<Review>)

  datatype Severity = P0 | P1 | P2

  datatype RiskStatus = Open | Settled(standing: Standing)

  datatype Risk = Risk(riskId: string, severity: Severity, status: RiskStatus)

  datatype Exception = Exception(
    exceptionId: string,
    evidenceId: string,
    gate: Gate,
    capability: Option<string>,
    approvedAt: int,
    expiresAt: int)

  datatype BundleMaterial = BundleMaterial(
    artifact: Artifact,
    nonDistributable: bool,
    syntheticTrustRoot: bool,
    results: seq<Result>,
    risks: seq<Risk>,
    exceptions: seq<Exception>)

  datatype Bundle = Bundle(material: BundleMaterial, digest: string)

  /** The digests of policies and bundles. */
  datatype Digests = Digests(policy: PolicyMaterial -> string, bundle: BundleMaterial -> string)

  const MAINTAINER := "github:@ferqx"

  // ---------------------------------------------------------------- what the schemas demand

  /** The requirements of the maintainer's review. */
  function SecurityRequirements(requirements: seq<Requirement>): seq<Requirement> {
    if requirements == [] then []
    else
      (if requirements[0].kind == MaintainerSecurityReview then [requirements[0]] else [])
      + SecurityRequirements(requirements[1..])
  }

  predicate IsPolicy(p: PolicyMaterial) {
    && Distinct(p.capabilities) && p.refPrefixes != []
    && (forall i, j | 0 <= i < j < |p.requirements| ::
          p.requirements[i].requirementId != p.requirements[j].requirementId
          && p.requirements[i].evidenceId != p.requirements[j].evidenceId)
    && (forall r | r in p.requirements && r.capability.Some? :: r.capability.value in p.capabilities)
    && (p.mode == GithubRelease ==>
          var security := SecurityRequirements(p.requirements);
          && |security| == 1 && security[0].capability.None? && security[0].maxAgeSeconds.Some?
          && security[0].route.Some? && security[0].platform.Some?)
  }

  predicate IsReview(review: Review) {
    forall i, j | 0 <= i < j < |review.dispositions| :: review.dispositions[i].riskId != review.dispositions[j].riskId
  }

  predicate ReviewMatches(review: Review, r: Result) {
    && IsReview(review) && review.candidate == r.artifact
    && r.route == Some(review.route) && r.platform == Some(review.platform)
    && (r.execution.source.GithubMaintainerReview? ==>
          && review.reviewer == r.execution.source.reviewer && review.reviewedAt == r.execution.endedAt
          && review.run == r.execution.source.run && review.actor == r.execution.source.actor)
    && r.status == (if review.passed then Passed else Failed)
  }

  predicate IsResult(r: Result) {
    && r.execution.commit == r.artifact.commit && r.execution.startedAt <= r.execution.endedAt
    && (if r.kind == MaintainerSecurityReview
        then r.review.Some? && ReviewMatches(r.review.value, r)
        else r.review.None?)
  }

  predicate IsBundle(b: BundleMaterial) {
    && (b.syntheticTrustRoot ==> b.nonDistributable)
    && (forall r | r in b.results ::
          IsResult(r) && r.artifact == b.artifact && (b.syntheticTrustRoot ==> r.execution.source.LocalSynthetic?))
    && (forall i, j | 0 <= i < j < |b.results| :: b.results[i].evidenceId != b.results[j].evidenceId)
    && (forall e | e in b.exceptions ::
          (exists r | r in b.results :: r.evidenceId == e.evidenceId) && e.gate != G0 && e.gate != G1
            && e.approvedAt < e.expiresAt)
  }

  // ---------------------------------------------------------------- one requirement

  datatype Reason =
    | ArtifactIdentityMismatch | GatePolicyIdentityMismatch | RepositoryIdentityMismatch
    | RequiresSyntheticRoot | RejectsSyntheticEvidence | UnexpectedEvidence(id: string)
    | OpenRisk(severity: Severity, id: string) | UnresolvedRisk(severity: Severity, id: string)
    | DispositionMissing(id: string) | DispositionMismatch(id: string) | ManualApprovalMissing
    | MissingEvidence | KindMismatch | GateMismatch | CapabilityMismatch | RouteMismatch | PlatformMismatch
    | ResultArtifactMismatch | StaleEvidence | ExpiredEvidence | NonSyntheticExecution
    | ReviewNeedsMaintainer | ReviewMaintainerMismatch | ReviewGithubMismatch | ReviewPrecedesEvidence
    | NonGithubExecution | GithubIdentityMismatch | EvidenceStatus(status: Status) | WaivedBy(id: string)
    | NoApplicableRequirement | OfRequirement(id: string, reason: Reason)

  function When(c: bool, reason: Reason): seq<Reason> {
    if c then [reason] else []
  }

  /** matchesGithubReleaseExecutionIdentity. */
  predicate IsReleaseRun(run: Workflow, p: PolicyMaterial) {
    && run.repository == p.repository && run.repositoryId == p.repositoryId && run.path == p.workflowPath
    && run.workflowRef == run.repository + "/" + run.path + "@" + run.ref
    && run.sha == p.workflowSha && exists prefix | prefix in p.refPrefixes :: prefix <= run.ref
  }

  /** Some automatic evidence ended after the review. */
  predicate EndsAfter(results: seq<Result>, endedAt: int) {
    exists r | r in results :: r.kind != MaintainerSecurityReview && r.execution.endedAt > endedAt
  }

  function ExecutionReasons(p: PolicyMaterial, b: BundleMaterial, r: Result): seq<Reason> {
    var source := r.execution.source;
    if p.mode == SyntheticFoundation then When(!source.LocalSynthetic?, NonSyntheticExecution)
    else if r.kind == MaintainerSecurityReview then
      if !source.GithubMaintainerReview? then [ReviewNeedsMaintainer]
      else
        When(source.reviewer != MAINTAINER || source.actor != MAINTAINER, ReviewMaintainerMismatch)
        + When(!IsReleaseRun(source.run, p), ReviewGithubMismatch)
        + When(EndsAfter(b.results, r.execution.endedAt), ReviewPrecedesEvidence)
    else if !source.GithubActions? then [NonGithubExecution]
    else When(!IsReleaseRun(source.run, p), GithubIdentityMismatch)
  }

  predicate IsStale(q: Requirement, r: Result, now: int) {
    q.maxAgeSeconds.Some? && (r.execution.endedAt < now - q.maxAgeSeconds.value * 1000 || r.execution.endedAt > now)
  }

  function MismatchesOf(artifact: Artifact, q: Requirement, r: Result): seq<Reason> {
    When(r.kind != q.kind, KindMismatch)
    + When(r.gate != q.gate, GateMismatch)
    + When(r.capability != q.capability, CapabilityMismatch)
    + When(q.route != r.route, RouteMismatch)
    + When(q.platform != r.platform, PlatformMismatch)
    + When(r.artifact != artifact, ResultArtifactMismatch)
  }

  function AgeReasons(q: Requirement, r: Result, now: int): seq<Reason> {
    When(IsStale(q, r, now), StaleEvidence) + When(r.expiresAt.Some? && r.expiresAt.value <= now, ExpiredEvidence)
  }

  /** validateRequirementIdentity, and the evidence's own status. */
  function ItemReasons(p: PolicyMaterial, b: BundleMaterial, q: Requirement, r: Result, now: int): seq<Reason> {
    MismatchesOf(b.artifact, q, r) + AgeReasons(q, r, now) + ExecutionReasons(p, b, r)
    + When(r.status != Passed, EvidenceStatus(r.status))
  }

  predicate InForce(e: Exception, r: Result, now: int) {
    && e.evidenceId == r.evidenceId && e.gate == r.gate && e.capability == r.capability
    && e.approvedAt <= now < e.expiresAt
  }

  /** matchingException. */
  function MatchingException(exceptions: seq<Exception>, r: Result, now: int): Option<Exception> {
    if exceptions == [] then None
    else if InForce(exceptions[0], r, now) then Some(exceptions[0])
    else MatchingException(exceptions[1..], r, now)
  }

  datatype ItemStatus = ItemPassed | ItemBlocked | ItemWaived

  datatype Item = Item(requirement: Requirement, status: ItemStatus, reasons: seq<Reason>)

  function FindResult(results: seq<Result>, id: string): Option<Result> {
    if results == [] then None
    else if results[|results| - 1].evidenceId == id then Some(results[|results| - 1])
    else FindResult(results[..|results| - 1], id)
  }

  predicate Waivable(r: Result) {
    r.kind != MaintainerSecurityReview && r.gate != G0 && r.gate != G1
  }

  function ItemOf(p: PolicyMaterial, b: BundleMaterial, now: int, q: Requirement): Item {
    match FindResult(b.results, q.evidenceId)
    case None => Item(q, ItemBlocked, [MissingEvidence])
    case Some(r) =>
      var reasons := ItemReasons(p, b, q, r, now);
      var exception := MatchingException(b.exceptions, r, now);
      if reasons == [] then Item(q, ItemPassed, [])
      else if Waivable(r) && exception.Some? && exception.value.gate == q.gate
      then Item(q, ItemWaived, reasons + [WaivedBy(exception.value.exceptionId)])
      else Item(q, ItemBlocked, reasons)
  }

  function Items(p: PolicyMaterial, b: BundleMaterial, now: int): (r: seq<Item>)
    ensures |r| == |p.requirements| && forall i | 0 <= i < |r| :: r[i].requirement == p.requirements[i]
  {
    seq(|p.requirements|, i requires 0 <= i < |p.requirements| => ItemOf(p, b, now, p.requirements[i]))
  }

  // ---------------------------------------------------------------- the whole candidate

  function IdentityReasons(p: Policy, b: BundleMaterial, artifact: Artifact): seq<Reason> {
    When(b.artifact != artifact, ArtifactIdentityMismatch)
    + When(artifact.gatePolicyDigest != p.digest, GatePolicyIdentityMismatch)
    + When(artifact.repository != p.material.repository || artifact.repositoryId != p.material.repositoryId,
           RepositoryIdentityMismatch)
    + if p.material.mode == SyntheticFoundation
      then When(!b.nonDistributable || !b.syntheticTrustRoot, RequiresSyntheticRoot)
      else When(b.nonDistributable || b.syntheticTrustRoot, RejectsSyntheticEvidence)
  }

  predicate IsRequired(p: PolicyMaterial, id: string) {
    exists q | q in p.requirements :: q.evidenceId == id
  }

  function Unexpected(p: PolicyMaterial, results: seq<Result>): seq<Reason> {
    if results == [] then []
    else
      var r := results[|results| - 1];
      Unexpected(p, results[..|results| - 1]) + When(!IsRequired(p, r.evidenceId), UnexpectedEvidence(r.evidenceId))
  }

  function FirstReview(results: seq<Result>): Option<Result> {
    if results == [] then None
    else if results[0].kind == MaintainerSecurityReview then Some(results[0])
    else FirstReview(results[1..])
  }

  /** The dispositions of P2 risks: those of the first review among the results. */
  function Dispositions(results: seq<Result>): seq<Disposition> {
    match FirstReview(results)
    case Some(r) => if r.review.Some? then r.review.value.dispositions else []
    case None => []
  }

  predicate IsAccepted(ds: seq<Disposition>, id: string) {
    exists d | d in ds :: d.riskId == id && d.standing == Accepted
  }

  function ReasonsOfRisk(risk: Risk, ds: seq<Disposition>): seq<Reason> {
    match risk.status
    case Open => [OpenRisk(risk.severity, risk.riskId)]
    case Settled(standing) =>
      if standing == Accepted && risk.severity != P2 then [UnresolvedRisk(risk.severity, risk.riskId)]
      else When(standing == Accepted && !IsAccepted(ds, risk.riskId), DispositionMissing(risk.riskId))
  }

  function RiskReasons(risks: seq<Risk>, ds: seq<Disposition>): seq<Reason> {
    if risks == [] then []
    else RiskReasons(risks[..|risks| - 1], ds) + ReasonsOfRisk(risks[|risks| - 1], ds)
  }

  function FindRisk(risks: seq<Risk>, id: string): Option<Risk> {
    if risks == [] then None
    else if risks[0].riskId == id then Some(risks[0])
    else FindRisk(risks[1..], id)
  }

  predicate Agrees(d: Disposition, risks: seq<Risk>) {
    match FindRisk(risks, d.riskId)
    case Some(risk) => risk.severity == P2 && risk.status == Settled(d.standing)
    case None => false
  }

  function MismatchReasons(ds: seq<Disposition>, risks: seq<Risk>): seq<Reason> {
    if ds == [] then []
    else
      var d := ds[|ds| - 1];
      MismatchReasons(ds[..|ds| - 1], risks) + When(!Agrees(d, risks), DispositionMismatch(d.riskId))
  }

  /** Everything that blocks the candidate before the manual approval is looked at. */
  function ReasonsSoFar(p: Policy, b: BundleMaterial, artifact: Artifact): seq<Reason> {
    IdentityReasons(p, b, artifact) + Unexpected(p.material, b.results)
    + RiskReasons(b.risks, Dispositions(b.results)) + MismatchReasons(Dispositions(b.results), b.risks)
  }

  function FindItem(items: seq<Item>, requirementId: string): Option<Item> {
    if items == [] then None
    else if items[0].requirement.requirementId == requirementId then Some(items[0])
    else FindItem(items[1..], requirementId)
  }

  /** collectRequiredManualApprovals: whether the maintainer's approval is missing. */
  predicate NeedsApproval(p: PolicyMaterial, items: seq<Item>, soFar: seq<Reason>) {
    p.mode == GithubRelease &&
    var security := SecurityRequirements(p.requirements);
    !(security != [] && soFar == []
      && match FindItem(items, security[0].requirementId)
         case Some(item) => item.status == ItemPassed
         case None => false)
  }

  function GlobalReasons(p: Policy, b: BundleMaterial, artifact: Artifact, now: int): seq<Reason> {
    var soFar := ReasonsSoFar(p, b, artifact);
    soFar + When(NeedsApproval(p.material, Items(p.material, b, now), soFar), ManualApprovalMissing)
  }

  // ---------------------------------------------------------------- the decision

  function Tagged(item: Item): set<Reason> {
    set reason | reason in item.reasons :: OfRequirement(item.requirement.requirementId, reason)
  }

  /** The reasons of the blocked items of a scope: no capability, or one. */
  function BlockedReasons(items: seq<Item>, capability: Option<string>): set<Reason> {
    set item, reason | item in items && item.requirement.capability == capability && item.status == ItemBlocked
                       && reason in Tagged(item) :: reason
  }

  function Set(reasons: seq<Reason>): set<Reason> { set reason | reason in reasons }

  predicate Applies(items: seq<Item>, capability: string) {
    exists item | item in items :: item.requirement.capability == Some(capability)
  }

  function CapabilityReasons(items: seq<Item>, global: seq<Reason>, capability: string): set<Reason> {
    Set(global) + BlockedReasons(items, None)
    + (if Applies(items, capability) then {} else {NoApplicableRequirement}) + BlockedReasons(items, Some(capability))
  }

  function GateReasons(items: seq<Item>, global: seq<Reason>, gate: Gate): set<Reason> {
    Set(global) + (set item, reason | item in items && item.requirement.gate == gate
      && item.requirement.capability.None?
                                      && item.status == ItemBlocked && reason in Tagged(item) :: reason)
  }

  datatype GateStatus = GatePassed | GateBlocked | NotApplicable

  function GateStatusOf(items: seq<Item>, global: seq<Reason>, gate: Gate): GateStatus {
    if GateReasons(items, global, gate) != {} then GateBlocked
    else if exists item | item in items :: item.requirement.gate == gate && item.requirement.capability.None?
    then GatePassed
    else NotApplicable
  }

  datatype Overall = ApprovedFoundation | ApprovedCandidate | OverallBlocked

  datatype Decision = Decision(
    overall: Overall,
    gates: map<Gate, GateStatus>,
    enabled: set<string>,
    items: seq<Item>,
    needsApproval: bool)

  function Conclude(p: PolicyMaterial, items: seq<Item>, global: seq<Reason>, needsApproval: bool): Decision {
    var gates := map gate: Gate | gate in GATES :: GateStatusOf(items, global, gate);
    Decision(
      if exists gate | gate in gates :: gates[gate] == GateBlocked then OverallBlocked
      else if p.mode == SyntheticFoundation then ApprovedFoundation
      else ApprovedCandidate,
      gates,
      (set capability | capability in p.capabilities && CapabilityReasons(items, global, capability) == {}),
      items,
      needsApproval)
  }

  function Decide(p: Policy, b: BundleMaterial, artifact: Artifact, now: int): Decision {
    var items := Items(p.material, b, now);
    Conclude(p.material, items, GlobalReasons(p, b, artifact, now),
      NeedsApproval(p.material, items, ReasonsSoFar(p, b, artifact)))
  }

  /** The inputs are checked against their schemas and digests before anything else. */
  predicate IsReadable(digests: Digests, p: Policy, b: Bundle, now: Option<int>) {
    && IsPolicy(p.material) && p.digest == digests.policy(p.material)
    && IsBundle(b.material) && b.digest == digests.bundle(b.material) && now.Some?
  }

  /** evaluateReleaseGate; none stands for an exception. */
  method EvaluateReleaseGate(digests: Digests, p: Policy, b: Bundle, artifact: Artifact, now: Option<int>)
        returns (d: Option<Decision>)
    ensures d == if IsReadable(digests, p, b, now) then Some(Decide(p, b.material, artifact, now.value)) else None
  {
    if !IsReadable(digests, p, b, now) {
      return None;
    }
    var decision := Judge(p, b.material, artifact, now.value);
    return Some(decision);
  }

  method Judge(p: Policy, b: BundleMaterial, artifact: Artifact, now: int) returns (d: Decision)
    ensures d == Decide(p, b, artifact, now)
  {
    var soFar := CollectReasons(p, b, artifact);
    var items := Items(p.material, b, now);
    var needsApproval := NeedsApproval(p.material, items, soFar);
    var global := soFar + When(needsApproval, ManualApprovalMissing);
    assert global == GlobalReasons(p, b, artifact, now);
    return Conclude(p.material, items, global, needsApproval);
  }

  /** The loops that push what is wrong with the bundle as a whole. */
  method CollectReasons(p: Policy, b: BundleMaterial, artifact: Artifact) returns (global: seq<Reason>)
    ensures global == ReasonsSoFar(p, b, artifact)
  {
    global := IdentityReasons(p, b, artifact);
    global := CheckResults(global, p.material, b.results);
    var ds := Dispositions(b.results);
    global := CheckRisks(global, b.risks, ds);
    global := CheckDispositions(global, ds, b.risks);
  }

  method CheckResults(before: seq<Reason>, p: PolicyMaterial, results: seq<Result>) returns (global: seq<Reason>)
    ensures global == before + Unexpected(p, results)
  {
    global := before;
    for i := 0 to |results|
      invariant global == before + Unexpected(p, results[..i])
    {
      assert results[..i + 1][..i] == results[..i];
      if !IsRequired(p, results[i].evidenceId) {
        global := global + [UnexpectedEvidence(results[i].evidenceId)];
      }
    }
    assert results[..|results|] == results;
  }

  method CheckRisks(before: seq<Reason>, risks: seq<Risk>, ds: seq<Disposition>) returns (global: seq<Reason>)
    ensures global == before + RiskReasons(risks, ds)
  {
    global := before;
    for i := 0 to |risks|
      invariant global == before + RiskReasons(risks[..i], ds)
    {
      assert risks[..i + 1][..i] == risks[..i];
      global := global + ReasonsOfRisk(risks[i], ds);
    }
    assert risks[..|risks|] == risks;
  }

  method CheckDispositions(before: seq<Reason>, ds: seq<Disposition>, risks: seq<Risk>) returns (global: seq<Reason>)
    ensures global == before + MismatchReasons(ds, risks)
  {
    global := before;
    for i := 0 to |ds|
      invariant global == before + MismatchReasons(ds[..i], risks)
    {
      assert ds[..i + 1][..i] == ds[..i];
      if !Agrees(ds[i], risks) {
        global := global + [DispositionMismatch(ds[i].riskId)];
      }
    }
    assert ds[..|ds|] == ds;
  }
}
