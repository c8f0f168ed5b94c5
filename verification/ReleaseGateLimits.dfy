/** Three promises of the release gate that its code keeps only under a condition, with the exact condition. */
module ReleaseGateLimits {
  import opened Basics
  import opened ReleaseGate
  import opened ReleaseGateTheorems

  // ---------------------------------------------------------------- what can be waived

  function OtherCapability(q: Requirement): (c: Option<string>)
    ensures c != q.capability
  {
    if q.capability.None? then Some("other") else None
  }

  /** Failed evidence of another kind and scope, under the requirement's evidence id. */
  function Stray(q: Requirement, artifact: Artifact): Result {
    Result(q.evidenceId, Automatic("unit_contract"), q.gate, OtherCapability(q), Failed, artifact,
           Execution(LocalSynthetic, artifact.commit, 0, 0), None, None, None, None)
  }

  function Excuse(q: Requirement): Exception {
    Exception("exception", q.evidenceId, q.gate, OtherCapability(q), 0, 1)
  }

  function StrayBundle(q: Requirement, artifact: Artifact): BundleMaterial {
    BundleMaterial(artifact, false, false, [Stray(q, artifact)], [], [Excuse(q)])
  }

  lemma StrayIsWaived(p: PolicyMaterial, q: Requirement, artifact: Artifact)
    requires q.gate != G0 && q.gate != G1
    ensures IsBundle(StrayBundle(q, artifact)) && IsWaived(p, StrayBundle(q, artifact), q, 0)
  {
    var b, r := StrayBundle(q, artifact), Stray(q, artifact);
    assert r in b.results && Excuse(q) in b.exceptions && Excused(p, b, q, r, Excuse(q), 0);
  }

  ghost predicate CanBeWaived(p: PolicyMaterial, q: Requirement, artifact: Artifact) {
    exists b, now :: IsBundle(b) && b.artifact == artifact && IsWaived(p, b, q, now)
  }

  /** A requirement can be waived exactly when its gate is not G0 or G1: the test looks at the kind of the evidence,
      so a requirement of the maintainer's review at a later gate is waived when its evidence is of another kind. */
  lemma WaivableExactly(p: PolicyMaterial, q: Requirement, artifact: Artifact)
    ensures CanBeWaived(p, q, artifact) <==> q.gate != G0 && q.gate != G1
  {
    if q.gate != G0 && q.gate != G1 {
      StrayIsWaived(p, q, artifact);
    }
  }

  /** An exception in force for the requirement's own evidence, gate and capability. */
  ghost predicate HasOwnException(b: BundleMaterial, q: Requirement, now: int) {
    exists e :: e in b.exceptions && e.evidenceId == q.evidenceId && e.gate == q.gate && e.capability == q.capability
                && e.approvedAt <= now < e.expiresAt
  }

  /** The exception is matched against the capability of the evidence, so every requirement that can be waived can be
      waived by an exception for another capability. */
  lemma OwnExceptionExactly(p: PolicyMaterial, q: Requirement, artifact: Artifact)
    ensures (forall b, now | IsBundle(b) && b.artifact == artifact && IsWaived(p, b, q, now) ::
            HasOwnException(b, q, now)) <==> q.gate == G0 || q.gate == G1
  {
    if q.gate != G0 && q.gate != G1 {
      StrayIsWaived(p, q, artifact);
      assert !HasOwnException(StrayBundle(q, artifact), q, 0);
    }
  }

  /** In one bundle: a waiver whose evidence has the requirement's capability rests on an exception of its own. */
  lemma OwnExceptionInBundle(p: PolicyMaterial, b: BundleMaterial, q: Requirement, now: int)
    requires IsBundle(b) && IsWaived(p, b, q, now)
    requires forall r | r in b.results && r.evidenceId == q.evidenceId :: r.capability == q.capability
    ensures HasOwnException(b, q, now)
  {
    var r, e :| r in b.results && r.evidenceId == q.evidenceId && e in b.exceptions && Excused(p, b, q, r, e, now);
    assert e.capability == q.capability;
  }

  // ---------------------------------------------------------------- who disposes of P2 risks

  /** Every accepted P2 risk was accepted in the review that fulfils the policy's review requirement. */
  ghost predicate ReviewerAccepted(p: PolicyMaterial, b: BundleMaterial)
    requires IsPolicy(p) && p.mode == GithubRelease
  {
    forall risk | risk in b.risks && risk.severity == P2 && risk.status == Settled(Accepted) ::
      exists r :: r in b.results && r.evidenceId == Security(p).evidenceId && r.review.Some?
                  && IsAccepted(r.review.value.dispositions, risk.riskId)
  }

  lemma {:induction false} FirstReviewFound(results: seq<Result>)
    ensures FirstReview(results).Some? ==>
              && FirstReview(results).value in results
              && FirstReview(results).value.kind == MaintainerSecurityReview
    decreases |results|
  {
    if results != [] {
      FirstReviewFound(results[1..]);
    }
  }

  /** A review offered for any other global requirement blocks the candidate, for its kind is wrong and it cannot be
      waived. */
  lemma OnlyReview(p: Policy, b: BundleMaterial, artifact: Artifact, now: int, r: Result)
    requires IsPolicy(p.material) && IsBundle(b) && Decide(p, b, artifact, now).overall == ApprovedCandidate
    requires forall q | q in p.material.requirements :: q.capability.None?
    requires r in b.results && r.kind == MaintainerSecurityReview
    ensures r.evidenceId == Security(p.material).evidenceId
  {
    ApprovedExactly(p, b, artifact, now);
    SecurityIsUnique(p.material);
    assert IsRequired(p.material, r.evidenceId);
    var q :| q in p.material.requirements && q.evidenceId == r.evidenceId;
    assert IsMet(p.material, b, q, now);
    FoundResult(b.results, q.evidenceId);
  }

  lemma WithoutCapabilities(p: Policy, b: BundleMaterial, artifact: Artifact, now: int)
    requires IsPolicy(p.material) && IsBundle(b) && Decide(p, b, artifact, now).overall == ApprovedCandidate
    requires forall q | q in p.material.requirements :: q.capability.None?
    ensures ReviewerAccepted(p.material, b)
  {
    FirstReviewFound(b.results);
    var found := FirstReview(b.results);
    if found.Some? {
      OnlyReview(p, b, artifact, now, found.value);
    }
    assert IsCleared(p, b, artifact) by {
      ApprovedExactly(p, b, artifact, now);
    }
    forall risk | risk in b.risks && risk.severity == P2 && risk.status == Settled(Accepted)
      ensures exists r :: r in b.results && r.evidenceId == Security(p.material).evidenceId && r.review.Some?
                          && IsAccepted(r.review.value.dispositions, risk.riskId)
    {
      assert SafeRisk(risk, Dispositions(b.results));
    }
  }

  function ReleaseRun(p: PolicyMaterial): (run: Workflow)
    requires p.refPrefixes != []
    ensures IsReleaseRun(run, p)
  {
    var ref := p.refPrefixes[0];
    assert ref in p.refPrefixes && ref <= ref;
    Workflow(p.repository, p.repositoryId, p.workflowPath, p.repository + "/" + p.workflowPath + "@" + ref,
             p.workflowSha, ref)
  }

  predicate IsBound(q: Requirement) {
    q.kind == MaintainerSecurityReview ==> q.route.Some? && q.platform.Some?
  }

  /** Evidence that fulfils a requirement, without any disposition. */
  function ResultFor(p: PolicyMaterial, q: Requirement, artifact: Artifact): (r: Result)
    requires p.refPrefixes != [] && IsBound(q)
    ensures IsResult(r) && r.execution.endedAt == 0 && (r.review.Some? ==> r.review.value.dispositions == [])
  {
    var run := ReleaseRun(p);
    if q.kind == MaintainerSecurityReview then
      Result(q.evidenceId, q.kind, q.gate, q.capability, Passed, artifact,
             Execution(GithubMaintainerReview(run, MAINTAINER, MAINTAINER), artifact.commit, 0, 0),
             q.route, q.platform, None,
             Some(Review(true, artifact, q.route.value, q.platform.value, MAINTAINER, 0, run, MAINTAINER, [])))
    else
      Result(q.evidenceId, q.kind, q.gate, q.capability, Passed, artifact,
             Execution(GithubActions(run), artifact.commit, 0, 0), q.route, q.platform, None, None)
  }

  /** A review by anyone, offered as the evidence of a capability, that accepts a risk. */
  function Bystander(p: PolicyMaterial, q: Requirement, artifact: Artifact, riskId: string): (r: Result)
    requires p.refPrefixes != []
    ensures IsResult(r)
  {
    Result(q.evidenceId, MaintainerSecurityReview, q.gate, q.capability, Passed, artifact,
           Execution(External, artifact.commit, 0, 0), Some("route"), Some("platform"), None,
           Some(Review(true, artifact, "route", "platform", "anyone", 0, ReleaseRun(p), "anyone",
             [Disposition(riskId, Accepted)])))
  }

  function ResultsFor(p: PolicyMaterial, requirements: seq<Requirement>, artifact: Artifact): (r: seq<Result>)
    requires p.refPrefixes != [] && forall q | q in requirements :: IsBound(q)
    ensures |r| == |requirements| && forall i | 0 <= i < |r| :: r[i] == ResultFor(p, requirements[i], artifact)
  {
    seq(|requirements|, i requires 0 <= i < |requirements| => ResultFor(p, requirements[i], artifact))
  }

  function BystanderBundle(p: PolicyMaterial, q: Requirement, others: seq<Requirement>, artifact: Artifact,
                           riskId: string): BundleMaterial
    requires p.refPrefixes != [] && forall o | o in others :: IsBound(o)
  {
    BundleMaterial(artifact, false, false, [Bystander(p, q, artifact, riskId)] + ResultsFor(p, others, artifact),
                   [Risk(riskId, P2, Settled(Accepted))], [])
  }

  /** The requirements of a policy, one of them put first. */
  ghost predicate IsSplit(p: PolicyMaterial, q: Requirement, others: seq<Requirement>) {
    && (forall o :: o in p.requirements <==> o == q || o in others)
    && (forall o | o in others :: o.evidenceId != q.evidenceId)
    && (forall i, j | 0 <= i < j < |others| :: others[i].evidenceId != others[j].evidenceId)
  }

  lemma SplitOff(p: PolicyMaterial, k: nat) returns (others: seq<Requirement>)
    requires IsPolicy(p) && k < |p.requirements|
    ensures IsSplit(p, p.requirements[k], others)
  {
    var qs := p.requirements;
    others := qs[..k] + qs[k + 1..];
    forall i | 0 <= i < |others|
      ensures others[i] == qs[if i < k then i else i + 1]
    {
    }
    forall o
      ensures o in qs <==> o == qs[k] || o in others
    {
      if o in qs {
        var i :| 0 <= i < |qs| && qs[i] == o;
        assert i < k ==> others[i] == o;
        assert i > k ==> others[i - 1] == o;
      }
    }
  }

  lemma BystanderIsBundle(p: PolicyMaterial, q: Requirement, others: seq<Requirement>, artifact: Artifact,
                          riskId: string)
    requires p.refPrefixes != [] && (forall o | o in others :: IsBound(o)) && IsSplit(p, q, others)
    ensures IsBundle(BystanderBundle(p, q, others, artifact, riskId))
  {
    var b := BystanderBundle(p, q, others, artifact, riskId);
    forall i | 0 <= i < |b.results|
      ensures IsResult(b.results[i]) && b.results[i].artifact == artifact
      ensures b.results[i].evidenceId == if i == 0 then q.evidenceId else others[i - 1].evidenceId
    {
      assert i > 0 ==> b.results[i] == ResultFor(p, others[i - 1], artifact);
    }
  }

  lemma ResultFulfils(p: PolicyMaterial, b: BundleMaterial, o: Requirement)
    requires p.refPrefixes != [] && IsBound(o) && p.mode == GithubRelease && !EndsAfter(b.results, 0)
    ensures Fulfils(p, b, o, ResultFor(p, o, b.artifact), 0)
  {
  }

  lemma NoneEndsAfter(p: PolicyMaterial, q: Requirement, others: seq<Requirement>, artifact: Artifact, riskId: string)
    requires p.refPrefixes != [] && (forall x | x in others :: IsBound(x))
    ensures !EndsAfter(BystanderBundle(p, q, others, artifact, riskId).results, 0)
  {
    var first, more := Bystander(p, q, artifact, riskId), ResultsFor(p, others, artifact);
    forall x | x in [first] + more
      ensures x.execution.endedAt == 0
    {
      assert x == first || x in more;
    }
  }

  lemma BystanderFulfils(p: PolicyMaterial, q: Requirement, others: seq<Requirement>, artifact: Artifact,
                         riskId: string, o: Requirement)
    requires p.refPrefixes != [] && (forall x | x in others :: IsBound(x)) && o in others && p.mode == GithubRelease
    ensures IsFulfilled(p, BystanderBundle(p, q, others, artifact, riskId), o, 0)
  {
    var b := BystanderBundle(p, q, others, artifact, riskId);
    NoneEndsAfter(p, q, others, artifact, riskId);
    ResultFulfils(p, b, o);
    var i :| 0 <= i < |others| && others[i] == o;
    assert b.results[i + 1] == ResultFor(p, o, artifact);
  }

  lemma BystanderIsCleared(p: Policy, q: Requirement, others: seq<Requirement>, artifact: Artifact, riskId: string)
    requires p.material.refPrefixes != [] && (forall x | x in others :: IsBound(x)) && p.material.mode == GithubRelease
    requires IsSplit(p.material, q, others)
    requires artifact.gatePolicyDigest == p.digest && artifact.repository == p.material.repository
             && artifact.repositoryId == p.material.repositoryId
    ensures IsCleared(p, BystanderBundle(p.material, q, others, artifact, riskId), artifact)
  {
    var b := BystanderBundle(p.material, q, others, artifact, riskId);
    forall r | r in b.results
      ensures IsRequired(p.material, r.evidenceId)
    {
      var i :| 0 <= i < |b.results| && b.results[i] == r;
      var o := if i == 0 then q else others[i - 1];
      assert o in p.material.requirements && o.evidenceId == r.evidenceId;
    }
    var d := Disposition(riskId, Accepted);
    assert b.results[0].kind == MaintainerSecurityReview;
    assert Dispositions(b.results) == [d] && d in [d];
    assert FindRisk(b.risks, riskId) == Some(b.risks[0]);
  }

  /** With a requirement scoped to a capability, some bundle is approved although its reviewer accepted nothing. */
  lemma WithCapability(p: Policy, k: nat, artifact: Artifact, riskId: string) returns (b: BundleMaterial)
    requires IsPolicy(p.material) && p.material.mode == GithubRelease && k < |p.material.requirements|
    requires p.material.requirements[k].capability.Some?
    requires artifact.gatePolicyDigest == p.digest && artifact.repository == p.material.repository
             && artifact.repositoryId == p.material.repositoryId
    ensures IsBundle(b) && Decide(p, b, artifact, 0).overall == ApprovedCandidate && !ReviewerAccepted(p.material, b)
  {
    var q := p.material.requirements[k];
    var others := SplitOff(p.material, k);
    SecurityIsUnique(p.material);
    var security := Security(p.material);
    forall o | o in others
      ensures IsBound(o)
    {
    }
    b := BystanderBundle(p.material, q, others, artifact, riskId);
    BystanderIsBundle(p.material, q, others, artifact, riskId);
    BystanderIsCleared(p, q, others, artifact, riskId);
    forall o | o in others
      ensures IsFulfilled(p.material, b, o, 0)
    {
      BystanderFulfils(p.material, q, others, artifact, riskId, o);
    }
    assert security in others && AllMet(p.material, b, None, 0);
    ApprovedExactly(p, b, artifact, 0);
    NotAccepted(p.material, q, others, artifact, riskId);
  }

  lemma NotAccepted(p: PolicyMaterial, q: Requirement, others: seq<Requirement>, artifact: Artifact, riskId: string)
    requires IsPolicy(p) && p.mode == GithubRelease && (forall x | x in others :: IsBound(x)) && Security(p) in others
             && IsSplit(p, q, others)
    ensures !ReviewerAccepted(p, BystanderBundle(p, q, others, artifact, riskId))
  {
    var b := BystanderBundle(p, q, others, artifact, riskId);
    assert b.risks[0] in b.risks;
    forall r | r in b.results && r.evidenceId == Security(p).evidenceId
      ensures r.review.Some? ==> r.review.value.dispositions == []
    {
      var i :| 0 <= i < |b.results| && b.results[i] == r;
      assert i > 0;
      assert r == ResultFor(p, others[i - 1], artifact);
    }
  }

  /** Accepted P2 risks are those the policy's own review accepted, in every approved bundle, exactly when the policy
      scopes no requirement to a capability: the first review among the results speaks for all. */
  lemma ReviewerAcceptsExactly(p: Policy, artifact: Artifact)
    requires IsPolicy(p.material) && p.material.mode == GithubRelease
    requires artifact.gatePolicyDigest == p.digest && artifact.repository == p.material.repository
             && artifact.repositoryId == p.material.repositoryId
    ensures (forall b, now | IsBundle(b) && Decide(p, b, artifact, now).overall == ApprovedCandidate ::
            ReviewerAccepted(p.material, b))
            <==> forall q | q in p.material.requirements :: q.capability.None?
  {
    if forall q | q in p.material.requirements :: q.capability.None? {
      forall b, now | IsBundle(b) && Decide(p, b, artifact, now).overall == ApprovedCandidate
        ensures ReviewerAccepted(p.material, b)
      {
        WithoutCapabilities(p, b, artifact, now);
      }
    } else {
      var k :| 0 <= k < |p.material.requirements| && p.material.requirements[k].capability.Some?;
      var b := WithCapability(p, k, artifact, "risk");
    }
  }
}
