/** What a failed operation leaves behind: which temporaries, and whether the root can still be used. */
module ManagedInstallTidy {
  import opened Basics
  import opened ManagedInstall
  import opened ManagedInstallSafety
  import opened ManagedInstallTheorems

  // ---------------------------------------------------------------- a running operation owns its temporaries

  predicate WritesMarker(pc: Pc) {
    pc.MarkerWriting? || pc.MarkerReady? || pc.MarkerMove?
  }

  /** The staging directory of the release, while it is filled and verified. */
  predicate OwnStaging(staging: Releases, id: Id, pc: Pc) {
    staging.Keys == if pc.Staging? || pc.Staged? then {id} else {}
  }

  predicate OwnBinTmp(binTmp: Bin, pc: Pc) {
    binTmp.Keys == if pc.Copying? || pc.Copied? then {BinName(Nth(pc.i), pc.exe)} else {}
  }

  predicate OwnPubTmp(p: Pub, pc: Pc) {
    && (p.pointerTmp.Some? <==> pc.PointerWriting? || pc.PointerReady?)
    && (p.markerTmp.Some? <==> WritesMarker(pc))
  }

  predicate HasNoTemporary(d: Disk) {
    d.store.staging == map[] && d.store.binTmp == map[] && d.pub.pointerTmp.None? && d.pub.markerTmp.None?
  }

  predicate TidyStore(d: Store, id: Id, pc: Pc) {
    OwnStaging(d.staging, id, pc) && OwnBinTmp(d.binTmp, pc) && (!pc.MakeReleases? ==> d.releasesDir)
  }

  predicate TidyPub(w: World, p: Pub, plan: Plan, pc: Pc) {
    && OwnPubTmp(p, pc) && PubAt(p, plan, pc)
    && plan.next.root == w.root && plan.next.current == plan.id && (plan.before.None? ==> plan.source.Some?)
  }

  /** A first install starts in an empty root, and only an install stages. */
  predicate AsFound(d: Disk, plan: Plan, pc: Pc) {
    (plan.before.None? && pc.MakeReleases? ==> Entries(d) == {}) && (pc.Staging? || pc.Staged? ==> plan.source.Some?)
  }

  /** What is known of an operation under way, whatever happened to the root before it. */
  predicate Tidy(w: World, d: Disk, plan: Plan, pc: Pc) {
    TidyStore(d.store, plan.id, pc) && TidyPub(w, d.pub, plan, pc) && AsFound(d, plan, pc)
  }

  predicate TidyState(w: World, s: State) {
    s.proc.Working? ==> s.disk.present && Tidy(w, s.disk, s.proc.plan, s.proc.pc)
  }

  // ---------------------------------------------------------------- entries

  lemma EmptyRootIsEmpty(d: Disk)
    requires Entries(d) == {}
    ensures HasNoTemporary(d)
  {
    EntriesCoverTemporaries(d);
    forall id
      ensures id !in d.store.staging
    {
      assert StagingEntry(id) !in Entries(d);
    }
    forall n
      ensures n !in d.store.binTmp
    {
      assert LauncherTmpEntry(n) !in Entries(d);
    }
    assert MarkerTmpEntry !in Entries(d) && PointerTmpEntry !in Entries(d);
  }

  lemma CheckedRootIsTidy(w: World, d: Disk, m: Marker)
    requires CheckedTree(w, d, m)
    ensures HasNoTemporary(d) && d.store.releasesDir && d.store.binDir
  {
    CheckedTreeHasNoTemporary(w, d, m);
  }

  lemma EntryIsTidy(w: World, d: Disk, plan: Plan, pc: Pc)
    requires HasNoTemporary(d) && (pc.MakeReleases? || pc.Recheck?)
    requires PubAt(d.pub, plan, pc) && plan.next.root == w.root && plan.next.current == plan.id
    requires plan.before.None? ==> plan.source.Some? && pc.MakeReleases? && Entries(d) == {}
    requires plan.before.Some? ==> d.store.releasesDir
    ensures Tidy(w, d, plan, pc)
  {
    NoTemporaryIsOwn(d, plan.id, pc);
  }

  lemma NoTemporaryIsOwn(d: Disk, id: Id, pc: Pc)
    requires HasNoTemporary(d) && (pc.MakeReleases? || pc.Recheck?)
    ensures OwnStaging(d.store.staging, id, pc) && OwnBinTmp(d.store.binTmp, pc) && OwnPubTmp(d.pub, pc)
  {
  }

  lemma InstallEntersTidily(w: World, d: Disk, c: Candidate)
    ensures var p := EnterInstall(w, d, c); p.Working? ==> Tidy(w, d, p.plan, p.pc)
  {
    var p := EnterInstall(w, d, c);
    if p.Working? {
      if d.pub.marker.None? {
        EmptyRootIsEmpty(d);
      } else {
        CheckedRootIsTidy(w, d, d.pub.marker.value.content);
      }
      EntryIsTidy(w, d, p.plan, p.pc);
    }
  }

  lemma RollbackEntersTidily(w: World, d: Disk)
    ensures var p := EnterRollback(w, d); p.Working? ==> Tidy(w, d, p.plan, p.pc)
  {
    var p := EnterRollback(w, d);
    if p.Working? {
      RollbackEnters(w, d);
      CheckedRootIsTidy(w, d, LoadMarker(w, d).value);
      EntryIsTidy(w, d, p.plan, p.pc);
    }
  }

  // ---------------------------------------------------------------- steps

  lemma StagingStep(w: World, d: Store, plan: Plan, pc: Pc, markerFree: bool)
    requires InReleasePhase(pc) && TidyStore(d, plan.id, pc)
    ensures var r := ReleaseStep(w, d, plan, pc, markerFree);
            r.next.Some? ==> TidyStore(r.left, plan.id, r.next.value)
  {
    match pc
    case MakeReleases =>
    case Materialize => assert d.staging[plan.id := map[]].Keys == d.staging.Keys + {plan.id};
    case Staging =>
    case Staged => assert (d.staging - {plan.id}).Keys == d.staging.Keys - {plan.id};
    case Recheck =>
  }

  /** Where a step of the release phase may lead. */
  lemma StagingLeads(w: World, d: Store, plan: Plan, pc: Pc, markerFree: bool)
    requires InReleasePhase(pc)
    ensures var r := ReleaseStep(w, d, plan, pc, markerFree);
            r.next.Some? ==>
              && !r.next.value.MakeReleases? && (InReleasePhase(r.next.value) || r.next.value.MakeBin?)
              && (r.next.value.Staging? || r.next.value.Staged? ==> plan.source.Some?)
  {
  }

  lemma BinStep(w: World, d: Store, id: Id, pc: Pc)
    requires InLaunchPhase(pc) && TidyStore(d, id, pc)
    ensures var r := LaunchStep(w, d, id, pc);
            r.next.Some? ==>
              (InLaunchPhase(r.next.value) || r.next.value.PointerStart?) && TidyStore(r.left, id, r.next.value)
  {
  }

  lemma PubStep(w: World, p: Pub, plan: Plan, pc: Pc)
    requires !InReleasePhase(pc) && !InLaunchPhase(pc) && TidyPub(w, p, plan, pc)
    ensures var r := PublishStep(w, p, plan, pc);
            r.next.Some? ==>
              && !InReleasePhase(r.next.value) && !InLaunchPhase(r.next.value)
              && TidyPub(w, r.left, plan, r.next.value)
  {
    PublishStepKeeps(w, p, plan, pc);
  }

  /** The parts of the invariant that a step does not touch. */
  lemma SameStore(d: Store, id: Id, pc: Pc, next: Pc)
    requires TidyStore(d, id, pc) && !InReleasePhase(pc) && !InLaunchPhase(pc) && !InReleasePhase(next)
             && !InLaunchPhase(next)
    ensures TidyStore(d, id, next)
  {
  }

  lemma SamePub(w: World, p: Pub, plan: Plan, pc: Pc, next: Pc)
    requires TidyPub(w, p, plan, pc) && (InReleasePhase(pc) || InLaunchPhase(pc))
    requires InReleasePhase(next) || InLaunchPhase(next) || next.PointerStart?
    ensures TidyPub(w, p, plan, next)
  {
  }

  lemma ReleaseStepIsTidy(w: World, d: Disk, plan: Plan, pc: Pc, r: Step<Store>)
    requires Tidy(w, d, plan, pc) && InReleasePhase(pc) && r == ReleaseStep(w, d.store, plan, pc, d.pub.markerTmp.None?)
    ensures r.next.Some? ==> Tidy(w, d.(store := r.left), plan, r.next.value)
  {
    StagingStep(w, d.store, plan, pc, d.pub.markerTmp.None?);
    StagingLeads(w, d.store, plan, pc, d.pub.markerTmp.None?);
    if r.next.Some? {
      SamePub(w, d.pub, plan, pc, r.next.value);
    }
  }

  lemma LaunchStepIsTidy(w: World, d: Disk, plan: Plan, pc: Pc, r: Step<Store>)
    requires Tidy(w, d, plan, pc) && InLaunchPhase(pc) && r == LaunchStep(w, d.store, plan.id, pc)
    ensures r.next.Some? ==> Tidy(w, d.(store := r.left), plan, r.next.value)
  {
    BinStep(w, d.store, plan.id, pc);
    if r.next.Some? {
      SamePub(w, d.pub, plan, pc, r.next.value);
    }
  }

  lemma PublishStepIsTidy(w: World, d: Disk, plan: Plan, pc: Pc, r: Step<Pub>)
    requires Tidy(w, d, plan, pc) && !InReleasePhase(pc) && !InLaunchPhase(pc) && r == PublishStep(w, d.pub, plan, pc)
    ensures r.next.Some? ==> Tidy(w, d.(pub := r.left), plan, r.next.value)
  {
    PubStep(w, d.pub, plan, pc);
    if r.next.Some? {
      SameStore(d.store, plan.id, pc, r.next.value);
    }
  }

  lemma AdvanceIsTidy(w: World, s: State, plan: Plan, pc: Pc)
    requires s.proc == Working(plan, pc) && s.disk.present && Tidy(w, s.disk, plan, pc)
    ensures TidyState(w, Advance(w, s, plan, pc))
  {
    if InReleasePhase(pc) {
      ReleaseStepIsTidy(w, s.disk, plan, pc, ReleaseStep(w, s.disk.store, plan, pc, s.disk.pub.markerTmp.None?));
    } else if InLaunchPhase(pc) {
      LaunchStepIsTidy(w, s.disk, plan, pc, LaunchStep(w, s.disk.store, plan.id, pc));
    } else {
      PublishStepIsTidy(w, s.disk, plan, pc, PublishStep(w, s.disk.pub, plan, pc));
    }
  }

  lemma ScribbleIsTidy(w: World, d: Disk, plan: Plan, pc: Pc, tree: Tree, bytes: Bytes, e: Store)
    requires Tidy(w, d, plan, pc) && e == Scribbled(d.store, plan, pc, tree, bytes)
    ensures Tidy(w, d.(store := e), plan, pc)
  {
    ScribbleOwns(d.store, plan, pc, tree, bytes);
    if pc.MakeReleases? {
      assert d.(store := e) == d;
    }
  }

  lemma ScribbleOwns(d: Store, plan: Plan, pc: Pc, tree: Tree, bytes: Bytes)
    requires TidyStore(d, plan.id, pc)
    ensures TidyStore(Scribbled(d, plan, pc, tree, bytes), plan.id, pc)
  {
    if pc.Staging? {
      assert d.staging[plan.id := tree].Keys == d.staging.Keys;
    } else if pc.Copying? {
      assert d.binTmp[BinName(Nth(pc.i), pc.exe) := bytes].Keys == d.binTmp.Keys;
    }
  }

  lemma StepIsTidy(w: World, s: State, a: Action)
    requires TidyState(w, s)
    ensures TidyState(w, Apply(w, s, a))
  {
    match s.proc
    case Idle => BeginIsTidy(w, s, a);
    case Uninstalling =>
    case Working(plan, pc) => WorkIsTidy(w, s, plan, pc, a);
  }

  lemma BeginIsTidy(w: World, s: State, a: Action)
    requires s.proc.Idle?
    ensures TidyState(w, ApplyIdle(w, s, a))
  {
    if a.BeginInstall? {
      var d := if VerifiedCandidate(w, a.candidate) then s.disk.(present := true) else s.disk;
      InstallEntersTidily(w, d, a.candidate);
    } else if a.BeginRollback? {
      RollbackEntersTidily(w, s.disk);
    } else if a.BeginUninstall? {
      EnterUninstallIs(w, s.disk);
    }
  }

  lemma WorkIsTidy(w: World, s: State, plan: Plan, pc: Pc, a: Action)
    requires s.proc == Working(plan, pc) && s.disk.present && Tidy(w, s.disk, plan, pc)
    ensures TidyState(w, ApplyWorking(w, s, plan, pc, a))
  {
    match a
    case Proceed => AdvanceIsTidy(w, s, plan, pc);
    case Scribble(tree, bytes) =>
      ScribbleIsTidy(w, s.disk, plan, pc, tree, bytes, Scribbled(s.disk.store, plan, pc, tree, bytes));
    case Fail => assert ApplyWorking(w, s, plan, pc, a).proc.Idle?;
    case Crash => assert ApplyWorking(w, s, plan, pc, a).proc.Idle?;
    case _ => assert ApplyWorking(w, s, plan, pc, a) == s;
  }

  lemma {:induction false} RunIsTidy(w: World, s: State, actions: seq<Action>)
    requires TidyState(w, s)
    ensures TidyState(w, Run(w, s, actions))
    decreases |actions|
  {
    if actions != [] {
      StepIsTidy(w, s, actions[0]);
      RunIsTidy(w, Apply(w, s, actions[0]), actions[1..]);
    }
  }

  // ---------------------------------------------------------------- failures

  lemma FailIs(w: World, s: State, plan: Plan, pc: Pc)
    requires s.proc == Working(plan, pc)
    ensures Apply(w, s, Fail).disk == CleanUp(s.disk, plan, pc)
  {
  }

  /** The step fills a temporary before the block that would remove it, or writes the marker, which has no such
      block. */
  predicate LeavesTemporary(pc: Pc) {
    WritesMarker(pc) || pc.Copying? || pc.PointerWriting?
  }

  lemma CleanUpTidies(d: Disk, plan: Plan, pc: Pc)
    requires OwnStaging(d.store.staging, plan.id, pc) && OwnBinTmp(d.store.binTmp, pc) && OwnPubTmp(d.pub, pc)
    ensures HasNoTemporary(CleanUp(d, plan, pc)) <==> !LeavesTemporary(pc)
  {
    var e := CleanUp(d, plan, pc);
    assert e.store.staging.Keys == {} && (!pc.Copying? ==> e.store.binTmp.Keys == {});
    assert pc.Copying? ==> BinName(Nth(pc.i), pc.exe) in e.store.binTmp;
  }

  /** In every run, a step that fails leaves no temporary exactly when it was not filling a launcher's or the
      pointer's temporary and not writing the marker. */
  lemma FailureTidiesUp(w: World, actions: seq<Action>)
    requires Run(w, FRESH, actions).proc.Working?
    ensures var s := Run(w, FRESH, actions);
            HasNoTemporary(Apply(w, s, Fail).disk) <==> !LeavesTemporary(s.proc.pc)
  {
    var s := Run(w, FRESH, actions);
    RunIsTidy(w, FRESH, actions);
    FailIs(w, s, s.proc.plan, s.proc.pc);
    CleanUpTidies(s.disk, s.proc.plan, s.proc.pc);
  }

  /** Any temporary left behind makes every operation refuse the root. */
  lemma LeftoverBlocks(w: World, d: Disk)
    requires !HasNoTemporary(d)
    ensures EnterRollback(w, d).Idle? && EnterUninstall(w, d).Idle? && forall c :: EnterInstall(w, d, c).Idle?
  {
    if Entries(d) == {} {
      EmptyRootIsEmpty(d);
    }
    forall m: Marker
      ensures !CheckedTree(w, d, m)
    {
      if CheckedTree(w, d, m) {
        CheckedRootIsTidy(w, d, m);
      }
    }
  }

  lemma UnmarkedRootIsRefused(w: World, d: Disk)
    requires d.pub.marker.None? && d.store.releasesDir
    ensures RefusedByAll(w, d)
  {
    assert ReleasesEntry in Entries(d);
  }

  /** A first install that fails leaves a root that every reader and every operation refuses, unless it failed before
      it made its first directory, or only when it synchronised the root with everything already in place. */
  lemma FirstInstallFailureIsFinal(w: World, actions: seq<Action>)
    requires Run(w, FRESH, actions).proc.Working? && Run(w, FRESH, actions).proc.plan.before.None?
    ensures var s := Run(w, FRESH, actions);
            RefusedByAll(w, Apply(w, s, Fail).disk) <==> !s.proc.pc.MakeReleases? && !s.proc.pc.MarkerSync?
  {
    var s := Run(w, FRESH, actions);
    var plan, pc := s.proc.plan, s.proc.pc;
    RunIsTidy(w, FRESH, actions);
    ReachableInv(w, actions);
    FailIs(w, s, plan, pc);
    if pc.MakeReleases? {
      EmptyRootIsEntered(w, s.disk, plan.source.value);
    } else if pc.MarkerSync? {
      LateRootIsPublished(w, s.disk, plan, pc);
    } else {
      CleanUpFrame(s.disk, plan, pc);
      CleanUpKeepsReleasesDir(s.disk, plan, pc);
      UnmarkedRootIsRefused(w, CleanUp(s.disk, plan, pc));
    }
  }

  lemma LateRootIsPublished(w: World, d: Disk, plan: Plan, pc: Pc)
    requires pc.MarkerSync? && TidyPub(w, d.pub, plan, pc) && d.present
    ensures CleanUp(d, plan, pc) == d == Published(d, plan.next) && Status(w, d) == Some(plan.next)
  {
  }

  /** The operation whose last step fails has reported a failure and is nevertheless in force. */
  lemma LateFailureIsInForce(w: World, actions: seq<Action>)
    requires Run(w, FRESH, actions).proc.Working? && Run(w, FRESH, actions).proc.pc.MarkerSync?
    ensures var s := Run(w, FRESH, actions);
            var d := Apply(w, s, Fail).disk;
            d == Published(d, s.proc.plan.next) && Status(w, d) == Some(s.proc.plan.next)
  {
    var s := Run(w, FRESH, actions);
    RunIsTidy(w, FRESH, actions);
    FailIs(w, s, s.proc.plan, s.proc.pc);
    LateRootIsPublished(w, s.disk, s.proc.plan, s.proc.pc);
  }

  lemma CleanUpKeepsReleasesDir(d: Disk, plan: Plan, pc: Pc)
    ensures CleanUp(d, plan, pc).store.releasesDir == d.store.releasesDir
  {
  }

  lemma EmptyRootIsEntered(w: World, d: Disk, c: Candidate)
    requires VerifiedCandidate(w, c) && Entries(d) == {} && d.pub.marker.None?
    ensures !RefusedByAll(w, d)
  {
    assert EnterInstall(w, d, c).Working?;
  }
}
