/**
 What every reachable state of the managed root satisfies, whatever steps the installers managed to
 make before they failed or died.
 */
module ManagedInstallSafety {
  import opened Basics
  import opened ManagedInstall

  // ---------------------------------------------------------------- the invariant

  /** The directory is exactly what materialising some verified archive with this identity writes. */
  ghost predicate Complete(w: World, id: Id, t: Tree) {
    exists c :: VerifiedCandidate(w, c) && c.id == id && t == Content(c)
  }

  /** The directory holds nothing but files of some verified archive with this identity. */
  ghost predicate PartOf(w: World, id: Id, t: Tree) {
    exists c :: VerifiedCandidate(w, c) && c.id == id && SubMap(t, Content(c))
  }

  /** The first `n` launchers of the release are installed below `bin` byte for byte. */
  predicate Linked(t: Tree, bin: Bin, exe: bool, n: nat) {
    forall i: nat | i < n :: SameFile(bin, BinName(Nth(i), exe), t, LauncherFile(BinName(Nth(i), exe)))
  }

  predicate Activated(w: World, releases: Releases, bin: Bin, id: Id) {
    var man := VerifyIn(w, releases, id);
    man.Some? && Linked(releases[id], bin, man.value.win32, 3)
  }

  predicate AllTarget(w: World, releases: Releases, target: Target) {
    forall id | id in releases ::
      Verify(w, releases[id], id).Some? && Verify(w, releases[id], id).value.target == target
  }

  predicate GoodMarker(w: World, releases: Releases, bin: Bin, m: Marker) {
    && m.root == w.root
    && Activated(w, releases, bin, m.current)
    && (m.previous.Some? ==> m.previous.value != m.current && Activated(w, releases, bin, m.previous.value))
    && AllTarget(w, releases, m.target)
  }

  ghost predicate AllComplete(w: World, releases: Releases) {
    forall id | id in releases :: Complete(w, id, releases[id])
  }

  function MarkerText(m: Option<Marker>): Option<Text<Marker>> {
    match m case None => None case Some(x) => Some(Readable(x))
  }

  ghost predicate SoundPub(w: World, store: Store, p: Pub) {
    && (p.pointer.Some? ==> p.pointer.value.Readable?)
    && (p.marker.Some? ==> p.marker.value.Readable? && GoodMarker(w, store.releases, store.bin, p.marker.value.content))
  }

  predicate GoodPlan(w: World, store: Store, plan: Plan) {
    && plan.next.root == w.root
    && plan.next.current == plan.id
    && plan.next.previous == PreviousAfter(plan.before, plan.id)
    && (plan.next.previous.Some? ==>
          plan.next.previous.value != plan.id && Activated(w, store.releases, store.bin, plan.next.previous.value))
    && AllTarget(w, store.releases, plan.next.target)
    && (plan.before.Some? ==>
          GoodMarker(w, store.releases, store.bin, plan.before.value) && plan.before.value.target == plan.next.target)
    && (plan.source.Some? ==> plan.source.value.manifest.target == plan.next.target)
    && (plan.source.None? ==> plan.before.Some? && plan.before.value.previous == Some(plan.id))
  }

  predicate Exe(w: World, d: Store, id: Id, exe: bool) {
    var man := VerifyIn(w, d.releases, id);
    man.Some? && man.value.win32 == exe
  }

  /** What the directories hold when the process is about to make the step at `pc`. */
  predicate StoreAt(w: World, d: Store, id: Id, pc: Pc) {
    match pc
    case MakeReleases => true
    case Materialize => true
    case Staging => id !in d.releases
    case Staged => id !in d.releases
    case Recheck => id in d.releases
    case MakeBin(x) => Exe(w, d, id, x)
    case Launch(x, i) => Exe(w, d, id, x) && i <= 3 && Linked(d.releases[id], d.bin, x, i)
    case Copying(x, i) => Exe(w, d, id, x) && i < 3 && Linked(d.releases[id], d.bin, x, i)
    case Copied(x, i) => Exe(w, d, id, x) && i < 3 && Linked(d.releases[id], d.bin, x, i)
                         && SameFile(d.binTmp, BinName(Nth(i), x), d.releases[id], LauncherFile(BinName(Nth(i), x)))
    case _ => Activated(w, d.releases, d.bin, id)
  }

  /** What the pointer and the marker hold when the process is about to make the step at `pc`. */
  predicate PubAt(p: Pub, plan: Plan, pc: Pc) {
    && p.marker == (if pc.MarkerMove? then None else if pc.MarkerSync? then Some(Readable(plan.next))
       else MarkerText(plan.before))
    && (pc.PointerReady? ==> p.pointerTmp == Some(Readable(plan.id)))
    && (pc.MarkerStart? || pc.MarkerWriting? || pc.MarkerReady? || pc.MarkerMove? || pc.MarkerSync? ==>
          p.pointer == Some(Readable(plan.id)))
    && (pc.MarkerReady? || pc.MarkerMove? ==> p.markerTmp == Some(Readable(plan.next)))
  }

  ghost predicate AllPart(w: World, releases: Releases) {
    forall id | id in releases :: PartOf(w, id, releases[id])
  }

  predicate SourceInv(w: World, staging: Releases, plan: Plan, pc: Pc) {
    && (plan.source.Some? ==> VerifiedCandidate(w, plan.source.value) && plan.source.value.id == plan.id)
    && (pc.Staged? ==> plan.source.Some? && plan.id in staging && staging[plan.id] == Content(plan.source.value))
  }

  /** Kept by every step, uninstalls included: directories only ever hold files of their own archive. */
  ghost predicate BaseInv(w: World, s: State) {
    && AllPart(w, s.disk.store.releases)
    && (s.proc.Working? ==> SourceInv(w, s.disk.store.staging, s.proc.plan, s.proc.pc))
  }

  ghost predicate SoundDisk(w: World, d: Disk) {
    AllComplete(w, d.store.releases) && SoundPub(w, d.store, d.pub) && (d.pub.marker.Some? ==> d.present)
  }

  ghost predicate Strong(w: World, s: State) {
    && SoundDisk(w, s.disk)
    && (s.proc.Working? ==>
          && s.disk.present
          && GoodPlan(w, s.disk.store, s.proc.plan)
          && StoreAt(w, s.disk.store, s.proc.plan.id, s.proc.pc)
          && PubAt(s.disk.pub, s.proc.plan, s.proc.pc))
  }

  /** No uninstall is under way or was cut short. */
  predicate Intact(s: State) {
    !s.interrupted && !s.proc.Uninstalling?
  }

  ghost predicate Inv(w: World, s: State) {
    BaseInv(w, s) && (Intact(s) ==> Strong(w, s))
  }

  // ---------------------------------------------------------------- archives and their directories

  lemma ContentVerifies(w: World, c: Candidate)
    requires VerifiedCandidate(w, c)
    ensures Verify(w, Content(c), c.id) == Some(c.manifest)
  {
    var t := Content(c);
    forall e | e in c.manifest.files
      ensures FileMatches(w, t, e)
    {
      assert FileMatches(w, c.files, e);
    }
    assert t[ManifestFile] == c.files[ManifestFile];
  }

  lemma ContentComplete(w: World, c: Candidate)
    requires VerifiedCandidate(w, c)
    ensures Complete(w, c.id, Content(c)) && PartOf(w, c.id, Content(c))
  {
    assert SubMap(Content(c), Content(c));
  }

  // ---------------------------------------------------------------- what steps keep

  /** Releases and launchers present before are present, unchanged, after. */
  predicate Grows(d: Store, e: Store) {
    SubMap(d.releases, e.releases) && SubMap(d.bin, e.bin)
  }

  lemma GrowthKeepsActivation(w: World, d: Store, e: Store, id: Id)
    requires Grows(d, e) && Activated(w, d.releases, d.bin, id)
    ensures Activated(w, e.releases, e.bin, id)
  {
  }

  lemma GrowthKeepsMarker(w: World, d: Store, e: Store, m: Marker)
    requires Grows(d, e) && GoodMarker(w, d.releases, d.bin, m) && AllTarget(w, e.releases, m.target)
    ensures GoodMarker(w, e.releases, e.bin, m)
  {
    GrowthKeepsActivation(w, d, e, m.current);
    if m.previous.Some? {
      GrowthKeepsActivation(w, d, e, m.previous.value);
    }
  }

  lemma GrowthKeepsPlan(w: World, d: Store, e: Store, plan: Plan)
    requires Grows(d, e) && GoodPlan(w, d, plan) && AllTarget(w, e.releases, plan.next.target)
    ensures GoodPlan(w, e, plan)
  {
    if plan.next.previous.Some? {
      GrowthKeepsActivation(w, d, e, plan.next.previous.value);
    }
    if plan.before.Some? {
      GrowthKeepsMarker(w, d, e, plan.before.value);
    }
  }

  /** A materialisation step leaves the releases alone or adds the verified archive's content. */
  lemma ReleaseStepReleases(w: World, d: Store, plan: Plan, pc: Pc, free: bool)
    requires SourceInv(w, d.staging, plan, pc)
    ensures var e := ReleaseStep(w, d, plan, pc, free).left;
            || e.releases == d.releases
            || (pc.Staged? && e.releases == d.releases[plan.id := Content(plan.source.value)])
  {
  }

  lemma ReleaseStepBin(w: World, d: Store, plan: Plan, pc: Pc, free: bool)
    ensures ReleaseStep(w, d, plan, pc, free).left.bin == d.bin
  {
  }

  lemma ReleaseStepSource(w: World, d: Store, plan: Plan, pc: Pc, free: bool)
    requires SourceInv(w, d.staging, plan, pc)
    ensures var r := ReleaseStep(w, d, plan, pc, free);
            r.next.Some? ==> SourceInv(w, r.left.staging, plan, r.next.value)
  {
  }

  lemma ReleaseStepPlace(w: World, d: Store, plan: Plan, pc: Pc, free: bool)
    requires InReleasePhase(pc) && StoreAt(w, d, plan.id, pc)
    ensures var r := ReleaseStep(w, d, plan, pc, free);
            r.next.Some? ==> StoreAt(w, r.left, plan.id, r.next.value)
  {
  }

  lemma ReleaseStepKeepsBase(w: World, d: Store, plan: Plan, pc: Pc, free: bool)
    requires AllPart(w, d.releases) && SourceInv(w, d.staging, plan, pc)
    ensures var r := ReleaseStep(w, d, plan, pc, free);
            AllPart(w, r.left.releases) && (r.next.Some? ==> SourceInv(w, r.left.staging, plan, r.next.value))
  {
    ReleaseStepReleases(w, d, plan, pc, free);
    ReleaseStepSource(w, d, plan, pc, free);
    if pc.Staged? {
      ContentComplete(w, plan.source.value);
    }
  }

  lemma AddRelease(w: World, d: Releases, c: Candidate)
    requires VerifiedCandidate(w, c) && AllComplete(w, d) && AllTarget(w, d, c.manifest.target)
    ensures AllComplete(w, d[c.id := Content(c)]) && AllTarget(w, d[c.id := Content(c)], c.manifest.target)
  {
    ContentComplete(w, c);
    ContentVerifies(w, c);
    var e := d[c.id := Content(c)];
    forall id | id in e
      ensures Complete(w, id, e[id])
      ensures Verify(w, e[id], id).Some? && Verify(w, e[id], id).value.target == c.manifest.target
    {
      if id != c.id {
        assert e[id] == d[id];
      }
    }
  }

  lemma ReleaseStepKeeps(w: World, d: Store, plan: Plan, pc: Pc, free: bool)
    requires InReleasePhase(pc) && SourceInv(w, d.staging, plan, pc)
    requires AllComplete(w, d.releases) && GoodPlan(w, d, plan) && StoreAt(w, d, plan.id, pc)
    ensures var r := ReleaseStep(w, d, plan, pc, free);
            && Grows(d, r.left) && AllComplete(w, r.left.releases) && GoodPlan(w, r.left, plan)
            && (r.next.Some? ==> StoreAt(w, r.left, plan.id, r.next.value))
  {
    var e := ReleaseStep(w, d, plan, pc, free).left;
    ReleaseStepReleases(w, d, plan, pc, free);
    ReleaseStepBin(w, d, plan, pc, free);
    ReleaseStepPlace(w, d, plan, pc, free);
    if pc.Staged? {
      AddRelease(w, d.releases, plan.source.value);
    }
    assert Grows(d, e);
    GrowthKeepsPlan(w, d, e, plan);
  }

  lemma LaunchStepFrame(w: World, d: Store, id: Id, pc: Pc)
    ensures var e := LaunchStep(w, d, id, pc).left;
            e.releases == d.releases && e.staging == d.staging && Grows(d, e)
  {
    match pc
    case MakeBin(_) =>
    case Launch(_, _) =>
    case Copying(_, _) =>
    case Copied(_, _) =>
    case _ =>
  }

  lemma LinkNext(t: Tree, bin: Bin, more: Bin, exe: bool, i: nat)
    requires Linked(t, bin, exe, i) && SubMap(bin, more)
    requires SameFile(more, BinName(Nth(i), exe), t, LauncherFile(BinName(Nth(i), exe)))
    ensures Linked(t, more, exe, i + 1)
  {
  }

  lemma LaunchStepPlace(w: World, d: Store, id: Id, pc: Pc)
    requires InLaunchPhase(pc) && StoreAt(w, d, id, pc)
    ensures var r := LaunchStep(w, d, id, pc);
            r.next.Some? ==> StoreAt(w, r.left, id, r.next.value)
                             && (InLaunchPhase(r.next.value) || r.next.value.PointerStart?)
  {
    var r := LaunchStep(w, d, id, pc);
    LaunchStepFrame(w, d, id, pc);
    if r.next.Some? && r.next.value.Launch? && r.next.value.i > 0 {
      LinkNext(d.releases[id], d.bin, r.left.bin, pc.exe, pc.i);
    }
  }

  lemma PublishStepKeeps(w: World, p: Pub, plan: Plan, pc: Pc)
    requires !InReleasePhase(pc) && !InLaunchPhase(pc) && PubAt(p, plan, pc)
    ensures var r := PublishStep(w, p, plan, pc);
            && (r.next.Some? ==> !InReleasePhase(r.next.value) && !InLaunchPhase(r.next.value)
                                 && PubAt(r.left, plan, r.next.value))
            && (r.left.marker == p.marker || r.left.marker.None? || r.left.marker == Some(Readable(plan.next)))
            && (r.left.pointer == p.pointer || r.left.pointer == Some(Readable(plan.id)))
  {
  }

  // ---------------------------------------------------------------- one step

  /** A step that only grows the directories, towards a place where it may go on, keeps the invariant. */
  lemma StoreStepKeeps(w: World, s: State, e: Store, next: Option<Pc>)
    requires Inv(w, s) && Intact(s) && s.proc.Working? && !s.proc.pc.MarkerMove? && !s.proc.pc.MarkerSync?
    requires Grows(s.disk.store, e) && AllComplete(w, e.releases) && AllPart(w, e.releases)
    requires GoodPlan(w, e, s.proc.plan)
    requires next.Some? ==> StoreAt(w, e, s.proc.plan.id, next.value)
    requires next.Some? ==> SourceInv(w, e.staging, s.proc.plan, next.value)
    requires next.Some? ==> InReleasePhase(next.value) || InLaunchPhase(next.value) || next.value.PointerStart?
    ensures Inv(w, s.(disk := s.disk.(store := e), proc := Resume(s.proc.plan, next)))
  {
    var d := s.disk;
    if d.pub.marker.Some? {
      GrowthKeepsMarker(w, d.store, e, d.pub.marker.value.content);
    }
  }

  lemma ReleaseKeeps(w: World, s: State, r: Step<Store>)
    requires Inv(w, s) && Intact(s) && s.proc.Working? && InReleasePhase(s.proc.pc)
    requires r == ReleaseStep(w, s.disk.store, s.proc.plan, s.proc.pc, s.disk.pub.markerTmp.None?)
    ensures Inv(w, s.(disk := s.disk.(store := r.left), proc := Resume(s.proc.plan, r.next)))
    ensures Grows(s.disk.store, r.left)
  {
    ReleaseStepKeepsBase(w, s.disk.store, s.proc.plan, s.proc.pc, s.disk.pub.markerTmp.None?);
    ReleaseStepKeeps(w, s.disk.store, s.proc.plan, s.proc.pc, s.disk.pub.markerTmp.None?);
    ReleaseStepLeads(w, s.disk.store, s.proc.plan, s.proc.pc, s.disk.pub.markerTmp.None?);
    StoreStepKeeps(w, s, r.left, r.next);
  }

  lemma ReleaseStepLeads(w: World, d: Store, plan: Plan, pc: Pc, free: bool)
    requires InReleasePhase(pc)
    ensures var r := ReleaseStep(w, d, plan, pc, free);
            r.next.Some? ==> InReleasePhase(r.next.value) || r.next.value.MakeBin?
  {
  }

  lemma AdvanceKeepsInReleasePhase(w: World, s: State)
    requires Inv(w, s) && Intact(s) && s.proc.Working? && InReleasePhase(s.proc.pc)
    ensures Inv(w, Advance(w, s, s.proc.plan, s.proc.pc))
    ensures Grows(s.disk.store, Advance(w, s, s.proc.plan, s.proc.pc).disk.store)
  {
    ReleaseKeeps(w, s, ReleaseStep(w, s.disk.store, s.proc.plan, s.proc.pc, s.disk.pub.markerTmp.None?));
  }

  lemma LaunchKeeps(w: World, s: State, r: Step<Store>)
    requires Inv(w, s) && Intact(s) && s.proc.Working? && InLaunchPhase(s.proc.pc)
    requires Grows(s.disk.store, r.left) && r.left.releases == s.disk.store.releases
    requires r.left.staging == s.disk.store.staging
    requires r.next.Some? ==> StoreAt(w, r.left, s.proc.plan.id, r.next.value)
                              && (InLaunchPhase(r.next.value) || r.next.value.PointerStart?)
    ensures Inv(w, s.(disk := s.disk.(store := r.left), proc := Resume(s.proc.plan, r.next)))
  {
    GrowthKeepsPlan(w, s.disk.store, r.left, s.proc.plan);
    StoreStepKeeps(w, s, r.left, r.next);
  }

  lemma AdvanceKeepsInLaunchPhase(w: World, s: State)
    requires Inv(w, s) && Intact(s) && s.proc.Working? && InLaunchPhase(s.proc.pc)
    ensures Inv(w, Advance(w, s, s.proc.plan, s.proc.pc))
    ensures Grows(s.disk.store, Advance(w, s, s.proc.plan, s.proc.pc).disk.store)
  {
    LaunchStepFrame(w, s.disk.store, s.proc.plan.id, s.proc.pc);
    LaunchStepPlace(w, s.disk.store, s.proc.plan.id, s.proc.pc);
    LaunchKeeps(w, s, LaunchStep(w, s.disk.store, s.proc.plan.id, s.proc.pc));
  }

  lemma AdvanceKeepsWhenPublishing(w: World, s: State)
    requires Inv(w, s) && Intact(s) && s.proc.Working?
    requires !InReleasePhase(s.proc.pc) && !InLaunchPhase(s.proc.pc)
    ensures Inv(w, Advance(w, s, s.proc.plan, s.proc.pc))
    ensures Grows(s.disk.store, Advance(w, s, s.proc.plan, s.proc.pc).disk.store)
  {
    var plan, d := s.proc.plan, s.disk;
    PublishStepKeeps(w, d.pub, plan, s.proc.pc);
    assert Activated(w, d.store.releases, d.store.bin, plan.id);
    assert GoodMarker(w, d.store.releases, d.store.bin, plan.next);
  }

  lemma AdvanceKeeps(w: World, s: State)
    requires Inv(w, s) && Intact(s) && s.proc.Working?
    ensures Inv(w, Advance(w, s, s.proc.plan, s.proc.pc))
    ensures Grows(s.disk.store, Advance(w, s, s.proc.plan, s.proc.pc).disk.store)
  {
    if InReleasePhase(s.proc.pc) {
      AdvanceKeepsInReleasePhase(w, s);
    } else if InLaunchPhase(s.proc.pc) {
      AdvanceKeepsInLaunchPhase(w, s);
    } else {
      AdvanceKeepsWhenPublishing(w, s);
    }
  }

  lemma AdvanceKeepsBase(w: World, s: State)
    requires BaseInv(w, s) && s.proc.Working?
    ensures BaseInv(w, Advance(w, s, s.proc.plan, s.proc.pc))
  {
    var plan, d := s.proc.plan, s.disk;
    if InReleasePhase(s.proc.pc) {
      ReleaseStepKeepsBase(w, d.store, plan, s.proc.pc, d.pub.markerTmp.None?);
    } else if InLaunchPhase(s.proc.pc) {
      LaunchStepFrame(w, d.store, plan.id, s.proc.pc);
      LaunchStepNeverStages(w, d.store, plan.id, s.proc.pc);
    } else {
      PublishStepNeverStages(w, d.pub, plan, s.proc.pc);
    }
  }

  lemma LaunchStepNeverStages(w: World, d: Store, id: Id, pc: Pc)
    ensures LaunchStep(w, d, id, pc).next != Some(Staged)
  {
  }

  lemma PublishStepNeverStages(w: World, p: Pub, plan: Plan, pc: Pc)
    ensures PublishStep(w, p, plan, pc).next != Some(Staged)
  {
  }

  lemma EmptyRootHasNoRelease(d: Disk)
    requires Entries(d) == {}
    ensures d.store.releases == map[]
  {
    forall id
      ensures id !in d.store.releases
    {
      assert ReleaseEntry(id) !in Entries(d);
    }
  }

  lemma InstallPlanIsGood(w: World, d: Store, c: Candidate, before: Option<Marker>)
    requires AllTarget(w, d.releases, c.manifest.target)
    requires before.Some? ==> GoodMarker(w, d.releases, d.bin, before.value) && before.value.target == c.manifest.target
    ensures GoodPlan(w, d, InstallPlan(w, c, before))
  {
  }

  lemma EnterInstallKeeps(w: World, d: Disk, c: Candidate)
    requires SoundDisk(w, d) && d.present
    ensures Strong(w, State(d, EnterInstall(w, d, c), false))
  {
    var p := EnterInstall(w, d, c);
    if p.Working? {
      if d.pub.marker.None? {
        EmptyRootHasNoRelease(d);
        InstallPlanIsGood(w, d.store, c, None);
        assert p == Working(InstallPlan(w, c, None), MakeReleases);
      } else {
        var m := d.pub.marker.value.content;
        assert p == Working(InstallPlan(w, c, Some(m)), MakeReleases);
        assert m.target == c.manifest.target;
        InstallPlanIsGood(w, d.store, c, Some(m));
      }
    }
  }

  lemma EnterRollbackKeeps(w: World, d: Disk)
    requires SoundDisk(w, d)
    ensures Strong(w, State(d, EnterRollback(w, d), false))
  {
  }

  lemma RemovalKeepsParts(w: World, a: Releases, d: Releases)
    requires AllPart(w, d) && SubReleases(a, d)
    ensures AllPart(w, a)
  {
    forall id | id in a
      ensures PartOf(w, id, a[id])
    {
      var c :| VerifiedCandidate(w, c) && c.id == id && SubMap(d[id], Content(c));
      assert SubMap(a[id], Content(c));
    }
  }

  lemma IdleStepKeeps(w: World, s: State, a: Action)
    requires Inv(w, s) && s.proc.Idle?
    ensures Inv(w, ApplyIdle(w, s, a))
  {
    if a.BeginInstall? {
      if VerifiedCandidate(w, a.candidate) {
        var d := s.disk.(present := true);
        EnterInstallSource(w, d, a.candidate);
        if Intact(s) {
          EnterInstallKeeps(w, d, a.candidate);
        }
      }
    } else if a.BeginRollback? {
      EnterRollbackSource(w, s.disk);
      if Intact(s) {
        EnterRollbackKeeps(w, s.disk);
      }
    }
  }

  lemma EnterInstallSource(w: World, d: Disk, c: Candidate)
    ensures var p := EnterInstall(w, d, c);
            !p.Uninstalling? && (p.Working? ==> SourceInv(w, d.store.staging, p.plan, p.pc))
  {
  }

  lemma EnterRollbackSource(w: World, d: Disk)
    ensures var p := EnterRollback(w, d);
            !p.Uninstalling? && (p.Working? ==> SourceInv(w, d.store.staging, p.plan, p.pc))
  {
  }

  lemma UninstallStepKeeps(w: World, s: State, a: Action)
    requires Inv(w, s) && s.proc.Uninstalling?
    ensures Inv(w, ApplyUninstalling(s, a))
  {
    if a.Remove? && SubDisk(a.rest, s.disk) {
      RemovalKeepsParts(w, a.rest.store.releases, s.disk.store.releases);
    }
  }

  lemma AdvanceKeepsInterrupted(w: World, s: State, plan: Plan, pc: Pc)
    ensures Advance(w, s, plan, pc).interrupted == s.interrupted && !Advance(w, s, plan, pc).proc.Uninstalling?
  {
  }

  lemma ProceedKeeps(w: World, s: State)
    requires Inv(w, s) && s.proc.Working?
    ensures Inv(w, Advance(w, s, s.proc.plan, s.proc.pc))
  {
    AdvanceKeepsBase(w, s);
    AdvanceKeepsInterrupted(w, s, s.proc.plan, s.proc.pc);
    if Intact(s) {
      AdvanceKeeps(w, s);
    }
  }

  /** A process that ends, having removed nothing but temporaries, keeps the invariant. */
  lemma EndKeeps(w: World, s: State, d: Disk)
    requires Inv(w, s) && s.proc.Working?
    requires d.present == s.disk.present && d.pub.marker == s.disk.pub.marker && d.pub.pointer == s.disk.pub.pointer
    requires d.store.releases == s.disk.store.releases && d.store.bin == s.disk.store.bin
    ensures Inv(w, s.(disk := d, proc := Idle))
  {
  }

  lemma ScribbleStepKeeps(w: World, s: State, e: Store)
    requires Inv(w, s) && s.proc.Working? && e.releases == s.disk.store.releases && e.bin == s.disk.store.bin
    requires SourceInv(w, e.staging, s.proc.plan, s.proc.pc)
    requires StoreAt(w, s.disk.store, s.proc.plan.id, s.proc.pc) ==> StoreAt(w, e, s.proc.plan.id, s.proc.pc)
    ensures Inv(w, s.(disk := s.disk.(store := e)))
  {
  }

  lemma WorkStepKeeps(w: World, s: State, a: Action)
    requires Inv(w, s) && s.proc.Working?
    ensures Inv(w, ApplyWorking(w, s, s.proc.plan, s.proc.pc, a))
  {
    match a
    case Proceed => ProceedKeeps(w, s);
    case Fail =>
      CleanUpFrame(s.disk, s.proc.plan, s.proc.pc);
      EndKeeps(w, s, CleanUp(s.disk, s.proc.plan, s.proc.pc));
    case Crash => EndKeeps(w, s, s.disk);
    case Scribble(tree, bytes) =>
      ScribbleKeeps(w, s.disk.store, s.proc.plan, s.proc.pc, tree, bytes);
      ScribbleStepKeeps(w, s, Scribbled(s.disk.store, s.proc.plan, s.proc.pc, tree, bytes));
    case _ =>
  }

  /** Cleaning up removes temporaries only. */
  lemma CleanUpFrame(d: Disk, plan: Plan, pc: Pc)
    ensures var e := CleanUp(d, plan, pc);
            && e.present == d.present && e.pub.marker == d.pub.marker && e.pub.pointer == d.pub.pointer
            && e.store.releases == d.store.releases && e.store.bin == d.store.bin
  {
  }

  lemma ScribbleKeeps(w: World, d: Store, plan: Plan, pc: Pc, tree: Tree, bytes: Bytes)
    ensures var e := Scribbled(d, plan, pc, tree, bytes);
            && e.releases == d.releases && e.bin == d.bin
            && (SourceInv(w, d.staging, plan, pc) ==> SourceInv(w, e.staging, plan, pc))
            && (StoreAt(w, d, plan.id, pc) ==> StoreAt(w, e, plan.id, pc))
  {
  }

  /** Every action keeps the invariant. */
  lemma StepKeeps(w: World, s: State, a: Action)
    requires Inv(w, s)
    ensures Inv(w, Apply(w, s, a))
  {
    match s.proc
    case Idle => IdleStepKeeps(w, s, a);
    case Uninstalling => UninstallStepKeeps(w, s, a);
    case Working(_, _) => WorkStepKeeps(w, s, a);
  }

  lemma {:induction false} RunKeeps(w: World, s: State, actions: seq<Action>)
    requires Inv(w, s)
    ensures Inv(w, Run(w, s, actions))
    decreases |actions|
  {
    if actions != [] {
      StepKeeps(w, s, actions[0]);
      RunKeeps(w, Apply(w, s, actions[0]), actions[1..]);
    }
  }
}
