/** The promises of the managed install, over every run of its actions from an absent root. */
module ManagedInstallTheorems {
  import opened Basics
  import opened ManagedInstall
  import opened ManagedInstallSafety

  lemma ReachableInv(w: World, actions: seq<Action>)
    ensures Inv(w, Run(w, FRESH, actions))
  {
    RunKeeps(w, FRESH, actions);
  }

  // ---------------------------------------------------------------- readers

  lemma SoundStatus(w: World, d: Disk, m: Marker)
    requires SoundDisk(w, d) && Status(w, d) == Some(m)
    ensures d.pub.marker == Some(Readable(m)) && d.pub.pointer == Some(Readable(m.current))
    ensures m.current in d.store.releases && Complete(w, m.current, d.store.releases[m.current])
  {
  }

  lemma SoundIdentity(w: World, d: Disk, x: Id)
    requires SoundDisk(w, d)
    ensures IdentityAccepts(w, d, x) <==> Status(w, d).Some? && Status(w, d).value.current == x
  {
    if Status(w, d).Some? {
      assert Activated(w, d.store.releases, d.store.bin, Status(w, d).value.current);
    }
  }

  /**
   Whatever was interrupted, an accepted status names one candidate in the marker and the pointer, and
   its release directory holds exactly what the verified archive holds.
   */
  lemma AcceptedStatusIsComplete(w: World, actions: seq<Action>)
    requires Intact(Run(w, FRESH, actions))
    ensures var d := Run(w, FRESH, actions).disk;
            Status(w, d).Some? ==>
              var m := Status(w, d).value;
              && d.pub.marker == Some(Readable(m)) && d.pub.pointer == Some(Readable(m.current))
              && m.current in d.store.releases && Complete(w, m.current, d.store.releases[m.current])
  {
    ReachableInv(w, actions);
    var d := Run(w, FRESH, actions).disk;
    if Status(w, d).Some? {
      SoundStatus(w, d, Status(w, d).value);
    }
  }

  /** The service client's independent reader accepts exactly what the installer's status accepts. */
  lemma IdentityAgreesWithStatus(w: World, actions: seq<Action>, x: Id)
    requires Intact(Run(w, FRESH, actions))
    ensures var d := Run(w, FRESH, actions).disk;
            IdentityAccepts(w, d, x) <==> Status(w, d).Some? && Status(w, d).value.current == x
  {
    ReachableInv(w, actions);
    SoundIdentity(w, Run(w, FRESH, actions).disk, x);
  }

  /** install, rollback and uninstall refuse a marked root unless its tree passes the check. */
  ghost predicate AnyEntryPasses(w: World, d: Disk) {
    || EnterRollback(w, d).Working?
    || EnterUninstall(w, d).Uninstalling?
    || (d.pub.marker.Some? && exists c: Candidate :: EnterInstall(w, d, c).Working?)
  }

  lemma EntryMeansCheckedTree(w: World, d: Disk)
    requires AnyEntryPasses(w, d)
    ensures d.pub.marker.Some? && d.pub.marker.value.Readable? && CheckedTree(w, d, d.pub.marker.value.content)
  {
  }

  /** The directory is the archive's content, up to the checksum listing. */
  predicate IsWhole(w: World, c: Candidate, id: Id, t: Tree) {
    VerifiedCandidate(w, c) && c.id == id && SubMap(t, Content(c)) && Content(c).Keys - t.Keys <= {ChecksumsFile}
  }

  lemma VerifiedPartIsWhole(w: World, id: Id, t: Tree, c: Candidate)
    requires VerifiedCandidate(w, c) && c.id == id && SubMap(t, Content(c)) && Verify(w, t, id).Some?
    ensures IsWhole(w, c, id, t)
  {
    assert t[ManifestFile] == c.files[ManifestFile];
    forall e | e in c.manifest.files
      ensures e.path in t
    {
      assert FileMatches(w, t, e);
    }
  }

  /**
   Even after uninstalls that stopped half-way, passing the tree check means that marker and pointer
   agree and that the active directory is the verified archive, except that the checksum listing, which
   nothing re-reads, may be missing.
   */
  lemma CheckedTreeIsWhole(w: World, actions: seq<Action>)
    requires AnyEntryPasses(w, Run(w, FRESH, actions).disk)
    ensures var d := Run(w, FRESH, actions).disk;
            && d.pub.marker.Some? && d.pub.marker.value.Readable?
            && var m := d.pub.marker.value.content;
               d.pub.pointer == Some(Readable(m.current)) && m.current in d.store.releases
               && exists c :: IsWhole(w, c, m.current, d.store.releases[m.current])
  {
    ReachableInv(w, actions);
    var d := Run(w, FRESH, actions).disk;
    EntryMeansCheckedTree(w, d);
    var m := d.pub.marker.value.content;
    var t := d.store.releases[m.current];
    assert PartOf(w, m.current, t);
    var c :| VerifiedCandidate(w, c) && c.id == m.current && SubMap(t, Content(c));
    assert ReleaseAccepted(w, d.store.releases, m, m.current);
    VerifiedPartIsWhole(w, m.current, t, c);
  }

  /** Between the pointer's replacement and the marker's the root is torn, unless the same candidate was installed
      again. */
  predicate Torn(s: State) {
    && s.proc.Working?
    && (|| s.proc.pc.MarkerMove?
        || ((s.proc.pc.MarkerStart? || s.proc.pc.MarkerWriting? || s.proc.pc.MarkerReady?)
            && (s.proc.plan.before.Some? ==> s.proc.plan.before.value.current != s.proc.plan.id)))
  }

  ghost predicate RefusedByAll(w: World, d: Disk) {
    && Status(w, d).None?
    && (forall x :: !IdentityAccepts(w, d, x))
    && EnterRollback(w, d).Idle? && EnterUninstall(w, d).Idle?
    && (forall c :: EnterInstall(w, d, c).Idle?)
  }

  lemma PointerAwayFromMarkerIsRefused(w: World, d: Disk)
    requires d.pub.pointer.Some?
    requires d.pub.marker.Some? && d.pub.marker.value.Readable? ==>
               d.pub.pointer != Some(Readable(d.pub.marker.value.content.current))
    ensures RefusedByAll(w, d)
  {
    assert PointerEntry in Entries(d);
  }

  /** A torn root is refused by every reader and every operation; dying there leaves this very disk. */
  lemma TornRootIsRefused(w: World, actions: seq<Action>)
    requires Intact(Run(w, FRESH, actions)) && Torn(Run(w, FRESH, actions))
    ensures var s := Run(w, FRESH, actions);
            Apply(w, s, Crash).disk == s.disk && Apply(w, s, Fail).disk == s.disk && RefusedByAll(w, s.disk)
  {
    ReachableInv(w, actions);
    TornStateIsRefused(w, Run(w, FRESH, actions));
  }

  lemma TornStateIsRefused(w: World, s: State)
    requires Strong(w, s) && Torn(s)
    ensures Apply(w, s, Crash).disk == s.disk && Apply(w, s, Fail).disk == s.disk && RefusedByAll(w, s.disk)
  {
    TornStays(w, s, s.proc.plan, s.proc.pc);
    TornPointer(s.disk.pub, s.proc.plan, s.proc.pc);
    PointerAwayFromMarkerIsRefused(w, s.disk);
  }

  lemma TornStays(w: World, s: State, plan: Plan, pc: Pc)
    requires s.proc == Working(plan, pc) && (pc.MarkerStart? || pc.MarkerWriting? || pc.MarkerReady? || pc.MarkerMove?)
    ensures Apply(w, s, Crash).disk == s.disk && Apply(w, s, Fail).disk == s.disk
  {
  }

  lemma TornPointer(p: Pub, plan: Plan, pc: Pc)
    requires PubAt(p, plan, pc) && (pc.MarkerStart? || pc.MarkerWriting? || pc.MarkerReady? || pc.MarkerMove?)
    requires !pc.MarkerMove? && plan.before.Some? ==> plan.before.value.current != plan.id
    ensures p.pointer.Some?
    ensures p.marker.Some? && p.marker.value.Readable? ==> p.pointer != Some(Readable(p.marker.value.content.current))
  {
  }

  // ---------------------------------------------------------------- what runs never lose

  /** In every reachable marked root: two different known candidates, one target, both launcher-compatible. */
  lemma MarkerIsOrdered(w: World, actions: seq<Action>)
    requires Intact(Run(w, FRESH, actions))
    ensures var d := Run(w, FRESH, actions).disk;
            d.pub.marker.Some? ==>
              d.pub.marker.value.Readable? && GoodMarker(w, d.store.releases, d.store.bin, d.pub.marker.value.content)
  {
    ReachableInv(w, actions);
  }

  lemma GrowsTransitive(a: Store, b: Store, c: Store)
    requires Grows(a, b) && Grows(b, c)
    ensures Grows(a, c)
  {
  }

  lemma BeginKeepsStore(w: World, s: State, a: Action)
    requires s.proc.Idle?
    ensures ApplyIdle(w, s, a).disk.store == s.disk.store && ApplyIdle(w, s, a).interrupted == s.interrupted
    ensures !a.BeginUninstall? ==> !ApplyIdle(w, s, a).proc.Uninstalling?
  {
    if a.BeginInstall? {
      var d := if VerifiedCandidate(w, a.candidate) then s.disk.(present := true) else s.disk;
      EnterInstallSource(w, d, a.candidate);
    } else if a.BeginRollback? {
      EnterRollbackSource(w, s.disk);
    }
  }

  lemma GrowsToItself(d: Store, e: Store)
    requires d.releases == e.releases && d.bin == e.bin
    ensures Grows(d, e)
  {
  }

  lemma WorkGrows(w: World, s: State, a: Action)
    requires Inv(w, s) && Intact(s) && s.proc.Working?
    ensures var t := ApplyWorking(w, s, s.proc.plan, s.proc.pc, a); Intact(t) && Grows(s.disk.store, t.disk.store)
  {
    var plan, pc := s.proc.plan, s.proc.pc;
    match a
    case Proceed =>
      AdvanceKeeps(w, s);
      AdvanceKeepsInterrupted(w, s, plan, pc);
    case Fail =>
      CleanUpFrame(s.disk, plan, pc);
      GrowsToItself(s.disk.store, CleanUp(s.disk, plan, pc).store);
    case Scribble(tree, bytes) =>
      ScribbleKeeps(w, s.disk.store, plan, pc, tree, bytes);
      GrowsToItself(s.disk.store, Scribbled(s.disk.store, plan, pc, tree, bytes));
    case _ =>
      GrowsToItself(s.disk.store, s.disk.store);
  }

  lemma StepGrows(w: World, s: State, a: Action)
    requires Inv(w, s) && Intact(s) && !a.BeginUninstall?
    ensures Intact(Apply(w, s, a)) && Grows(s.disk.store, Apply(w, s, a).disk.store)
  {
    if s.proc.Working? {
      WorkGrows(w, s, a);
    } else {
      BeginKeepsStore(w, s, a);
      GrowsToItself(s.disk.store, s.disk.store);
    }
  }

  /** Installs and rollbacks, failed or not, never change or remove a release directory or a launcher. */
  lemma {:induction false} PublishedFilesNeverChange(w: World, s: State, more: seq<Action>)
    requires Inv(w, s) && Intact(s)
    requires forall a | a in more :: !a.BeginUninstall?
    ensures Intact(Run(w, s, more)) && Grows(s.disk.store, Run(w, s, more).disk.store)
    decreases |more|
  {
    if more != [] {
      var t := Apply(w, s, more[0]);
      StepGrows(w, s, more[0]);
      StepKeeps(w, s, more[0]);
      PublishedFilesNeverChange(w, t, more[1..]);
      GrowsTransitive(s.disk.store, t.disk.store, Run(w, t, more[1..]).disk.store);
    }
  }

  // ---------------------------------------------------------------- rollback

  /** `n` undisturbed steps of the running process; an idle root stays as it is. */
  function Drive(w: World, s: State, n: nat): State
    decreases n
  {
    if n == 0 then s else Drive(w, Apply(w, s, Proceed), n - 1)
  }

  lemma {:induction false} DriveIsRun(w: World, s: State, n: nat)
    ensures Drive(w, s, n) == Run(w, s, seq(n, _ => Proceed))
    decreases n
  {
    if n > 0 {
      DriveIsRun(w, Apply(w, s, Proceed), n - 1);
      assert seq(n, _ => Proceed)[1..] == seq(n - 1, _ => Proceed);
    }
  }

  /** One action and then `n` steps that nothing disturbs. */
  function Undisturbed(w: World, s: State, a: Action, n: nat): State {
    Run(w, s, [a] + seq(n, _ => Proceed))
  }

  lemma UndisturbedIsDrive(w: World, s: State, a: Action, n: nat)
    ensures Undisturbed(w, s, a, n) == Drive(w, Apply(w, s, a), n)
  {
    var steps := seq(n, _ => Proceed);
    assert ([a] + steps)[0] == a && ([a] + steps)[1..] == steps;
    DriveIsRun(w, Apply(w, s, a), n);
  }

  lemma {:induction false} DriveSum(w: World, s: State, m: nat, n: nat)
    ensures Drive(w, s, m + n) == Drive(w, Drive(w, s, m), n)
    decreases m
  {
    if m > 0 {
      DriveSum(w, Apply(w, s, Proceed), m - 1, n);
    }
  }

  function Published(d: Disk, m: Marker): Disk {
    d.(pub := Pub(Some(Readable(m)), None, Some(Readable(m.current)), None))
  }

  /** Steps of writing the pointer, the marker, one missing launcher, and a whole publication. */
  function PointerSteps(w: World): nat { if w.win32 then 1 else 3 }

  function MarkerSteps(w: World): nat { if w.win32 then 1 else 5 }

  function CopySteps(w: World): nat { if w.win32 then 1 else 3 }

  function PublishSteps(w: World): nat { PointerSteps(w) + MarkerSteps(w) }

  lemma DriveOne(w: World, s: State, t: State)
    requires Apply(w, s, Proceed) == t
    ensures Drive(w, s, 1) == t
  {
    assert Drive(w, t, 0) == t;
  }

  lemma DriveMore(w: World, s: State, t: State, n: nat)
    requires Apply(w, s, Proceed) == t && n > 0
    ensures Drive(w, s, n) == Drive(w, t, n - 1)
  {
  }

  function Stepped(s: State, plan: Plan, d: Store, pc: Pc): State {
    State(s.disk.(store := d), Working(plan, pc), s.interrupted)
  }

  lemma LaunchApplies(w: World, s: State, plan: Plan, pc: Pc, d: Store, next: Pc)
    requires s.proc == Working(plan, pc) && InLaunchPhase(pc)
    requires LaunchStep(w, s.disk.store, plan.id, pc) == Step(d, Some(next))
    ensures Drive(w, s, 1) == Stepped(s, plan, d, next)
  {
    DriveOne(w, s, Stepped(s, plan, d, next));
  }

  /** Linking a release whose launchers are in place changes nothing and never refuses. */
  lemma {:induction false} LaunchersStay(w: World, s: State, plan: Plan, exe: bool, i: nat, n: nat)
    requires s.proc == Working(plan, Launch(exe, i)) && i <= 3 && n == 4 - i
    requires plan.id in s.disk.store.releases && Linked(s.disk.store.releases[plan.id], s.disk.store.bin, exe, 3)
    ensures Drive(w, s, n) == Stepped(s, plan, s.disk.store, PointerStart)
    decreases 3 - i
  {
    if i < 3 {
      assert SameFile(s.disk.store.bin, BinName(Nth(i), exe), s.disk.store.releases[plan.id],
             LauncherFile(BinName(Nth(i), exe)));
      LaunchApplies(w, s, plan, Launch(exe, i), s.disk.store, Launch(exe, i + 1));
      DriveSum(w, s, 1, n - 1);
      LaunchersStay(w, Stepped(s, plan, s.disk.store, Launch(exe, i + 1)), plan, exe, i + 1, n - 1);
    } else {
      LaunchApplies(w, s, plan, Launch(exe, i), s.disk.store, PointerStart);
    }
  }

  function PubStepped(s: State, plan: Plan, p: Pub, next: Option<Pc>): State {
    State(s.disk.(pub := p), Resume(plan, next), s.interrupted)
  }

  lemma PublishApplies(w: World, s: State, plan: Plan, pc: Pc, p: Pub, next: Option<Pc>)
    requires s.proc == Working(plan, pc) && !InReleasePhase(pc) && !InLaunchPhase(pc)
    requires PublishStep(w, s.disk.pub, plan, pc) == Step(p, next)
    ensures Drive(w, s, 1) == PubStepped(s, plan, p, next)
  {
    DriveOne(w, s, PubStepped(s, plan, p, next));
  }

  lemma PointerCompletes(w: World, s: State, plan: Plan, n: nat)
    requires s.proc == Working(plan, PointerStart) && s.disk.pub.pointerTmp.None? && n == PointerSteps(w)
    ensures Drive(w, s, n) == PubStepped(s, plan, s.disk.pub.(pointer := Some(Readable(plan.id))), Some(MarkerStart))
  {
    var p := s.disk.pub;
    var q := p.(pointer := Some(Readable(plan.id)));
    if w.win32 {
      PublishApplies(w, s, plan, PointerStart, q, Some(MarkerStart));
    } else {
      var p1, p2 := p.(pointerTmp := Some(Scrambled)), p.(pointerTmp := Some(Readable(plan.id)));
      var s1, s2 := PubStepped(s, plan, p1, Some(PointerWriting)), PubStepped(s, plan, p2, Some(PointerReady));
      PublishApplies(w, s, plan, PointerStart, p1, Some(PointerWriting));
      PublishApplies(w, s1, plan, PointerWriting, p2, Some(PointerReady));
      PublishApplies(w, s2, plan, PointerReady, q, Some(MarkerStart));
      DriveSum(w, s, 1, n - 1);
      DriveSum(w, s1, 1, n - 2);
    }
  }

  lemma MarkerIsPrepared(w: World, s: State, plan: Plan, n: nat)
    requires s.proc == Working(plan, MarkerStart) && s.disk.pub.markerTmp.None? && !w.win32 && n == 2
    ensures Drive(w, s, n) == PubStepped(s, plan, s.disk.pub.(markerTmp := Some(Readable(plan.next))),
            Some(MarkerReady))
  {
    var p := s.disk.pub;
    var p1, p2 := p.(markerTmp := Some(Scrambled)), p.(markerTmp := Some(Readable(plan.next)));
    PublishApplies(w, s, plan, MarkerStart, p1, Some(MarkerWriting));
    PublishApplies(w, PubStepped(s, plan, p1, Some(MarkerWriting)), plan, MarkerWriting, p2, Some(MarkerReady));
    DriveSum(w, s, 1, n - 1);
  }

  lemma MarkerIsReplaced(w: World, s: State, plan: Plan, n: nat)
    requires s.proc == Working(plan, MarkerReady) && s.disk.pub.markerTmp == Some(Readable(plan.next)) && n == 3
    ensures Drive(w, s, n) == PubStepped(s, plan, s.disk.pub.(marker := Some(Readable(plan.next)), markerTmp := None),
            None)
  {
    var p := s.disk.pub;
    var p1, q := p.(marker := None), p.(marker := Some(Readable(plan.next)), markerTmp := None);
    var s1, s2 := PubStepped(s, plan, p1, Some(MarkerMove)), PubStepped(s, plan, q, Some(MarkerSync));
    PublishApplies(w, s, plan, MarkerReady, p1, Some(MarkerMove));
    PublishApplies(w, s1, plan, MarkerMove, q, Some(MarkerSync));
    PublishApplies(w, s2, plan, MarkerSync, q, None);
    DriveSum(w, s, 1, n - 1);
    DriveSum(w, s1, 1, n - 2);
  }

  lemma MarkerCompletes(w: World, s: State, plan: Plan, n: nat)
    requires s.proc == Working(plan, MarkerStart) && s.disk.pub.markerTmp.None? && n == MarkerSteps(w)
    ensures Drive(w, s, n) == PubStepped(s, plan, s.disk.pub.(marker := Some(Readable(plan.next))), None)
  {
    var p := s.disk.pub;
    if w.win32 {
      PublishApplies(w, s, plan, MarkerStart, p.(marker := Some(Readable(plan.next))), None);
    } else {
      var t := PubStepped(s, plan, p.(markerTmp := Some(Readable(plan.next))), Some(MarkerReady));
      MarkerIsPrepared(w, s, plan, 2);
      MarkerIsReplaced(w, t, plan, 3);
      DriveSum(w, s, 2, n - 2);
    }
  }

  lemma PublishCompletes(w: World, s: State, plan: Plan)
    requires s.proc == Working(plan, PointerStart) && plan.next.current == plan.id
    requires s.disk.pub.pointerTmp.None? && s.disk.pub.markerTmp.None?
    ensures Drive(w, s, PublishSteps(w)) == State(Published(s.disk, plan.next), Idle, s.interrupted)
  {
    var t := PubStepped(s, plan, s.disk.pub.(pointer := Some(Readable(plan.id))), Some(MarkerStart));
    PointerCompletes(w, s, plan, PointerSteps(w));
    MarkerCompletes(w, t, plan, MarkerSteps(w));
    DriveSum(w, s, PointerSteps(w), MarkerSteps(w));
  }

  function Swapped(m: Marker): Marker
    requires m.previous.Some?
  {
    Marker(m.root, m.previous.value, Some(m.current), m.target)
  }

  /** The tree check allows no temporary and no launcher with the other suffix. */
  lemma AllowedEntry(w: World, releases: Releases, target: Target, e: Entry)
    requires e in AllowedEntries(w, releases, target)
    ensures !e.MarkerTmpEntry? && !e.PointerTmpEntry? && !e.LauncherTmpEntry?
    ensures e.LauncherEntry? ==> e.name.exe == target.IsWindows()
  {
  }

  lemma CheckedTreeHasNoTemporary(w: World, d: Disk, m: Marker)
    requires Entries(d) <= AllowedEntries(w, d.store.releases, m.target)
    ensures d.pub.markerTmp.None? && d.pub.pointerTmp.None? && d.store.binTmp == map[]
  {
    forall e | e in Entries(d)
      ensures !e.MarkerTmpEntry? && !e.PointerTmpEntry? && !e.LauncherTmpEntry?
    {
      AllowedEntry(w, d.store.releases, m.target, e);
    }
    EntriesCoverTemporaries(d);
  }

  lemma EntriesCoverTemporaries(d: Disk)
    ensures d.pub.markerTmp.Some? ==> MarkerTmpEntry in Entries(d)
    ensures d.pub.pointerTmp.Some? ==> PointerTmpEntry in Entries(d)
    ensures forall n | n in d.store.binTmp :: LauncherTmpEntry(n) in Entries(d)
    ensures forall n | n in d.store.bin :: LauncherEntry(n) in Entries(d)
  {
  }

  lemma CheckedTreeFixesExe(w: World, d: Disk, m: Marker, id: Id)
    requires Entries(d) <= AllowedEntries(w, d.store.releases, m.target)
    requires Activated(w, d.store.releases, d.store.bin, id)
    ensures VerifyIn(w, d.store.releases, id).value.win32 == m.target.IsWindows()
  {
    var n := BinName(Nth(0), VerifyIn(w, d.store.releases, id).value.win32);
    assert SameFile(d.store.bin, n, d.store.releases[id], LauncherFile(n));
    EntriesCoverTemporaries(d);
    AllowedEntry(w, d.store.releases, m.target, LauncherEntry(n));
  }

  /** After a rollback the tree passes the same check again. */
  lemma SwappedTreeIsChecked(w: World, d: Disk, m: Marker)
    requires CheckedTree(w, d, m) && d == Published(d, m) && GoodMarker(w, d.store.releases, d.store.bin, m)
    requires m.previous.Some?
    ensures CheckedTree(w, Published(d, Swapped(m)), Swapped(m))
  {
    var e := Published(d, Swapped(m));
    assert Entries(e) == Entries(d);
    CheckedTreeFixesExe(w, d, m, m.previous.value);
    SwappedStoreIsChecked(w, d.store, m);
  }

  lemma SwappedStoreIsChecked(w: World, d: Store, m: Marker)
    requires CheckedStore(w, d, m) && GoodMarker(w, d.releases, d.bin, m) && m.previous.Some?
    requires VerifyIn(w, d.releases, m.previous.value).value.win32 == m.target.IsWindows()
    ensures CheckedStore(w, d, Swapped(m))
  {
    var p := m.previous.value;
    forall id | id in d.releases
      ensures ReleaseAccepted(w, d.releases, Swapped(m), id)
    {
      assert ReleaseAccepted(w, d.releases, m, id);
    }
    forall l: Launcher
      ensures SameFile(d.bin, BinName(l, m.target.IsWindows()), d.releases[p],
              LauncherFile(BinName(l, m.target.IsWindows())))
    {
      assert l == Nth(if l.Cli? then 0 else if l.Tui? then 1 else 2);
    }
  }

  lemma RollbackEnters(w: World, d: Disk)
    ensures EnterRollback(w, d).Working? ==>
              LoadMarker(w, d).Some? && LoadMarker(w, d).value.previous.Some?
                && CheckedTree(w, d, LoadMarker(w, d).value)
  {
  }

  lemma RollbackStarts(w: World, d: Disk, m: Marker)
    requires LoadMarker(w, d) == Some(m) && m.previous.Some? && CheckedTree(w, d, m)
    requires GoodMarker(w, d.store.releases, d.store.bin, m)
    ensures EnterRollback(w, d) == Working(Plan(m.previous.value, None, Some(m), Swapped(m)), Recheck)
  {
    assert Activated(w, d.store.releases, d.store.bin, m.previous.value);
  }

  lemma RecheckPasses(w: World, s: State, plan: Plan)
    requires s.proc == Working(plan, Recheck) && VerifyIn(w, s.disk.store.releases, plan.id).Some?
    requires Installable(VerifyIn(w, s.disk.store.releases, plan.id).value) && s.disk.pub.markerTmp.None?
    ensures var exe := VerifyIn(w, s.disk.store.releases, plan.id).value.win32;
            Apply(w, s, Proceed) == s.(proc := Working(plan, MakeBin(exe)))
  {
  }

  lemma MakeBinPasses(w: World, s: State, plan: Plan, exe: bool)
    requires s.proc == Working(plan, MakeBin(exe)) && s.disk.store.binTmp == map[] && s.disk.store.binDir
    ensures Apply(w, s, Proceed) == s.(proc := Working(plan, Launch(exe, 0)))
  {
  }

  function ReactivationSteps(w: World): nat { 6 + PublishSteps(w) }

  /** Activating a release whose launchers are in place goes straight on to publishing it. */
  lemma ReactivationCompletes(w: World, s: State, plan: Plan, n: nat)
    requires s.proc == Working(plan, Recheck) && Activated(w, s.disk.store.releases, s.disk.store.bin, plan.id)
    requires Installable(VerifyIn(w, s.disk.store.releases, plan.id).value) && plan.next.current == plan.id
    requires s.disk.pub.markerTmp.None? && s.disk.pub.pointerTmp.None? && n == ReactivationSteps(w)
    requires s.disk.store.binTmp == map[] && s.disk.store.binDir
    ensures Drive(w, s, n) == State(Published(s.disk, plan.next), Idle, s.interrupted)
  {
    var exe := VerifyIn(w, s.disk.store.releases, plan.id).value.win32;
    RecheckReachesLaunch(w, s, plan, exe, n);
    LaunchReachesPublish(w, s.(proc := Working(plan, Launch(exe, 0))), plan, exe, n - 2);
  }

  lemma RecheckReachesLaunch(w: World, s: State, plan: Plan, exe: bool, n: nat)
    requires s.proc == Working(plan, Recheck) && VerifyIn(w, s.disk.store.releases, plan.id).Some? && n >= 2
    requires Installable(VerifyIn(w, s.disk.store.releases, plan.id).value)
             && VerifyIn(w, s.disk.store.releases, plan.id).value.win32 == exe
    requires s.disk.pub.markerTmp.None? && s.disk.store.binTmp == map[] && s.disk.store.binDir
    ensures Drive(w, s, n) == Drive(w, s.(proc := Working(plan, Launch(exe, 0))), n - 2)
  {
    var s1 := s.(proc := Working(plan, MakeBin(exe)));
    RecheckPasses(w, s, plan);
    MakeBinPasses(w, s1, plan, exe);
    DriveMore(w, s, s1, n);
    DriveMore(w, s1, s.(proc := Working(plan, Launch(exe, 0))), n - 1);
  }

  lemma LaunchReachesPublish(w: World, s: State, plan: Plan, exe: bool, n: nat)
    requires s.proc == Working(plan, Launch(exe, 0)) && Activated(w, s.disk.store.releases, s.disk.store.bin, plan.id)
    requires VerifyIn(w, s.disk.store.releases, plan.id).value.win32 == exe && plan.next.current == plan.id
    requires s.disk.pub.markerTmp.None? && s.disk.pub.pointerTmp.None? && n == 4 + PublishSteps(w)
    ensures Drive(w, s, n) == State(Published(s.disk, plan.next), Idle, s.interrupted)
  {
    LaunchersStay(w, s, plan, exe, 0, 4);
    DriveSum(w, s, 4, n - 4);
    PublishCompletes(w, s.(proc := Working(plan, PointerStart)), plan);
  }

  function RollbackRun(w: World, s: State): State {
    Undisturbed(w, s, BeginRollback, ReactivationSteps(w))
  }

  /** Everything a rollback meets once the tree is checked lets it through. */
  lemma NothingStopsRollback(w: World, d: Disk, m: Marker)
    requires GoodMarker(w, d.store.releases, d.store.bin, m) && CheckedTree(w, d, m) && m.previous.Some?
    ensures d.pub.markerTmp.None? && d.pub.pointerTmp.None? && d.store.binTmp == map[] && d.store.binDir
    ensures Activated(w, d.store.releases, d.store.bin, m.previous.value)
    ensures Installable(VerifyIn(w, d.store.releases, m.previous.value).value)
  {
    CheckedTreeHasNoTemporary(w, d, m);
    assert ReleaseAccepted(w, d.store.releases, m, m.previous.value);
  }

  lemma BeginRollbackIs(w: World, s: State, plan: Plan)
    requires s.proc.Idle? && EnterRollback(w, s.disk) == Working(plan, Recheck)
    ensures Apply(w, s, BeginRollback) == s.(proc := Working(plan, Recheck))
  {
  }

  /** An undisturbed rollback of a checked root swaps the two candidates and touches nothing else. */
  lemma RollbackCompletes(w: World, s: State, m: Marker)
    requires GoodMarker(w, s.disk.store.releases, s.disk.store.bin, m)
    requires s.proc.Idle? && LoadMarker(w, s.disk) == Some(m) && CheckedTree(w, s.disk, m) && m.previous.Some?
    ensures RollbackRun(w, s) == s.(disk := Published(s.disk, Swapped(m)))
  {
    var plan := Plan(m.previous.value, None, Some(m), Swapped(m));
    var t := s.(proc := Working(plan, Recheck));
    RollbackStarts(w, s.disk, m);
    BeginRollbackIs(w, s, plan);
    NothingStopsRollback(w, s.disk, m);
    ReactivationCompletes(w, t, plan, ReactivationSteps(w));
    UndisturbedIsDrive(w, s, BeginRollback, ReactivationSteps(w));
  }

  lemma CheckedRootIsPublished(w: World, d: Disk, m: Marker)
    requires CheckedTree(w, d, m) && LoadMarker(w, d) == Some(m)
    ensures d == Published(d, m)
  {
    CheckedTreeHasNoTemporary(w, d, m);
  }

  lemma SwappedMarkerIsGood(w: World, d: Disk, m: Marker)
    requires GoodMarker(w, d.store.releases, d.store.bin, m) && m.previous.Some? && LoadMarker(w, d) == Some(m)
    ensures var e := Published(d, Swapped(m));
            && GoodMarker(w, e.store.releases, e.store.bin, Swapped(m)) && LoadMarker(w, e) == Some(Swapped(m))
            && Published(e, Swapped(Swapped(m))) == Published(d, m)
  {
  }

  /** A rolled-back root can be rolled back again, and that undoes the first rollback. */
  lemma TwoRollbacksRestoreState(w: World, s: State, m: Marker)
    requires GoodMarker(w, s.disk.store.releases, s.disk.store.bin, m)
    requires s.proc.Idle? && LoadMarker(w, s.disk) == Some(m) && CheckedTree(w, s.disk, m) && m.previous.Some?
    ensures RollbackRun(w, s) == s.(disk := Published(s.disk, Swapped(m)))
    ensures RollbackRun(w, RollbackRun(w, s)) == s
  {
    CheckedRootIsPublished(w, s.disk, m);
    RollbackCompletes(w, s, m);
    SwappedMarkerIsGood(w, s.disk, m);
    SwappedTreeIsChecked(w, s.disk, m);
    RollbackCompletes(w, s.(disk := Published(s.disk, Swapped(m))), Swapped(m));
  }

  /** Two undisturbed rollbacks restore the whole disk, marker included. */
  lemma TwoRollbacksRestore(w: World, actions: seq<Action>)
    requires Run(w, FRESH, actions).proc.Idle? && Intact(Run(w, FRESH, actions))
    requires EnterRollback(w, Run(w, FRESH, actions).disk).Working?
    ensures var s := Run(w, FRESH, actions);
            && LoadMarker(w, s.disk).Some? && LoadMarker(w, s.disk).value.previous.Some?
            && RollbackRun(w, s) == s.(disk := Published(s.disk, Swapped(LoadMarker(w, s.disk).value)))
            && RollbackRun(w, RollbackRun(w, s)) == s
  {
    ReachableInv(w, actions);
    var s := Run(w, FRESH, actions);
    RollbackEnters(w, s.disk);
    TwoRollbacksRestoreState(w, s, LoadMarker(w, s.disk).value);
  }

  /** In every run the launcher-identity check lets a rollback through: its launchers are already in place. */
  lemma RollbackNeverMeetsAnotherLauncher(w: World, actions: seq<Action>)
    requires Intact(Run(w, FRESH, actions)) && Run(w, FRESH, actions).proc.Working?
    requires var p := Run(w, FRESH, actions).proc; p.plan.source.None? && p.pc.Launch? && p.pc.i < 3
    ensures var s := Run(w, FRESH, actions);
            Apply(w, s, Proceed) == s.(proc := Working(s.proc.plan, Launch(s.proc.pc.exe, s.proc.pc.i + 1)))
  {
    ReachableInv(w, actions);
    var s := Run(w, FRESH, actions);
    RollbackLauncherStep(w, s, s.proc.plan, s.proc.pc.exe, s.proc.pc.i);
  }

  lemma RollbackLauncherStep(w: World, s: State, plan: Plan, exe: bool, i: nat)
    requires s.proc == Working(plan, Launch(exe, i)) && plan.source.None? && i < 3
    requires GoodPlan(w, s.disk.store, plan) && StoreAt(w, s.disk.store, plan.id, Launch(exe, i))
    ensures Apply(w, s, Proceed) == s.(proc := Working(plan, Launch(exe, i + 1)))
  {
    RollbackLauncherStays(w, s.disk.store, plan, exe, i);
    LaunchStaysPut(w, s, plan, Launch(exe, i), Launch(exe, i + 1));
  }

  lemma LaunchStaysPut(w: World, s: State, plan: Plan, pc: Pc, next: Pc)
    requires s.proc == Working(plan, pc) && InLaunchPhase(pc)
    requires LaunchStep(w, s.disk.store, plan.id, pc) == Step(s.disk.store, Some(next))
    ensures Apply(w, s, Proceed) == s.(proc := Working(plan, next))
  {
    LaunchProceeds(w, s, plan, pc);
  }

  lemma RollbackLauncherStays(w: World, d: Store, plan: Plan, exe: bool, i: nat)
    requires GoodPlan(w, d, plan) && plan.source.None? && StoreAt(w, d, plan.id, Launch(exe, i)) && i < 3
    ensures LaunchStep(w, d, plan.id, Launch(exe, i)) == Step(d, Some(Launch(exe, i + 1)))
  {
    assert Activated(w, d.releases, d.bin, plan.id);
    InstalledLauncherStays(w, d, plan.id, exe, i);
  }

  lemma InstalledLauncherStays(w: World, d: Store, id: Id, exe: bool, i: nat)
    requires Activated(w, d.releases, d.bin, id) && Exe(w, d, id, exe) && i < 3
    ensures LaunchStep(w, d, id, Launch(exe, i)) == Step(d, Some(Launch(exe, i + 1)))
  {
    var n := BinName(Nth(i), exe);
    assert SameFile(d.bin, n, d.releases[id], LauncherFile(n));
  }

  lemma LaunchProceeds(w: World, s: State, plan: Plan, pc: Pc)
    requires s.proc == Working(plan, pc) && InLaunchPhase(pc)
    ensures var r := LaunchStep(w, s.disk.store, plan.id, pc);
            Apply(w, s, Proceed) == s.(disk := s.disk.(store := r.left), proc := Resume(plan, r.next))
  {
  }

  // ---------------------------------------------------------------- a fresh install

  function Sources(t: Tree, exe: bool, n: nat): Bin
    requires n <= 3 && LaunchersArchived(t, exe)
    decreases n
  {
    if n == 0 then map[]
    else var name := BinName(Nth(n - 1), exe); Sources(t, exe, n - 1)[name := t[LauncherFile(name)]]
  }

  lemma ReleaseApplies(w: World, s: State, plan: Plan, pc: Pc, d: Store, next: Pc)
    requires s.proc == Working(plan, pc) && InReleasePhase(pc)
    requires ReleaseStep(w, s.disk.store, plan, pc, s.disk.pub.markerTmp.None?) == Step(d, Some(next))
    ensures Drive(w, s, 1) == Stepped(s, plan, d, next)
  {
    DriveOne(w, s, Stepped(s, plan, d, next));
  }

  /** Staging, verifying and renaming adds exactly the archive's content under its identity. */
  lemma MaterializeCompletes(w: World, s: State, plan: Plan, n: nat)
    requires s.proc == Working(plan, MakeReleases) && plan.source.Some? && n == 4
    requires VerifiedCandidate(w, plan.source.value) && plan.source.value.id == plan.id
    requires plan.id !in s.disk.store.releases && s.disk.store.staging == map[]
    ensures var d := s.disk.store;
            Drive(w, s, n) == Stepped(s, plan,
              d.(releasesDir := true, releases := d.releases[plan.id := Content(plan.source.value)]), Recheck)
  {
    var t, id := Content(plan.source.value), plan.id;
    ContentVerifies(w, plan.source.value);
    var d1 := s.disk.store.(releasesDir := true);
    var d2, d3 := d1.(staging := map[id := map[]]), d1.(staging := map[id := t]);
    var d4 := d1.(releases := d1.releases[id := t]);
    assert map[id := t] - {id} == map[];
    assert d1.staging[id := map[]] == map[id := map[]] && d2.staging[id := t] == map[id := t];
    ReleaseApplies(w, s, plan, MakeReleases, d1, Materialize);
    ReleaseApplies(w, Stepped(s, plan, d1, Materialize), plan, Materialize, d2, Staging);
    ReleaseApplies(w, Stepped(s, plan, d2, Staging), plan, Staging, d3, Staged);
    ReleaseApplies(w, Stepped(s, plan, d3, Staged), plan, Staged, d4, Recheck);
    DriveSum(w, s, 1, n - 1);
    DriveSum(w, Stepped(s, plan, d1, Materialize), 1, n - 2);
    DriveSum(w, Stepped(s, plan, d2, Staging), 1, n - 3);
  }

  function WithBin(s: State, bin: Bin, plan: Plan, pc: Pc): State {
    State(s.disk.(store := s.disk.store.(bin := bin)), Working(plan, pc), s.interrupted)
  }

  lemma CopyIsThreeSteps(w: World, d: Store, id: Id, exe: bool, i: nat)
    requires i < 3 && d.binTmp == map[] && !w.win32 && id in d.releases
    requires LauncherFile(BinName(Nth(i), exe)) in d.releases[id] && BinName(Nth(i), exe) !in d.bin
    ensures var n := BinName(Nth(i), exe);
            var bytes := d.releases[id][LauncherFile(n)];
            && LaunchStep(w, d, id, Launch(exe, i)) == Step(d.(binTmp := map[n := ""]), Some(Copying(exe, i)))
            && LaunchStep(w, d.(binTmp := map[n := ""]), id, Copying(exe, i)) ==
               Step(d.(binTmp := map[n := bytes]), Some(Copied(exe, i)))
            && LaunchStep(w, d.(binTmp := map[n := bytes]), id, Copied(exe, i)) ==
               Step(d.(bin := d.bin[n := bytes]), Some(Launch(exe, i + 1)))
  {
    var n := BinName(Nth(i), exe);
    var bytes := d.releases[id][LauncherFile(n)];
    assert map[n := bytes] - {n} == map[];
    assert d.binTmp[n := ""] == map[n := ""];
    assert map[n := ""][n := bytes] == map[n := bytes];
  }

  lemma LinkOne(w: World, s: State, plan: Plan, exe: bool, i: nat, k: nat)
    requires s.proc == Working(plan, Launch(exe, i)) && i < 3 && s.disk.store.binTmp == map[] && k == CopySteps(w)
    requires plan.id in s.disk.store.releases && LauncherFile(BinName(Nth(i), exe)) in s.disk.store.releases[plan.id]
    requires BinName(Nth(i), exe) !in s.disk.store.bin
    ensures var n := BinName(Nth(i), exe);
            Drive(w, s, k) == WithBin(s, s.disk.store.bin[n := s.disk.store.releases[plan.id][LauncherFile(n)]], plan,
              Launch(exe, i + 1))
  {
    var n, d := BinName(Nth(i), exe), s.disk.store;
    var bytes := d.releases[plan.id][LauncherFile(n)];
    var last := d.(bin := d.bin[n := bytes]);
    if w.win32 {
      LaunchApplies(w, s, plan, Launch(exe, i), last, Launch(exe, i + 1));
    } else {
      var t, u := d.(binTmp := map[n := ""]), d.(binTmp := map[n := bytes]);
      CopyIsThreeSteps(w, d, plan.id, exe, i);
      LaunchApplies(w, s, plan, Launch(exe, i), t, Copying(exe, i));
      LaunchApplies(w, Stepped(s, plan, t, Copying(exe, i)), plan, Copying(exe, i), u, Copied(exe, i));
      LaunchApplies(w, Stepped(s, plan, u, Copied(exe, i)), plan, Copied(exe, i), last, Launch(exe, i + 1));
      DriveSum(w, s, 1, k - 1);
      DriveSum(w, Stepped(s, plan, t, Copying(exe, i)), 1, k - 2);
    }
  }

  predicate LaunchersArchived(t: Tree, exe: bool) {
    forall l: Launcher :: LauncherFile(BinName(l, exe)) in t
  }

  /** Installing the launchers into an empty `bin` ends at the pointer, with each launcher copied from the release. */
  lemma {:induction false} LinkRest(w: World, s: State, plan: Plan, exe: bool, i: nat, m: nat, n: nat, t: Tree)
    requires i <= m == 3 && n == (if w.win32 then 4 - i else 10 - 3 * i)
    requires plan.id in s.disk.store.releases && s.disk.store.binTmp == map[]
    requires t == s.disk.store.releases[plan.id] && LaunchersArchived(t, exe)
    requires s.proc == Working(plan, Launch(exe, i)) && s.disk.store.bin == Sources(t, exe, i)
    ensures Drive(w, s, n) == WithBin(s, Sources(t, exe, m), plan, PointerStart)
    decreases m - i
  {
    if i == m {
      LaunchApplies(w, s, plan, Launch(exe, i), s.disk.store, PointerStart);
    } else {
      var k := CopySteps(w);
      LinkNextOne(w, s, plan, exe, i, k, t);
      DriveSum(w, s, k, n - k);
      LinkRest(w, WithBin(s, Sources(t, exe, i + 1), plan, Launch(exe, i + 1)), plan, exe, i + 1, m, n - k, t);
    }
  }

  lemma LinkNextOne(w: World, s: State, plan: Plan, exe: bool, i: nat, k: nat, t: Tree)
    requires i < 3 && k == CopySteps(w) && plan.id in s.disk.store.releases && s.disk.store.binTmp == map[]
    requires t == s.disk.store.releases[plan.id] && LaunchersArchived(t, exe)
    requires s.proc == Working(plan, Launch(exe, i)) && s.disk.store.bin == Sources(t, exe, i)
    ensures Drive(w, s, k) == WithBin(s, Sources(t, exe, i + 1), plan, Launch(exe, i + 1))
  {
    SourcesKeys(t, exe, i);
    LinkOne(w, s, plan, exe, i, k);
  }

  lemma SourcesKeys(t: Tree, exe: bool, i: nat)
    requires i <= 3 && LaunchersArchived(t, exe)
    ensures forall k: nat | k < 3 :: BinName(Nth(k), exe) in Sources(t, exe, i) <==> k < i
    ensures forall n | n in Sources(t, exe, i) :: n.exe == exe && SameFile(Sources(t, exe, i), n, t, LauncherFile(n))
    decreases i
  {
    if i > 0 {
      SourcesKeys(t, exe, i - 1);
    }
  }

  /** The disk an undisturbed install into an absent root leaves. */
  function FreshDisk(w: World, c: Candidate): Disk
    requires LaunchersArchived(Content(c), c.manifest.win32)
  {
    Published(Disk(true, Pub(None, None, None, None),
                   Store(true, map[c.id := Content(c)], map[], true, Sources(Content(c), c.manifest.win32, 3), map[])),
              Marker(w.root, c.id, None, c.manifest.target))
  }

  lemma InstallableLaunchers(w: World, c: Candidate)
    requires VerifiedCandidate(w, c) && Installable(c.manifest)
    ensures LaunchersArchived(Content(c), c.manifest.win32)
  {
    forall l: Launcher
      ensures LauncherFile(BinName(l, c.manifest.win32)) in Content(c)
    {
      assert Archives(c.manifest, LauncherFile(BinName(l, c.manifest.win32)));
    }
  }

  lemma FreshEntry(w: World, c: Candidate)
    requires VerifiedCandidate(w, c)
    ensures Apply(w, FRESH, BeginInstall(c)) ==
            State(ABSENT.(present := true), Working(InstallPlan(w, c, None), MakeReleases), false)
  {
    assert Entries(ABSENT.(present := true)) == {};
  }

  lemma MakeBinCreates(w: World, s: State, plan: Plan, exe: bool)
    requires s.proc == Working(plan, MakeBin(exe)) && s.disk.store.binTmp == map[]
    ensures Apply(w, s, Proceed) == Stepped(s, plan, s.disk.store.(binDir := true), Launch(exe, 0))
  {
  }

  function LinkSteps(w: World): nat { if w.win32 then 4 else 10 }

  /** From a materialised release and no launchers to the published root. */
  lemma FirstActivationCompletes(w: World, s: State, plan: Plan, t: Tree, exe: bool, n: nat)
    requires s.proc == Working(plan, Recheck) && plan.next.current == plan.id
    requires VerifyIn(w, s.disk.store.releases, plan.id).Some? && t == s.disk.store.releases[plan.id]
    requires Installable(VerifyIn(w, s.disk.store.releases, plan.id).value)
    requires VerifyIn(w, s.disk.store.releases, plan.id).value.win32 == exe && LaunchersArchived(t, exe)
    requires s.disk.pub.markerTmp.None? && s.disk.pub.pointerTmp.None?
    requires s.disk.store.bin == map[] && s.disk.store.binTmp == map[] && n == 2 + LinkSteps(w) + PublishSteps(w)
    ensures Drive(w, s, n)
            == State(Published(s.disk.(store := s.disk.store.(binDir := true, bin := Sources(t, exe, 3))), plan.next),
              Idle, s.interrupted)
  {
    var s1 := s.(proc := Working(plan, MakeBin(exe)));
    var s2 := Stepped(s, plan, s.disk.store.(binDir := true), Launch(exe, 0));
    RecheckPasses(w, s, plan);
    MakeBinCreates(w, s1, plan, exe);
    DriveMore(w, s, s1, n);
    DriveMore(w, s1, s2, n - 1);
    LinkRest(w, s2, plan, exe, 0, 3, LinkSteps(w), t);
    DriveSum(w, s2, LinkSteps(w), PublishSteps(w));
    PublishCompletes(w, WithBin(s2, Sources(t, exe, 3), plan, PointerStart), plan);
  }

  function InstallSteps(w: World): nat { 6 + LinkSteps(w) + PublishSteps(w) }

  function Materialized(w: World, c: Candidate): State {
    State(Disk(true, ABSENT.pub, ABSENT.store.(releasesDir := true, releases := map[c.id := Content(c)])),
          Working(InstallPlan(w, c, None), Recheck), false)
  }

  lemma FreshMaterialize(w: World, c: Candidate, n: nat)
    requires VerifiedCandidate(w, c) && n == 4
    ensures Drive(w, Apply(w, FRESH, BeginInstall(c)), n) == Materialized(w, c)
  {
    FreshEntry(w, c);
    assert ABSENT.store.releases[c.id := Content(c)] == map[c.id := Content(c)];
    MaterializeCompletes(w, Apply(w, FRESH, BeginInstall(c)), InstallPlan(w, c, None), n);
  }

  lemma FreshActivate(w: World, c: Candidate, n: nat)
    requires VerifiedCandidate(w, c) && Installable(c.manifest) && LaunchersArchived(Content(c), c.manifest.win32)
    requires n == 2 + LinkSteps(w) + PublishSteps(w)
    ensures Drive(w, Materialized(w, c), n) == State(FreshDisk(w, c), Idle, false)
  {
    ContentVerifies(w, c);
    FirstActivationCompletes(w, Materialized(w, c), InstallPlan(w, c, None), Content(c), c.manifest.win32, n);
  }

  /** An undisturbed install into an absent root of any installable archive publishes it, launchers included. */
  lemma FreshInstallCompletes(w: World, c: Candidate)
    requires VerifiedCandidate(w, c) && Installable(c.manifest)
    ensures LaunchersArchived(Content(c), c.manifest.win32)
    ensures Undisturbed(w, FRESH, BeginInstall(c), InstallSteps(w)) == State(FreshDisk(w, c), Idle, false)
  {
    UndisturbedIsDrive(w, FRESH, BeginInstall(c), InstallSteps(w));
    var m, n := 4, 2 + LinkSteps(w) + PublishSteps(w);
    InstallableLaunchers(w, c);
    FreshMaterialize(w, c, m);
    FreshActivate(w, c, n);
    DriveSum(w, Apply(w, FRESH, BeginInstall(c)), m, n);
  }

  lemma FreshFilesAllowed(w: World, c: Candidate)
    requires VerifiedCandidate(w, c)
    ensures AllowedFiles(VerifyIn(w, map[c.id := Content(c)], c.id)) == Content(c).Keys
  {
    ContentVerifies(w, c);
  }

  /** What the presence of an entry means. */
  ghost predicate Stands(d: Disk, e: Entry) {
    match e
    case MarkerEntry => d.pub.marker.Some?
    case MarkerTmpEntry => d.pub.markerTmp.Some?
    case PointerEntry => d.pub.pointer.Some?
    case PointerTmpEntry => d.pub.pointerTmp.Some?
    case BinEntry => d.store.binDir
    case ReleasesEntry => d.store.releasesDir
    case LauncherEntry(n) => n in d.store.bin
    case LauncherTmpEntry(n) => n in d.store.binTmp
    case ReleaseEntry(id) => id in d.store.releases
    case StagingEntry(id) => id in d.store.staging
    case FileNode(id, p) => id in d.store.releases && e in Nodes(id, d.store.releases[id].Keys)
    case DirNode(id, p) => id in d.store.releases && e in Nodes(id, d.store.releases[id].Keys)
  }

  lemma EntryStands(d: Disk, e: Entry)
    requires e in Entries(d)
    ensures Stands(d, e)
  {
    if e in PubEntries(d.pub) {
      assert e in {MarkerEntry, MarkerTmpEntry, PointerEntry, PointerTmpEntry};
    } else {
      StoreEntryStands(d, e);
    }
  }

  lemma StoreEntryStands(d: Disk, e: Entry)
    requires e in StoreEntries(d.store)
    ensures Stands(d, e)
  {
  }

  lemma NodeAllowed(w: World, releases: Releases, target: Target, id: Id, e: Entry)
    requires id in releases && e in Nodes(id, AllowedFiles(VerifyIn(w, releases, id)))
    ensures e in AllowedEntries(w, releases, target)
  {
  }

  lemma FreshAllowed(w: World, c: Candidate)
    requires VerifiedCandidate(w, c) && LaunchersArchived(Content(c), c.manifest.win32)
    requires c.manifest.win32 == c.manifest.target.IsWindows()
    ensures Entries(FreshDisk(w, c)) <= AllowedEntries(w, FreshDisk(w, c).store.releases, c.manifest.target)
  {
    var d := FreshDisk(w, c);
    forall e | e in Entries(d)
      ensures e in AllowedEntries(w, d.store.releases, c.manifest.target)
    {
      EntryStands(d, e);
      FreshEntryAllowed(w, c, e);
    }
  }

  lemma FreshEntryAllowed(w: World, c: Candidate, e: Entry)
    requires VerifiedCandidate(w, c) && LaunchersArchived(Content(c), c.manifest.win32)
    requires c.manifest.win32 == c.manifest.target.IsWindows() && Stands(FreshDisk(w, c), e)
    ensures e in AllowedEntries(w, FreshDisk(w, c).store.releases, c.manifest.target)
  {
    if e.FileNode? || e.DirNode? {
      FreshFilesAllowed(w, c);
      NodeAllowed(w, FreshDisk(w, c).store.releases, c.manifest.target, c.id, e);
    } else if e.LauncherEntry? {
      FreshLaunchersAllowed(w, c);
    }
  }

  lemma FreshLaunchersAllowed(w: World, c: Candidate)
    requires LaunchersArchived(Content(c), c.manifest.win32)
    requires c.manifest.win32 == c.manifest.target.IsWindows()
    ensures forall n | n in FreshDisk(w, c).store.bin ::
              LauncherEntry(n) in AllowedEntries(w, FreshDisk(w, c).store.releases, c.manifest.target)
  {
    SourcesKeys(Content(c), c.manifest.win32, 3);
    forall n | n in FreshDisk(w, c).store.bin
      ensures LauncherEntry(n) in AllowedEntries(w, FreshDisk(w, c).store.releases, c.manifest.target)
    {
      assert n == BinName(n.launcher, c.manifest.win32);
    }
  }

  lemma FreshStoreChecked(w: World, c: Candidate, m: Marker)
    requires VerifiedCandidate(w, c) && Installable(c.manifest) && LaunchersArchived(Content(c), c.manifest.win32)
    requires c.manifest.win32 == c.manifest.target.IsWindows()
    requires m == Marker(w.root, c.id, None, c.manifest.target)
    ensures CheckedStore(w, FreshDisk(w, c).store, m)
  {
    ContentVerifies(w, c);
    var d := FreshDisk(w, c).store;
    SourcesKeys(Content(c), c.manifest.win32, 3);
    forall l: Launcher
      ensures SameFile(d.bin, BinName(l, c.manifest.win32), Content(c), LauncherFile(BinName(l, c.manifest.win32)))
    {
      assert l == Nth(if l.Cli? then 0 else if l.Tui? then 1 else 2);
    }
    assert ReleaseAccepted(w, d.releases, m, c.id);
  }

  lemma ForeignLauncherIsRefused(w: World, d: Disk, m: Marker, n: BinName)
    requires n in d.store.bin && n.exe != m.target.IsWindows()
    ensures !(Entries(d) <= AllowedEntries(w, d.store.releases, m.target))
  {
    EntriesCoverTemporaries(d);
    if LauncherEntry(n) in AllowedEntries(w, d.store.releases, m.target) {
      AllowedEntry(w, d.store.releases, m.target, LauncherEntry(n));
    }
  }

  lemma FreshTreeChecked(w: World, c: Candidate, m: Marker)
    requires VerifiedCandidate(w, c) && Installable(c.manifest) && LaunchersArchived(Content(c), c.manifest.win32)
    requires m == Marker(w.root, c.id, None, c.manifest.target)
    ensures CheckedTree(w, FreshDisk(w, c), m) <==>
              c.manifest.win32 == c.manifest.target.IsWindows() && |Entries(FreshDisk(w, c))| <= MAX_ENTRIES
  {
    if c.manifest.win32 == c.manifest.target.IsWindows() {
      FreshStoreChecked(w, c, m);
      FreshAllowed(w, c);
    } else {
      SourcesKeys(Content(c), c.manifest.win32, 3);
      ForeignLauncherIsRefused(w, FreshDisk(w, c), m, BinName(Nth(0), c.manifest.win32));
    }
  }

  /**
   The freshly installed root is one that an uninstall, and an install of the same target, accept exactly when
   the manifest's operating system matches its target's name and the tree stays within the entry bound.
   */
  lemma FreshInstallIsManageable(w: World, c: Candidate)
    requires VerifiedCandidate(w, c) && Installable(c.manifest)
    ensures LaunchersArchived(Content(c), c.manifest.win32)
    ensures var d, m := FreshDisk(w, c), Marker(w.root, c.id, None, c.manifest.target);
            && Status(w, d) == Some(m) && EnterRollback(w, d).Idle?
            && (CheckedTree(w, d, m) <==>
                  c.manifest.win32 == c.manifest.target.IsWindows() && |Entries(d)| <= MAX_ENTRIES)
            && (EnterUninstall(w, d).Uninstalling? <==> CheckedTree(w, d, m))
            && (forall x | VerifiedCandidate(w, x) && x.manifest.target == c.manifest.target ::
                  EnterInstall(w, d, x).Working? <==> CheckedTree(w, d, m))
  {
    InstallableLaunchers(w, c);
    FreshTreeChecked(w, c, Marker(w.root, c.id, None, c.manifest.target));
  }

  // ---------------------------------------------------------------- an archive whose root cannot be managed

  const SAMPLE_ID := Id("0123456789abcdef01234567")

  function SampleFile(p: Path): FileEntry { FileEntry(p, "", 0) }

  function SampleSlot(p: Path): Slot { Slot(Some(p), Some("")) }

  const EMPTY_SLOT := Slot(None, None)

  /** The executables, launchers and web files that installing demands. */
  function SamplePath(exe: bool, i: nat): Path {
    if i < 3 then ExecutableFile(BinName(Nth(i), exe))
    else if i < 6 then LauncherFile(BinName(Nth(i - 3), exe))
    else if i == 6 then WebIndex else WebContract
  }

  function SampleFiles(exe: bool, n: nat): (r: seq<FileEntry>)
    ensures |r| == n && forall i | 0 <= i < n :: r[i] == SampleFile(SamplePath(exe, i))
  {
    seq(n, i requires 0 <= i < n => SampleFile(SamplePath(exe, i)))
  }

  function SampleManifest(target: Target, exe: bool): Manifest {
    Manifest(target, exe,
             Some(Slots(SampleSlot(SamplePath(exe, 0)), SampleSlot(SamplePath(exe, 1)), SampleSlot(SamplePath(exe, 2)),
                        EMPTY_SLOT, EMPTY_SLOT, EMPTY_SLOT, SampleSlot(WebIndex))),
             SampleFiles(exe, 8))
  }

  function SampleCandidate(man: Manifest): Candidate {
    Candidate(SAMPLE_ID, man, map p | p in {ManifestFile, ChecksumsFile} + Paths(man) :: "")
  }

  function SampleWorld(root: string, win32: bool, man: Manifest): World {
    World(root, win32, _ => SAMPLE_ID, _ => "", _ => Some(man))
  }

  lemma SampleArchivesAt(man: Manifest, exe: bool, i: nat)
    requires man.files == SampleFiles(exe, 8) && i < 8
    ensures Archives(man, SamplePath(exe, i))
  {
    assert man.files[i] in man.files;
  }

  lemma SampleArchives(target: Target, exe: bool, man: Manifest)
    requires man == SampleManifest(target, exe)
    ensures Installable(man) && ManifestSchema(man)
  {
    SampleArchivesAt(man, exe, 6);
    SampleArchivesAt(man, exe, 7);
    forall l: Launcher
      ensures Archives(man, ExecutableFile(BinName(l, exe))) && Archives(man, LauncherFile(BinName(l, exe)))
    {
      var i := if l.Cli? then 0 else if l.Tui? then 1 else 2;
      SampleArchivesAt(man, exe, i);
      SampleArchivesAt(man, exe, i + 3);
    }
  }

  lemma SampleVerifies(root: string, win32: bool, man: Manifest)
    requires ManifestSchema(man) && forall e | e in man.files :: e == SampleFile(e.path)
    ensures VerifiedCandidate(SampleWorld(root, win32, man), SampleCandidate(man))
  {
  }

  lemma ForeignIsStuck(w: World, c: Candidate)
    requires VerifiedCandidate(w, c) && Installable(c.manifest) && c.manifest.win32 != c.manifest.target.IsWindows()
    ensures var d := Undisturbed(w, FRESH, BeginInstall(c), InstallSteps(w)).disk;
            Status(w, d).Some? && EnterUninstall(w, d).Idle? && EnterInstall(w, d, c).Idle?
  {
    FreshInstallCompletes(w, c);
    FreshInstallIsManageable(w, c);
    EntersOrNot(w, FreshDisk(w, c), c);
  }

  /** On every machine and for every target there is an installable archive, with the other operating system in its
      manifest, whose undisturbed first install ends in a root that neither an uninstall nor an install accepts. */
  lemma ForeignArchiveIsStuck(root: string, win32: bool, target: Target) returns (w: World, c: Candidate)
    ensures w.root == root && w.win32 == win32 && c.manifest.target == target
    ensures VerifiedCandidate(w, c) && Installable(c.manifest)
    ensures var d := Undisturbed(w, FRESH, BeginInstall(c), InstallSteps(w)).disk;
            Status(w, d).Some? && EnterUninstall(w, d).Idle? && EnterInstall(w, d, c).Idle?
  {
    var man := SampleManifest(target, !target.IsWindows());
    w, c := SampleWorld(root, win32, man), SampleCandidate(man);
    SampleArchives(target, !target.IsWindows(), man);
    SampleVerifies(root, win32, man);
    ForeignIsStuck(w, c);
  }

  lemma EntersOrNot(w: World, d: Disk, c: Candidate)
    ensures EnterUninstall(w, d).Uninstalling? || EnterUninstall(w, d).Idle?
    ensures EnterInstall(w, d, c).Working? || EnterInstall(w, d, c).Idle?
  {
  }

  // ---------------------------------------------------------------- an uninstall that stops half-way

  lemma RunThree(w: World, s: State, a: Action, b: Action, c: Action)
    ensures Run(w, s, [a, b, c]) == Apply(w, Apply(w, Apply(w, s, a), b), c)
  {
    var s1 := Apply(w, s, a);
    var s2 := Apply(w, s1, b);
    assert [a, b, c][1..] == [b, c] && [b, c][1..] == [c] && [c][1..] == [];
    assert Run(w, s, [a, b, c]) == Run(w, s1, [b, c]) == Run(w, s2, [c]) == Run(w, Apply(w, s2, c), []);
  }

  lemma BeginUninstallIs(w: World, s: State)
    requires s.proc.Idle?
    ensures Apply(w, s, BeginUninstall) == s.(proc := EnterUninstall(w, s.disk))
  {
    assert ApplyIdle(w, s, BeginUninstall) == s.(proc := EnterUninstall(w, s.disk));
  }

  lemma UninstallEnters(w: World, d: Disk)
    requires EnterUninstall(w, d).Uninstalling?
    ensures Status(w, d).Some?
  {
  }

  function WithoutReleases(d: Disk): Disk {
    d.(store := d.store.(releases := map[]))
  }

  /**
   Whenever an uninstall may start, it may also stop after removing the releases but neither the marker
   nor the pointer; the status then still names a candidate whose directory is gone.
   */
  lemma InterruptedUninstallMisleadsStatus(w: World, s: State)
    requires s.proc.Idle? && EnterUninstall(w, s.disk).Uninstalling?
    ensures var t := Run(w, s, [BeginUninstall, Remove(WithoutReleases(s.disk)), Crash]);
            t.proc.Idle? && Status(w, t.disk).Some? && Status(w, t.disk).value.current !in t.disk.store.releases
  {
    RunThree(w, s, BeginUninstall, Remove(WithoutReleases(s.disk)), Crash);
    BeginUninstallIs(w, s);
    UninstallEnters(w, s.disk);
    RemovalMayReachReleasesFirst(w, s.(proc := Uninstalling));
  }

  lemma RemovalMayReachReleasesFirst(w: World, s: State)
    requires s.proc.Uninstalling?
    ensures Apply(w, Apply(w, s, Remove(WithoutReleases(s.disk))), Crash) == State(WithoutReleases(s.disk), Idle, true)
  {
  }

  /** An accepted status names a release that is there in full. */
  ghost predicate StatusIsSound(w: World, d: Disk) {
    Status(w, d).Some? ==>
      var id := Status(w, d).value.current;
      id in d.store.releases && Complete(w, id, d.store.releases[id])
  }

  function AfterInterrupted(w: World, s: State, rest: Disk): State {
    Run(w, s, [BeginUninstall, Remove(rest), Crash])
  }

  lemma RefusedUninstallChangesNothing(w: World, s: State, rest: Disk)
    requires s.proc.Idle? && EnterUninstall(w, s.disk) == Idle
    ensures AfterInterrupted(w, s, rest) == s
  {
    RunThree(w, s, BeginUninstall, Remove(rest), Crash);
    BeginUninstallIs(w, s);
    IdleIgnores(w, s, Remove(rest));
    IdleIgnores(w, s, Crash);
  }

  lemma IdleIgnores(w: World, s: State, a: Action)
    requires s.proc.Idle? && (a.Remove? || a.Crash?)
    ensures Apply(w, s, a) == s
  {
  }

  lemma EnterUninstallIs(w: World, d: Disk)
    ensures EnterUninstall(w, d).Uninstalling? || EnterUninstall(w, d) == Idle
  {
  }

  /** The status stays sound through an uninstall that dies exactly when the uninstall is refused at its entry. */
  lemma StatusSurvivesExactly(w: World, actions: seq<Action>)
    requires Intact(Run(w, FRESH, actions)) && Run(w, FRESH, actions).proc.Idle?
    ensures var s := Run(w, FRESH, actions);
            (forall rest :: StatusIsSound(w, AfterInterrupted(w, s, rest).disk)) <==>
              !EnterUninstall(w, s.disk).Uninstalling?
  {
    var s := Run(w, FRESH, actions);
    EnterUninstallIs(w, s.disk);
    if EnterUninstall(w, s.disk).Uninstalling? {
      InterruptedUninstallMisleadsStatus(w, s);
      assert !StatusIsSound(w, AfterInterrupted(w, s, WithoutReleases(s.disk)).disk);
    } else {
      assert StatusIsSound(w, s.disk) by {
        AcceptedStatusIsComplete(w, actions);
      }
      forall rest
        ensures StatusIsSound(w, AfterInterrupted(w, s, rest).disk)
      {
        RefusedUninstallChangesNothing(w, s, rest);
      }
    }
  }
}
