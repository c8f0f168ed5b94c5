/** Installing onto a managed root: what an undisturbed upgrade leaves, and what a failed one leaves at every point. */
module ManagedUpgrade {
  import opened Basics
  import opened ManagedInstall
  import opened ManagedInstallSafety
  import opened ManagedInstallTheorems
  import opened ManagedInstallTidy

  // ---------------------------------------------------------------- linking launchers

  /** The launchers after activateRelease, and whether it went through all of them. */
  datatype Linking = Linking(bin: Bin, ok: bool)

  function Link(t: Tree, bin: Bin, exe: bool, i: nat): Linking
    requires LaunchersArchived(t, exe) && i <= 3
    decreases 3 - i
  {
    var n := BinName(Nth(i), exe);
    if i == 3 then Linking(bin, true)
    else if n !in bin then Link(t, bin[n := t[LauncherFile(n)]], exe, i + 1)
    else if bin[n] == t[LauncherFile(n)] then Link(t, bin, exe, i + 1)
    else Linking(bin, false)
  }

  predicate FitsFrom(t: Tree, bin: Bin, exe: bool, i: nat)
    requires LaunchersArchived(t, exe)
  {
    forall k: nat | i <= k < 3 && BinName(Nth(k), exe) in bin ::
      bin[BinName(Nth(k), exe)] == t[LauncherFile(BinName(Nth(k), exe))]
  }

  /** Each launcher already installed equals the release's. */
  predicate Fits(t: Tree, bin: Bin, exe: bool)
    requires LaunchersArchived(t, exe)
  {
    forall l: Launcher | BinName(l, exe) in bin :: bin[BinName(l, exe)] == t[LauncherFile(BinName(l, exe))]
  }

  lemma {:induction false} LinkFitsFrom(t: Tree, bin: Bin, exe: bool, i: nat)
    requires LaunchersArchived(t, exe) && i <= 3
    ensures Link(t, bin, exe, i).ok <==> FitsFrom(t, bin, exe, i)
    decreases 3 - i
  {
    if i < 3 {
      var n := BinName(Nth(i), exe);
      if n !in bin {
        LinkFitsFrom(t, bin[n := t[LauncherFile(n)]], exe, i + 1);
      } else if bin[n] == t[LauncherFile(n)] {
        LinkFitsFrom(t, bin, exe, i + 1);
      }
    }
  }

  lemma LinkFits(t: Tree, bin: Bin, exe: bool, i: nat)
    requires LaunchersArchived(t, exe) && i == 0
    ensures Link(t, bin, exe, i).ok <==> Fits(t, bin, exe)
  {
    LinkFitsFrom(t, bin, exe, i);
    if FitsFrom(t, bin, exe, i) {
      forall l: Launcher | BinName(l, exe) in bin
        ensures bin[BinName(l, exe)] == t[LauncherFile(BinName(l, exe))]
      {
        assert l == Nth(if l.Cli? then 0 else if l.Tui? then 1 else 2);
      }
    }
  }

  /** Linking adds launchers with the release's suffix and changes none. */
  lemma {:induction false} LinkAdds(t: Tree, bin: Bin, exe: bool, i: nat)
    requires LaunchersArchived(t, exe) && i <= 3
    ensures var r := Link(t, bin, exe, i);
            SubMap(bin, r.bin) && forall n | n in r.bin && n !in bin :: n.exe == exe
    decreases 3 - i
  {
    if i < 3 {
      var n := BinName(Nth(i), exe);
      if n !in bin {
        LinkAdds(t, bin[n := t[LauncherFile(n)]], exe, i + 1);
      } else if bin[n] == t[LauncherFile(n)] {
        LinkAdds(t, bin, exe, i + 1);
      }
    }
  }

  /** A linking that goes through leaves every launcher of the release in place. */
  lemma {:induction false} LinkPlaces(t: Tree, bin: Bin, exe: bool, i: nat, k: nat)
    requires LaunchersArchived(t, exe) && i <= 3 && Link(t, bin, exe, i).ok && k < 3
    requires k < i ==> SameFile(bin, BinName(Nth(k), exe), t, LauncherFile(BinName(Nth(k), exe)))
    ensures SameFile(Link(t, bin, exe, i).bin, BinName(Nth(k), exe), t, LauncherFile(BinName(Nth(k), exe)))
    decreases 3 - i
  {
    if i < 3 {
      var n := BinName(Nth(i), exe);
      LinkPlaces(t, if n !in bin then bin[n := t[LauncherFile(n)]] else bin, exe, i + 1, k);
    }
  }

  // ---------------------------------------------------------------- undisturbed linking

  lemma {:induction false} IdleStays(w: World, s: State, n: nat)
    requires s.proc.Idle?
    ensures Drive(w, s, n) == s
    decreases n
  {
    if n > 0 {
      IdleStays(w, s, n - 1);
    }
  }

  function Ended(s: State, d: Store): State {
    State(s.disk.(store := d), Idle, s.interrupted)
  }

  lemma ClashEnds(w: World, s: State, plan: Plan, exe: bool, i: nat)
    requires s.proc == Working(plan, Launch(exe, i)) && i < 3 && plan.id in s.disk.store.releases
    requires var n, t := BinName(Nth(i), exe), s.disk.store.releases[plan.id];
             LauncherFile(n) in t && n in s.disk.store.bin && s.disk.store.bin[n] != t[LauncherFile(n)]
    ensures forall bound: nat | bound > 0 :: Leads(w, s, Ended(s, s.disk.store), bound)
  {
    LaunchProceeds(w, s, plan, Launch(exe, i));
    DriveOne(w, s, Ended(s, s.disk.store));
  }

  function AfterLink(s: State, plan: Plan, r: Linking): State {
    if r.ok then WithBin(s, r.bin, plan, PointerStart) else Ended(s, s.disk.store.(bin := r.bin))
  }

  /** Some number of undisturbed steps, no more than the bound, leads from one state to another. */
  ghost predicate Leads(w: World, s: State, t: State, bound: nat) {
    exists k: nat :: k <= bound && Drive(w, s, k) == t
  }

  lemma LeadsBy(w: World, s: State, t: State, k: nat, bound: nat)
    requires Drive(w, s, k) == t && k <= bound
    ensures Leads(w, s, t, bound)
  {
  }

  lemma LeadsOn(w: World, s: State, t: State, u: State, a: nat, b: nat)
    requires Leads(w, s, t, a) && Leads(w, t, u, b)
    ensures Leads(w, s, u, a + b)
  {
    var j: nat :| j <= a && Drive(w, s, j) == t;
    var k: nat :| k <= b && Drive(w, t, k) == u;
    DriveSum(w, s, j, k);
    LeadsBy(w, s, u, j + k, a + b);
  }

  lemma {:induction false} LinkRuns(w: World, s: State, plan: Plan, exe: bool, i: nat, t: Tree)
    requires s.proc == Working(plan, Launch(exe, i)) && i <= 3 && s.disk.store.binTmp == map[]
    requires plan.id in s.disk.store.releases && t == s.disk.store.releases[plan.id] && LaunchersArchived(t, exe)
    ensures Leads(w, s, AfterLink(s, plan, Link(t, s.disk.store.bin, exe, i)), 10 - 3 * i)
    decreases 3 - i
  {
    var n, bin := BinName(Nth(i), exe), s.disk.store.bin;
    if i == 3 {
      AllLinked(w, s, plan, exe, i);
    } else if n in bin && bin[n] != t[LauncherFile(n)] {
      ClashEnds(w, s, plan, exe, i);
    } else {
      var more := if n in bin then bin else bin[n := t[LauncherFile(n)]];
      var next := WithBin(s, more, plan, Launch(exe, i + 1));
      LinkStep(w, s, plan, exe, i, t, next);
      LinkRuns(w, next, plan, exe, i + 1, t);
      AfterLinkAgain(s, more, plan, Launch(exe, i + 1), Link(t, more, exe, i + 1));
      LeadsOn(w, s, next, AfterLink(s, plan, Link(t, bin, exe, i)), 3, 10 - 3 * (i + 1));
    }
  }

  lemma AllLinked(w: World, s: State, plan: Plan, exe: bool, i: nat)
    requires s.proc == Working(plan, Launch(exe, i)) && i == 3
    ensures Leads(w, s, WithBin(s, s.disk.store.bin, plan, PointerStart), 1)
  {
    LaunchApplies(w, s, plan, Launch(exe, i), s.disk.store, PointerStart);
    LeadsBy(w, s, WithBin(s, s.disk.store.bin, plan, PointerStart), 1, 1);
  }

  lemma AfterLinkAgain(s: State, bin: Bin, plan: Plan, pc: Pc, r: Linking)
    ensures AfterLink(WithBin(s, bin, plan, pc), plan, r) == AfterLink(s, plan, r)
  {
  }

  lemma LinkStep(w: World, s: State, plan: Plan, exe: bool, i: nat, t: Tree, next: State)
    requires s.proc == Working(plan, Launch(exe, i)) && i < 3 && s.disk.store.binTmp == map[]
    requires plan.id in s.disk.store.releases && t == s.disk.store.releases[plan.id] && LaunchersArchived(t, exe)
    requires var n := BinName(Nth(i), exe); n in s.disk.store.bin ==> s.disk.store.bin[n] == t[LauncherFile(n)]
    requires var n, bin := BinName(Nth(i), exe), s.disk.store.bin;
             next == WithBin(s, if n in bin then bin else bin[n := t[LauncherFile(n)]], plan, Launch(exe, i + 1))
    ensures Leads(w, s, next, 3)
  {
    var n := BinName(Nth(i), exe);
    if n in s.disk.store.bin {
      LaunchApplies(w, s, plan, Launch(exe, i), s.disk.store, Launch(exe, i + 1));
      LeadsBy(w, s, next, 1, 3);
    } else {
      LinkOne(w, s, plan, exe, i, CopySteps(w));
      LeadsBy(w, s, next, CopySteps(w), 3);
    }
  }

  // ---------------------------------------------------------------- an undisturbed upgrade

  /** The store once the archive is materialised; a release already there is kept. */
  function Materialised(d: Store, c: Candidate): Store {
    if c.id in d.releases then d else d.(releases := d.releases[c.id := Content(c)])
  }

  lemma ReleaseIsThere(w: World, s: State, plan: Plan, n: nat)
    requires s.proc == Working(plan, MakeReleases) && s.disk.store.releasesDir && n == 2
    requires plan.id in s.disk.store.releases && Verify(w, s.disk.store.releases[plan.id], plan.id).Some?
    ensures Drive(w, s, n) == Stepped(s, plan, s.disk.store, Recheck)
  {
    var d := s.disk.store;
    ReleaseApplies(w, s, plan, MakeReleases, d, Materialize);
    ReleaseApplies(w, Stepped(s, plan, d, Materialize), plan, Materialize, d, Recheck);
    DriveSum(w, s, 1, n - 1);
  }

  lemma MaterialiseRuns(w: World, s: State, plan: Plan, c: Candidate)
    requires s.proc == Working(plan, MakeReleases) && plan.source == Some(c) && c.id == plan.id
             && VerifiedCandidate(w, c)
    requires s.disk.store.releasesDir && s.disk.store.staging == map[]
    requires c.id in s.disk.store.releases ==> Verify(w, s.disk.store.releases[c.id], c.id).Some?
    ensures Leads(w, s, Stepped(s, plan, Materialised(s.disk.store, c), Recheck), 4)
  {
    var t := Stepped(s, plan, Materialised(s.disk.store, c), Recheck);
    if c.id in s.disk.store.releases {
      ReleaseIsThere(w, s, plan, 2);
      LeadsBy(w, s, t, 2, 4);
    } else {
      MaterializeCompletes(w, s, plan, 4);
      LeadsBy(w, s, t, 4, 4);
    }
  }

  lemma VerifiedLaunchers(w: World, t: Tree, id: Id)
    requires Verify(w, t, id).Some? && Installable(Verify(w, t, id).value)
    ensures LaunchersArchived(t, Verify(w, t, id).value.win32)
  {
    var man := Verify(w, t, id).value;
    forall l: Launcher
      ensures LauncherFile(BinName(l, man.win32)) in t
    {
      assert Archives(man, LauncherFile(BinName(l, man.win32)));
      var e :| e in man.files && e.path == LauncherFile(BinName(l, man.win32));
      assert FileMatches(w, t, e);
    }
  }

  lemma RecheckRefuses(w: World, s: State, plan: Plan)
    requires s.proc == Working(plan, Recheck) && VerifyIn(w, s.disk.store.releases, plan.id).Some?
    requires !Installable(VerifyIn(w, s.disk.store.releases, plan.id).value)
    ensures Apply(w, s, Proceed) == s.(proc := Idle)
  {
  }

  /** From a materialised release: refused, stopped at a launcher that differs, or published. */
  function ActivatedDisk(d: Disk, next: Marker, man: Manifest, t: Tree): Disk
    requires Installable(man) ==> LaunchersArchived(t, man.win32)
  {
    if !Installable(man) then d
    else
      LinkedDisk(d, next, Link(t, d.store.bin, man.win32, 0))
  }

  lemma PublishRuns(w: World, s: State, plan: Plan)
    requires s.proc == Working(plan, PointerStart) && plan.next.current == plan.id
    requires s.disk.pub.pointerTmp.None? && s.disk.pub.markerTmp.None?
    ensures Leads(w, s, State(Published(s.disk, plan.next), Idle, s.interrupted), 8)
  {
    PublishCompletes(w, s, plan);
    LeadsBy(w, s, State(Published(s.disk, plan.next), Idle, s.interrupted), PublishSteps(w), 8);
  }

  function LinkedDisk(d: Disk, next: Marker, r: Linking): Disk {
    var e := d.(store := d.store.(bin := r.bin));
    if r.ok then Published(e, next) else e
  }

  lemma LinkEnds(w: World, s: State, plan: Plan, exe: bool, t: Tree, m: nat, r: Linking)
    requires s.proc == Working(plan, Launch(exe, m)) && m == 0 && s.disk.store.binTmp == map[]
    requires plan.id in s.disk.store.releases && t == s.disk.store.releases[plan.id] && LaunchersArchived(t, exe)
    requires s.disk.pub.markerTmp.None? && s.disk.pub.pointerTmp.None? && plan.next.current == plan.id
    requires r == Link(t, s.disk.store.bin, exe, m)
    ensures Leads(w, s, State(LinkedDisk(s.disk, plan.next, r), Idle, s.interrupted), 18)
  {
    LinkRuns(w, s, plan, exe, m, t);
    var t, u := AfterLink(s, plan, r), State(LinkedDisk(s.disk, plan.next, r), Idle, s.interrupted);
    if r.ok {
      PublishRuns(w, t, plan);
    } else {
      LeadsNowhere(w, t, 8);
    }
    LeadsOn(w, s, t, u, 10, 8);
  }

  lemma LeadsNowhere(w: World, s: State, bound: nat)
    ensures Leads(w, s, s, bound)
  {
    assert Drive(w, s, 0) == s;
  }

  lemma RecheckRuns(w: World, s: State, plan: Plan, man: Manifest)
    requires s.proc == Working(plan, Recheck) && VerifyIn(w, s.disk.store.releases, plan.id) == Some(man)
             && Installable(man)
    requires s.disk.pub.markerTmp.None? && s.disk.store.binTmp == map[] && s.disk.store.binDir
    ensures Leads(w, s, s.(proc := Working(plan, Launch(man.win32, 0))), 2)
  {
    var t := s.(proc := Working(plan, Launch(man.win32, 0)));
    RecheckReachesLaunch(w, s, plan, man.win32, 2);
    assert Drive(w, t, 0) == t;
    LeadsBy(w, s, t, 2, 2);
  }

  lemma ActivationEnds(w: World, s: State, plan: Plan, man: Manifest, t: Tree)
    requires s.proc == Working(plan, Recheck) && VerifyIn(w, s.disk.store.releases, plan.id) == Some(man)
    requires t == s.disk.store.releases[plan.id] && (Installable(man) ==> LaunchersArchived(t, man.win32))
    requires s.disk.pub.markerTmp.None? && s.disk.pub.pointerTmp.None? && plan.next.current == plan.id
    requires s.disk.store.binTmp == map[] && s.disk.store.binDir
    ensures Leads(w, s, State(ActivatedDisk(s.disk, plan.next, man, t), Idle, s.interrupted), 20)
  {
    var u := State(ActivatedDisk(s.disk, plan.next, man, t), Idle, s.interrupted);
    if Installable(man) {
      var s2 := s.(proc := Working(plan, Launch(man.win32, 0)));
      RecheckRuns(w, s, plan, man);
      LinkEnds(w, s2, plan, man.win32, t, 0, Link(t, s.disk.store.bin, man.win32, 0));
      LeadsOn(w, s, s2, u, 2, 18);
    } else {
      RecheckRefuses(w, s, plan);
      DriveOne(w, s, u);
      LeadsBy(w, s, u, 1, 20);
    }
  }

  /** A managed root that may be upgraded with an archive. */
  predicate Upgradable(w: World, d: Disk, m: Marker, c: Candidate) {
    LoadMarker(w, d) == Some(m) && CheckedTree(w, d, m) && VerifiedCandidate(w, c) && c.manifest.target == m.target
  }

  lemma UpgradeEnters(w: World, s: State, m: Marker, c: Candidate)
    requires s.proc.Idle? && Upgradable(w, s.disk, m, c)
    ensures Apply(w, s, BeginInstall(c)) == s.(proc := Working(InstallPlan(w, c, Some(m)), MakeReleases))
  {
    assert s.disk.(present := true) == s.disk;
  }

  /** The manifest of the release once it is materialised. */
  lemma MaterialisedVerifies(w: World, d: Store, m: Marker, c: Candidate)
    requires CheckedStore(w, d, m) && VerifiedCandidate(w, c)
    ensures VerifyIn(w, Materialised(d, c).releases, c.id).Some?
    ensures c.id !in d.releases ==> VerifyIn(w, Materialised(d, c).releases, c.id) == Some(c.manifest)
    ensures c.id in d.releases ==> Installable(VerifyIn(w, d.releases, c.id).value)
  {
    if c.id in d.releases {
      assert ReleaseAccepted(w, d.releases, m, c.id);
    } else {
      ContentVerifies(w, c);
    }
  }

  /** The disk an undisturbed upgrade leaves. */
  function Upgraded(w: World, d: Disk, m: Marker, c: Candidate): Disk
    requires CheckedTree(w, d, m) && VerifiedCandidate(w, c)
  {
    MaterialisedVerifies(w, d.store, m, c);
    var st := Materialised(d.store, c);
    var man := VerifyIn(w, st.releases, c.id).value;
    assert Installable(man) ==> LaunchersArchived(st.releases[c.id], man.win32) by {
      if Installable(man) {
        VerifiedLaunchers(w, st.releases[c.id], c.id);
      }
    }
    ActivatedDisk(d.(store := st), InstallPlan(w, c, Some(m)).next, man, st.releases[c.id])
  }

  const UPGRADE_STEPS := 24

  /** An undisturbed upgrade of a managed root always ends, with exactly this disk. */
  lemma UpgradeCompletes(w: World, s: State, m: Marker, c: Candidate, n: nat)
    requires s.proc.Idle? && Upgradable(w, s.disk, m, c) && n >= UPGRADE_STEPS
    ensures Undisturbed(w, s, BeginInstall(c), n) == State(Upgraded(w, s.disk, m, c), Idle, s.interrupted)
  {
    var plan := InstallPlan(w, c, Some(m));
    var s1 := s.(proc := Working(plan, MakeReleases));
    UpgradeEnters(w, s, m, c);
    UpgradeLeads(w, s1, m, c, plan);
    LeadsToTheEnd(w, s1, State(Upgraded(w, s.disk, m, c), Idle, s.interrupted), UPGRADE_STEPS, n);
    UndisturbedIsDrive(w, s, BeginInstall(c), n);
  }

  lemma LeadsToTheEnd(w: World, s: State, t: State, bound: nat, n: nat)
    requires Leads(w, s, t, bound) && t.proc.Idle? && n >= bound
    ensures Drive(w, s, n) == t
  {
    var k: nat :| k <= bound && Drive(w, s, k) == t;
    DriveSum(w, s, k, n - k);
    IdleStays(w, t, n - k);
  }

  lemma UpgradeLeads(w: World, s: State, m: Marker, c: Candidate, plan: Plan)
    requires Upgradable(w, s.disk, m, c) && plan == InstallPlan(w, c, Some(m)) && s.proc == Working(plan, MakeReleases)
    ensures Leads(w, s, State(Upgraded(w, s.disk, m, c), Idle, s.interrupted), UPGRADE_STEPS)
  {
    var st := Materialised(s.disk.store, c);
    CheckedRootIsTidy(w, s.disk, m);
    MaterialisedVerifies(w, s.disk.store, m, c);
    MaterialiseRuns(w, s, plan, c);
    var t, man := Stepped(s, plan, st, Recheck), VerifyIn(w, st.releases, c.id).value;
    if Installable(man) {
      VerifiedLaunchers(w, st.releases[c.id], c.id);
    }
    ActivationEnds(w, t, plan, man, st.releases[c.id]);
    LeadsOn(w, s, t, State(Upgraded(w, s.disk, m, c), Idle, s.interrupted), 4, 20);
  }
}
