/** Which roots an upgrade leaves usable, whether it completes, is refused or fails. */
module ManagedUpgradeFailure {
  import opened Basics
  import opened ManagedInstall
  import opened ManagedInstallSafety
  import opened ManagedInstallTheorems
  import opened ManagedInstallTidy
  import opened ManagedUpgrade

  // ---------------------------------------------------------------- a checked root with a release and launchers added

  /** The release `id` was there, or is the only one added. */
  predicate Adds(before: Releases, after: Releases, id: Id) {
    && id in after
    && (id in before ==> after == before)
    && (id !in before ==> after == before[id := after[id]])
  }

  predicate HoldsAllowed(w: World, releases: Releases, id: Id) {
    id in releases && releases[id].Keys <= AllowedFiles(VerifyIn(w, releases, id))
  }

  lemma OldReleases(w: World, before: Releases, after: Releases, id: Id, old': Id)
    requires Adds(before, after, id) && old' in before
    ensures old' in after && after[old'] == before[old'] && VerifyIn(w, after, old') == VerifyIn(w, before, old')
  {
  }

  lemma ExtendedStore(w: World, f: Store, d: Store, m: Marker, id: Id)
    requires CheckedStore(w, f, m) && Adds(f.releases, d.releases, id) && SubMap(f.bin, d.bin)
    requires d.releasesDir && d.binDir && d.staging == map[] && VerifyIn(w, d.releases, id).Some?
    ensures CheckedStore(w, d, m) <==> Installable(VerifyIn(w, d.releases, id).value)
  {
    forall x | x in f.releases
      ensures ReleaseAccepted(w, d.releases, m, x)
    {
      OldReleases(w, f.releases, d.releases, id, x);
      assert ReleaseAccepted(w, f.releases, m, x);
    }
    OldReleases(w, f.releases, d.releases, id, m.current);
    assert id !in f.releases ==> (ReleaseAccepted(w, d.releases, m, id) <==>
           Installable(VerifyIn(w, d.releases, id).value));
    forall x | x in d.releases
      ensures x == id || x in f.releases
    {
    }
    LaunchersStayMatched(w, f, d, m);
  }

  lemma LaunchersStayMatched(w: World, f: Store, d: Store, m: Marker)
    requires LaunchersMatch(w, f.releases, f.bin, m) && SubMap(f.bin, d.bin) && m.current in d.releases
             && m.current in f.releases
    requires d.releases[m.current] == f.releases[m.current]
    ensures LaunchersMatch(w, d.releases, d.bin, m)
  {
    var man := VerifyIn(w, f.releases, m.current).value;
    forall l: Launcher
      ensures SameFile(d.bin, BinName(l, m.target.IsWindows()), d.releases[m.current],
              LauncherFile(BinName(l, man.win32)))
    {
      assert SameFile(f.bin, BinName(l, m.target.IsWindows()), f.releases[m.current],
             LauncherFile(BinName(l, man.win32)));
    }
  }

  /** The launchers all have the suffix of the target's name. */
  predicate OwnNames(bin: Bin, target: Target) {
    forall n | n in bin :: n.exe == target.IsWindows()
  }

  lemma CheckedNames(w: World, d: Disk, m: Marker)
    requires Entries(d) <= AllowedEntries(w, d.store.releases, m.target)
    ensures OwnNames(d.store.bin, m.target)
  {
    EntriesCoverTemporaries(d);
    forall n | n in d.store.bin
      ensures n.exe == m.target.IsWindows()
    {
      AllowedEntry(w, d.store.releases, m.target, LauncherEntry(n));
    }
  }

  lemma OwnNameAllowed(w: World, releases: Releases, target: Target, n: BinName)
    requires n.exe == target.IsWindows()
    ensures LauncherEntry(n) in AllowedEntries(w, releases, target)
  {
    match n.launcher
    case Cli => assert n == BinName(Cli, target.IsWindows());
    case Tui => assert n == BinName(Tui, target.IsWindows());
    case Service => assert n == BinName(Service, target.IsWindows());
  }

  lemma {:induction false} MoreNodes(id: Id, files: set<Path>, more: set<Path>, e: Entry)
    requires files <= more && e in Nodes(id, files)
    ensures e in Nodes(id, more)
  {
  }

  /** A file or directory of a release in the root found is allowed by its own manifest. */
  lemma FoundNodes(w: World, f: Disk, m: Marker, id: Id, e: Entry)
    requires Entries(f) <= AllowedEntries(w, f.store.releases, m.target)
    requires id in f.store.releases && e in Nodes(id, f.store.releases[id].Keys)
    ensures e in Nodes(id, AllowedFiles(VerifyIn(w, f.store.releases, id)))
  {
    assert e in StoreEntries(f.store);
    NodeOwner(id, f.store.releases[id].Keys, e);
    AllowedNode(w, f.store.releases, m.target, id, e);
  }

  lemma NodeOwner(id: Id, files: set<Path>, e: Entry)
    requires e in Nodes(id, files)
    ensures (e.FileNode? || e.DirNode?) && e.id == id
  {
  }

  lemma AllowedNode(w: World, releases: Releases, target: Target, id: Id, e: Entry)
    requires e in AllowedEntries(w, releases, target) && (e.FileNode? || e.DirNode?) && e.id == id
    ensures id in releases && e in Nodes(id, AllowedFiles(VerifyIn(w, releases, id)))
  {
    var x :| x in releases && e in Nodes(x, AllowedFiles(VerifyIn(w, releases, x)));
    NodeOwner(x, AllowedFiles(VerifyIn(w, releases, x)), e);
  }

  lemma ExtendedEntry(w: World, f: Disk, d: Disk, m: Marker, id: Id, e: Entry)
    requires Entries(f) <= AllowedEntries(w, f.store.releases, m.target)
    requires Adds(f.store.releases, d.store.releases, id) && HoldsAllowed(w, d.store.releases, id)
    requires HasNoTemporary(d) && OwnNames(d.store.bin, m.target) && Stands(d, e)
    ensures e in AllowedEntries(w, d.store.releases, m.target)
  {
    if e.LauncherEntry? {
      OwnNameAllowed(w, d.store.releases, m.target, e.name);
    } else if e.FileNode? || e.DirNode? {
      if e.id == id {
        MoreNodes(id, d.store.releases[id].Keys, AllowedFiles(VerifyIn(w, d.store.releases, id)), e);
      } else {
        OldReleases(w, f.store.releases, d.store.releases, id, e.id);
        FoundNodes(w, f, m, e.id, e);
      }
      NodeAllowed(w, d.store.releases, m.target, e.id, e);
    }
  }

  /** The exact verdict on a checked root to which one verified release and some launchers were added. */
  lemma ExtendedTree(w: World, f: Disk, d: Disk, m: Marker, id: Id)
    requires CheckedTree(w, f, m) && Adds(f.store.releases, d.store.releases, id) && SubMap(f.store.bin, d.store.bin)
    requires HoldsAllowed(w, d.store.releases, id) && VerifyIn(w, d.store.releases, id).Some?
    requires HasNoTemporary(d) && d.store.releasesDir && d.store.binDir && d.pub.pointer == f.pub.pointer
    ensures CheckedTree(w, d, m) <==>
            && Installable(VerifyIn(w, d.store.releases, id).value) && OwnNames(d.store.bin, m.target)
            && |Entries(d)| <= MAX_ENTRIES
  {
    ExtendedStore(w, f.store, d.store, m, id);
    if OwnNames(d.store.bin, m.target) {
      forall e | e in Entries(d)
        ensures e in AllowedEntries(w, d.store.releases, m.target)
      {
        EntryStands(d, e);
        ExtendedEntry(w, f, d, m, id, e);
      }
    }
    if Entries(d) <= AllowedEntries(w, d.store.releases, m.target) {
      CheckedNames(w, d, m);
    }
  }

  // ---------------------------------------------------------------- a completed upgrade

  lemma MaterialisedAdds(w: World, d: Store, m: Marker, c: Candidate)
    requires CheckedStore(w, d, m) && VerifiedCandidate(w, c)
    ensures Adds(d.releases, Materialised(d, c).releases, c.id)
  {
  }

  lemma MaterialisedIsAllowed(w: World, d: Disk, m: Marker, c: Candidate)
    requires CheckedTree(w, d, m) && VerifiedCandidate(w, c)
    ensures HoldsAllowed(w, Materialised(d.store, c).releases, c.id)
  {
    MaterialisedVerifies(w, d.store, m, c);
    if c.id in d.store.releases {
      FoundFilesAllowed(w, d, m, c.id);
    }
  }

  lemma FoundFilesAllowed(w: World, d: Disk, m: Marker, id: Id)
    requires Entries(d) <= AllowedEntries(w, d.store.releases, m.target) && id in d.store.releases
    ensures HoldsAllowed(w, d.store.releases, id)
  {
    forall p | p in d.store.releases[id].Keys
      ensures p in AllowedFiles(VerifyIn(w, d.store.releases, id))
    {
      assert FileNode(id, p) in Nodes(id, d.store.releases[id].Keys);
      FoundNodes(w, d, m, id, FileNode(id, p));
    }
  }

  /** A root to which the archive was added, but which still names the release found, is refused by every operation
      exactly when the archive is not installable or the tree has grown beyond the bound. */
  lemma AddedReleaseExactly(w: World, d: Disk, m: Marker, c: Candidate)
    requires CheckedTree(w, d, m) && VerifiedCandidate(w, c)
    ensures var e := d.(store := Materialised(d.store, c));
            && VerifyIn(w, e.store.releases, c.id).Some?
            && (CheckedTree(w, e, m) <==>
                Installable(VerifyIn(w, e.store.releases, c.id).value) && |Entries(e)| <= MAX_ENTRIES)
  {
    var e := d.(store := Materialised(d.store, c));
    CheckedRootIsTidy(w, d, m);
    MaterialisedVerifies(w, d.store, m, c);
    MaterialisedAdds(w, d.store, m, c);
    MaterialisedIsAllowed(w, d, m, c);
    CheckedNames(w, d, m);
    ExtendedTree(w, d, e, m, c.id);
  }

  lemma UncheckedIsRefused(w: World, d: Disk, m: Marker)
    requires LoadMarker(w, d) == Some(m) && !CheckedTree(w, d, m)
    ensures EnterRollback(w, d).Idle? && EnterUninstall(w, d).Idle? && forall c :: EnterInstall(w, d, c).Idle?
  {
  }

  lemma RefusedUpgrade(w: World, d: Disk, m: Marker, c: Candidate)
    requires Upgradable(w, d, m, c) && c.id !in d.store.releases && !Installable(c.manifest)
    ensures Upgraded(w, d, m, c) == d.(store := Materialised(d.store, c))
    ensures LoadMarker(w, Upgraded(w, d, m, c)) == Some(m) && !CheckedTree(w, Upgraded(w, d, m, c), m)
  {
    MaterialisedVerifies(w, d.store, m, c);
    AddedReleaseExactly(w, d, m, c);
  }

  lemma RefusedInFive(w: World, s: State, m: Marker, c: Candidate, n: nat)
    requires s.proc.Idle? && Upgradable(w, s.disk, m, c) && c.id !in s.disk.store.releases && !Installable(c.manifest)
             && n == 5
    ensures Undisturbed(w, s, BeginInstall(c), n) == s.(disk := s.disk.(store := Materialised(s.disk.store, c)))
  {
    var plan := InstallPlan(w, c, Some(m));
    var s1 := s.(proc := Working(plan, MakeReleases));
    var s2 := Stepped(s1, plan, Materialised(s.disk.store, c), Recheck);
    UpgradeEnters(w, s, m, c);
    CheckedRootIsTidy(w, s.disk, m);
    MaterializeCompletes(w, s1, plan, 4);
    MaterialisedVerifies(w, s.disk.store, m, c);
    RecheckRefuses(w, s2, plan);
    DriveOne(w, s2, s2.(proc := Idle));
    DriveSum(w, s1, 4, 1);
    UndisturbedIsDrive(w, s, BeginInstall(c), n);
  }

  /** A verified archive that is not installable, of the root's own target and new to it, is moved into `releases`
      before it is refused; after that no operation accepts the root, although its status still stands. */
  lemma UninstallableUpgradeBlocks(w: World, s: State, m: Marker, c: Candidate)
    requires s.proc.Idle? && Upgradable(w, s.disk, m, c) && c.id !in s.disk.store.releases && !Installable(c.manifest)
    ensures var t := Undisturbed(w, s, BeginInstall(c), 5);
            && t.proc.Idle? && Status(w, t.disk) == Some(m)
            && EnterRollback(w, t.disk).Idle? && EnterUninstall(w, t.disk).Idle?
            && forall x :: EnterInstall(w, t.disk, x).Idle?
  {
    RefusedInFive(w, s, m, c, 5);
    RefusedUpgrade(w, s.disk, m, c);
    UncheckedIsRefused(w, s.disk.(store := Materialised(s.disk.store, c)), m);
  }

  /** When the upgrade publishes the archive: it is installable and fits the launchers already there. */
  predicate Publishes(w: World, d: Disk, m: Marker, c: Candidate)
    requires CheckedTree(w, d, m) && VerifiedCandidate(w, c)
  {
    var st := Materialised(d.store, c);
    var man := VerifyIn(w, st.releases, c.id);
    man.Some? && Installable(man.value) && LaunchersArchived(st.releases[c.id], man.value.win32)
    && Fits(st.releases[c.id], d.store.bin, man.value.win32)
  }

  lemma LinkedExactly(d: Disk, next: Marker, t: Tree, exe: bool, m: nat, r: Linking)
    requires LaunchersArchived(t, exe) && m == 0 && r == Link(t, d.store.bin, exe, m)
    ensures Fits(t, d.store.bin, exe) <==> r.ok
    ensures r.ok ==> LinkedDisk(d, next, r) == Published(d.(store := d.store.(bin := r.bin)), next)
    ensures !r.ok ==> LinkedDisk(d, next, r).pub == d.pub
    ensures SubMap(d.store.bin, r.bin) && forall n | n in r.bin && n !in d.store.bin :: n.exe == exe
    ensures r.ok ==> forall l: Launcher :: SameFile(r.bin, BinName(l, exe), t, LauncherFile(BinName(l, exe)))
  {
    LinkFits(t, d.store.bin, exe, m);
    LinkAdds(t, d.store.bin, exe, m);
    if r.ok {
      forall l: Launcher
        ensures SameFile(r.bin, BinName(l, exe), t, LauncherFile(BinName(l, exe)))
      {
        LinkPlaces(t, d.store.bin, exe, m, Rank(l));
      }
    }
  }

  lemma ActivatedExactly(w: World, d: Disk, next: Marker, man: Manifest, t: Tree, id: Id)
    requires VerifyIn(w, d.store.releases, id) == Some(man) && t == d.store.releases[id]
    requires Installable(man) ==> LaunchersArchived(t, man.win32)
    ensures var e := ActivatedDisk(d, next, man, t);
            && SubMap(d.store.bin, e.store.bin) && e.store == d.store.(bin := e.store.bin)
            && (if Installable(man) && Fits(t, d.store.bin, man.win32)
                then e == Published(d.(store := e.store), next) && PlacedFor(w, d.store.bin, e.store, id)
                else e.pub == d.pub)
  {
    if Installable(man) {
      LinkedExactly(d, next, t, man.win32, 0, Link(t, d.store.bin, man.win32, 0));
    }
  }

  /** An upgrade publishes exactly then; it keeps every launcher and adds the archive's, and otherwise it leaves
      marker and pointer alone. */
  lemma UpgradePublishesExactly(w: World, d: Disk, m: Marker, c: Candidate)
    requires CheckedTree(w, d, m) && VerifiedCandidate(w, c)
    ensures var e, st := Upgraded(w, d, m, c), Materialised(d.store, c);
            && SubMap(d.store.bin, e.store.bin) && e.store == st.(bin := e.store.bin)
            && (if Publishes(w, d, m, c)
                then e == Published(d.(store := e.store), InstallPlan(w, c, Some(m)).next)
                     && PlacedFor(w, d.store.bin, e.store, c.id)
                else e.pub == d.pub)
  {
    var st := Materialised(d.store, c);
    MaterialisedVerifies(w, d.store, m, c);
    var man, t := VerifyIn(w, st.releases, c.id).value, st.releases[c.id];
    if Installable(man) {
      VerifiedLaunchers(w, t, c.id);
    }
    ActivatedExactly(w, d.(store := st), InstallPlan(w, c, Some(m)).next, man, t, c.id);
  }

  /** Every launcher of the release is in place, and what was added has the release's suffix. */
  predicate PlacedFor(w: World, found: Bin, d: Store, id: Id) {
    var man := VerifyIn(w, d.releases, id);
    && man.Some? && (forall n | n in d.bin && n !in found :: n.exe == man.value.win32)
    && forall l: Launcher ::
         SameFile(d.bin, BinName(l, man.value.win32), d.releases[id], LauncherFile(BinName(l, man.value.win32)))
  }

  lemma NothingAdded(w: World, found: Store, d: Store, id: Id, target: Target)
    requires SoundStore(w, found, target) && SubMap(found.bin, d.bin) && PlacedFor(w, found.bin, d, id)
    requires VerifyIn(w, d.releases, id).value.win32 == target.IsWindows()
    ensures d.bin == found.bin
  {
    forall n | n in d.bin
      ensures n in found.bin
    {
      assert n.exe == target.IsWindows() ==> n == BinName(n.launcher, target.IsWindows());
    }
  }

  lemma NextStoreIsChecked(w: World, d: Store, m: Marker, next: Marker, id: Id)
    requires CheckedStore(w, d, m) && next.current == id && next.target == m.target && id in d.releases
    requires next.previous.Some? ==> next.previous.value in d.releases
    requires VerifyIn(w, d.releases, id).Some? && VerifyIn(w, d.releases, id).value.target == m.target
    requires VerifyIn(w, d.releases, id).value.win32 == m.target.IsWindows() && PlacedFor(w, d.bin, d, id)
    ensures CheckedStore(w, d, next)
  {
    forall x | x in d.releases
      ensures ReleaseAccepted(w, d.releases, next, x)
    {
      assert ReleaseAccepted(w, d.releases, m, x);
    }
  }

  lemma PublishedEntries(d: Disk, next: Marker)
    requires d.pub.marker.Some? && d.pub.pointer.Some? && d.pub.markerTmp.None? && d.pub.pointerTmp.None?
    ensures Entries(Published(d, next)) == Entries(d)
  {
  }

  lemma NextIsChecked(w: World, d: Disk, m: Marker, next: Marker)
    requires d.pub.marker.Some? && HasNoTemporary(d) && d.pub.pointer.Some?
    requires CheckedStore(w, d.store, next) && next.target == m.target
    requires Entries(d) <= AllowedEntries(w, d.store.releases, m.target) && |Entries(d)| <= MAX_ENTRIES
    ensures CheckedTree(w, Published(d, next), next)
  {
    PublishedEntries(d, next);
  }

  /** The root of a published upgrade is one the operations accept exactly when the manifest's operating system
      matches the target's name and the tree stays within the bound. */
  lemma UpgradedIsManageable(w: World, d: Disk, m: Marker, c: Candidate)
    requires Upgradable(w, d, m, c) && AllTarget(w, d.store.releases, m.target) && Publishes(w, d, m, c)
    ensures var e := Upgraded(w, d, m, c);
            && VerifyIn(w, e.store.releases, c.id).Some?
            && (CheckedTree(w, e, InstallPlan(w, c, Some(m)).next) <==>
                  && VerifyIn(w, e.store.releases, c.id).value.win32 == m.target.IsWindows()
                     && |Entries(e)| <= MAX_ENTRIES)
  {
    var e, st, next := Upgraded(w, d, m, c), Materialised(d.store, c), InstallPlan(w, c, Some(m)).next;
    UpgradePublishesExactly(w, d, m, c);
    MaterialisedVerifies(w, d.store, m, c);
    var man := VerifyIn(w, st.releases, c.id).value;
    if man.win32 == m.target.IsWindows() {
      CheckedIsSound(w, d, m);
      NothingAdded(w, d.store, e.store, c.id, m.target);
      OwnUpgrade(w, d, m, c, next, e);
    } else {
      ForeignLauncherIsRefused(w, e, next, BinName(Cli, man.win32));
    }
  }

  lemma OwnNext(w: World, f: Disk, m: Marker, next: Marker, id: Id)
    requires CheckedTree(w, f, m) && f.pub.marker.Some? && next.current == id && next.target == m.target
    requires next.previous.Some? ==> next.previous.value in f.store.releases
    requires VerifyIn(w, f.store.releases, id).Some? && VerifyIn(w, f.store.releases, id).value.target == m.target
    requires VerifyIn(w, f.store.releases, id).value.win32 == m.target.IsWindows()
             && PlacedFor(w, f.store.bin, f.store, id)
    ensures CheckedTree(w, Published(f, next), next)
  {
    CheckedRootIsTidy(w, f, m);
    NextStoreIsChecked(w, f.store, m, next, id);
    NextIsChecked(w, f, m, next);
  }

  lemma PreviousIsThere(w: World, d: Store, m: Marker, c: Candidate)
    requires m.current in d.releases && (m.previous.Some? ==> m.previous.value in d.releases)
    ensures var p := PreviousAfter(Some(m), c.id); p.Some? ==> p.value in Materialised(d, c).releases
  {
  }

  lemma MaterialisedTarget(w: World, d: Store, c: Candidate, target: Target)
    requires VerifiedCandidate(w, c) && c.manifest.target == target && AllTarget(w, d.releases, target)
    ensures VerifyIn(w, Materialised(d, c).releases, c.id).Some?
    ensures VerifyIn(w, Materialised(d, c).releases, c.id).value.target == target
  {
    ContentVerifies(w, c);
  }

  lemma OwnUpgrade(w: World, d: Disk, m: Marker, c: Candidate, next: Marker, e: Disk)
    requires Upgradable(w, d, m, c) && AllTarget(w, d.store.releases, m.target)
             && next == InstallPlan(w, c, Some(m)).next
    requires e == Published(d.(store := Materialised(d.store, c)), next) && PlacedFor(w, d.store.bin, e.store, c.id)
    requires VerifyIn(w, e.store.releases, c.id).Some? && Installable(VerifyIn(w, e.store.releases, c.id).value)
    requires VerifyIn(w, e.store.releases, c.id).value.win32 == m.target.IsWindows()
    ensures CheckedTree(w, e, next) <==> |Entries(e)| <= MAX_ENTRIES
  {
    var f := d.(store := Materialised(d.store, c));
    assert Entries(e) == Entries(f) by {
      CheckedRootIsTidy(w, d, m);
      PublishedEntries(f, next);
    }
    PreviousIsThere(w, d.store, m, c);
    MaterialisedTarget(w, d.store, c, m.target);
    if |Entries(e)| <= MAX_ENTRIES {
      AddedReleaseExactly(w, d, m, c);
      OwnNext(w, f, m, next, c.id);
    }
  }

  // ------------------------------------------------------------- a failure at any point before the pointer is replaced

  predicate BeforeRename(pc: Pc) {
    pc.MakeReleases? || pc.Materialize? || pc.Staging? || pc.Staged?
  }

  predicate BeforePointer(pc: Pc) {
    InReleasePhase(pc) || InLaunchPhase(pc) || pc.PointerStart? || pc.PointerWriting? || pc.PointerReady?
  }

  /** How many launchers have been put in their places. */
  function Placed(pc: Pc): nat {
    match pc
    case Launch(_, i) => i
    case Copying(_, i) => i
    case Copied(_, i) => i
    case PointerStart => 3
    case PointerWriting => 3
    case PointerReady => 3
    case _ => 0
  }

  /** The releases are those found, or one verified archive more. */
  predicate ReleasesSince(w: World, found: Releases, now: Releases, id: Id, pc: Pc) {
    if BeforeRename(pc) then now == found && (pc.Staging? || pc.Staged? ==> id !in now)
    else
      && Adds(found, now, id) && VerifyIn(w, now, id).Some? && HoldsAllowed(w, now, id)
      && (InLaunchPhase(pc) ==> VerifyIn(w, now, id).value.win32 == pc.exe)
  }

  function Rank(l: Launcher): (r: nat)
    ensures r < 3 && Nth(r) == l && forall i: nat | i < 3 && Nth(i) == l :: i == r
  {
    match l case Cli => 0 case Tui => 1 case Service => 2
  }

  /** The launchers are those found and those of the release placed so far, which were all there if they have the
      names the target wants. */
  predicate LaunchersSince(found: Bin, now: Bin, target: Target, exe: bool, placed: nat) {
    && SubMap(found, now)
    && (exe == target.IsWindows() ==> now == found)
    && (exe != target.IsWindows() ==> now.Keys == found.Keys + PlacedNames(exe, placed))
  }

  function PlacedNames(exe: bool, placed: nat): set<BinName> {
    set l: Launcher | Rank(l) < placed :: BinName(l, exe)
  }

  /** The suffix of the release's launchers. */
  function ExeOf(w: World, releases: Releases, id: Id): bool {
    var man := VerifyIn(w, releases, id);
    man.Some? && man.value.win32
  }

  /** What the check of the root found says about its releases and its launchers. */
  predicate SoundStore(w: World, f: Store, target: Target) {
    && (forall id | id in f.releases :: HoldsAllowed(w, f.releases, id))
    && (forall l: Launcher :: BinName(l, target.IsWindows()) in f.bin) && OwnNames(f.bin, target)
  }

  predicate StoreSince(w: World, f: Store, d: Store, id: Id, target: Target, pc: Pc) {
    && d.releasesDir && d.binDir && Placed(pc) <= 3 && (pc.Copying? || pc.Copied? ==> pc.i < 3)
    && ReleasesSince(w, f.releases, d.releases, id, pc)
    && LaunchersSince(f.bin, d.bin, target, ExeOf(w, d.releases, id), Placed(pc))
  }

  type Check = Disk -> bool

  /** The entry check for a marker. */
  function CheckFor(w: World, m: Marker): Check {
    (d: Disk) => CheckedTree(w, d, m)
  }

  ghost predicate Since(w: World, check: Check, found: Disk, d: Disk, id: Id, target: Target, pc: Pc) {
    && check(found) && SoundStore(w, found.store, target)
    && d.present == found.present && d.pub.pointer == found.pub.pointer && d.pub.marker == found.pub.marker
    && StoreSince(w, found.store, d.store, id, target, pc)
  }

  /** The operation began in a root that passed the check, and has changed no more of it than its place says. */
  ghost predicate Traceable(w: World, s: State) {
    s.proc.Working? && s.proc.plan.before.Some? && BeforePointer(s.proc.pc) ==>
      var m := s.proc.plan.before.value;
      exists found :: Since(w, CheckFor(w, m), found, s.disk, s.proc.plan.id, m.target, s.proc.pc)
  }

  lemma CheckedIsSound(w: World, d: Disk, m: Marker)
    requires CheckedTree(w, d, m)
    ensures SoundStore(w, d.store, m.target)
  {
    CheckedNames(w, d, m);
    forall id | id in d.store.releases
      ensures HoldsAllowed(w, d.store.releases, id)
    {
      FoundFilesAllowed(w, d, m, id);
    }
    MatchedAreThere(w, d.store, m);
  }

  lemma MatchedAreThere(w: World, d: Store, m: Marker)
    requires LaunchersMatch(w, d.releases, d.bin, m) && m.current in d.releases
    ensures forall l: Launcher :: BinName(l, m.target.IsWindows()) in d.bin
  {
    var man := VerifyIn(w, d.releases, m.current).value;
    forall l: Launcher
      ensures BinName(l, m.target.IsWindows()) in d.bin
    {
      assert SameFile(d.bin, BinName(l, m.target.IsWindows()), d.releases[m.current],
             LauncherFile(BinName(l, man.win32)));
    }
  }

  lemma NothingPlaced(found: Bin, now: Bin, target: Target, exe: bool, other: bool)
    requires LaunchersSince(found, now, target, exe, 0)
    ensures now == found && LaunchersSince(found, now, target, other, 0)
  {
    assert PlacedNames(exe, 0) == {} && PlacedNames(other, 0) == {};
    assert now.Keys == found.Keys;
  }

  lemma StagedTraces(w: World, f: Store, d: Store, plan: Plan, target: Target)
    requires StoreSince(w, f, d, plan.id, target, Staged) && SourceInv(w, d.staging, plan, Staged)
    requires VerifyIn(w, d.staging, plan.id).Some?
    ensures var now := d.releases[plan.id := d.staging[plan.id]];
            StoreSince(w, f, d.(releases := now, staging := d.staging - {plan.id}), plan.id, target, Recheck)
  {
    var now := d.releases[plan.id := d.staging[plan.id]];
    ContentVerifies(w, plan.source.value);
    NothingPlaced(f.bin, d.bin, target, ExeOf(w, d.releases, plan.id), ExeOf(w, now, plan.id));
  }

  lemma MaterializeTraces(w: World, f: Store, d: Store, plan: Plan, target: Target, free: bool)
    requires StoreSince(w, f, d, plan.id, target, Materialize) && SoundStore(w, f, target)
    ensures var r := ReleaseStep(w, d, plan, Materialize, free);
            r.next.Some? ==> StoreSince(w, f, r.left, plan.id, target, r.next.value)
  {
  }

  lemma RecheckTraces(w: World, f: Store, d: Store, plan: Plan, target: Target, free: bool)
    requires StoreSince(w, f, d, plan.id, target, Recheck)
    ensures var r := ReleaseStep(w, d, plan, Recheck, free);
            r.next.Some? ==> StoreSince(w, f, r.left, plan.id, target, r.next.value)
  {
  }

  lemma ReleaseStepTraces(w: World, f: Store, d: Store, plan: Plan, target: Target, pc: Pc, free: bool)
    requires StoreSince(w, f, d, plan.id, target, pc) && SoundStore(w, f, target)
    requires InReleasePhase(pc) && SourceInv(w, d.staging, plan, pc)
    ensures var r := ReleaseStep(w, d, plan, pc, free);
            r.next.Some? ==> StoreSince(w, f, r.left, plan.id, target, r.next.value)
  {
    match pc
    case MakeReleases =>
    case Materialize => MaterializeTraces(w, f, d, plan, target, free);
    case Staging =>
    case Staged =>
      if VerifyIn(w, d.staging, plan.id).Some? {
        StagedTraces(w, f, d, plan, target);
      }
    case Recheck => RecheckTraces(w, f, d, plan, target, free);
  }

  predicate SameOrOneMore(bin: Bin, more: Bin, n: BinName) {
    n in more && more == bin[n := more[n]] && (n in bin ==> more == bin)
  }

  lemma OneMoreName(found: Bin, now: Bin, more: Bin, target: Target, exe: bool, i: nat, n: BinName)
    requires LaunchersSince(found, now, target, exe, i) && i < 3 && n == BinName(Nth(i), exe)
             && SameOrOneMore(now, more, n)
    requires exe == target.IsWindows() ==> n in found
    ensures LaunchersSince(found, more, target, exe, i + 1)
  {
    assert PlacedNames(exe, i + 1) == PlacedNames(exe, i) + {n} by {
      assert Rank(Nth(i)) == i;
    }
    assert more.Keys == now.Keys + {n};
  }

  /** Where a step of the launch phase leads, and what it does to the launchers. */
  predicate LaunchLeads(d: Store, pc: Pc, left: Store, next: Pc)
    requires InLaunchPhase(pc)
  {
    && left.releases == d.releases && left.releasesDir == d.releasesDir && (d.binDir ==> left.binDir)
    && match next
       case Launch(x, j) =>
         && x == pc.exe
         && (pc.MakeBin? ==> j == 0 && left.bin == d.bin)
         && (!pc.MakeBin? ==> pc.i < 3 && j == pc.i + 1 && SameOrOneMore(d.bin, left.bin, BinName(Nth(pc.i), pc.exe)))
       case Copying(x, j) => pc.Launch? && pc.i < 3 && x == pc.exe && j == pc.i && left.bin == d.bin
       case Copied(x, j) => pc.Copying? && x == pc.exe && j == pc.i && left.bin == d.bin
       case PointerStart => pc.Launch? && pc.i >= 3 && left.bin == d.bin
       case _ => false
  }

  lemma LaunchStepLeads(w: World, d: Store, id: Id, pc: Pc)
    requires InLaunchPhase(pc) && (pc.Copied? ==> pc.i < 3)
    ensures var r := LaunchStep(w, d, id, pc); r.next.Some? ==> LaunchLeads(d, pc, r.left, r.next.value)
  {
    match pc
    case MakeBin(_) =>
    case Launch(_, _) =>
    case Copying(_, _) =>
    case Copied(_, _) =>
  }

  lemma LaunchLeadsOn(w: World, f: Store, d: Store, id: Id, target: Target, pc: Pc, left: Store, next: Pc)
    requires StoreSince(w, f, d, id, target, pc) && SoundStore(w, f, target) && InLaunchPhase(pc)
    requires LaunchLeads(d, pc, left, next)
    ensures StoreSince(w, f, left, id, target, next)
  {
    if next.Launch? && !pc.MakeBin? {
      OneMoreName(f.bin, d.bin, left.bin, target, pc.exe, pc.i, BinName(Nth(pc.i), pc.exe));
    }
  }

  lemma LaunchStepTraces(w: World, f: Store, d: Store, id: Id, target: Target, pc: Pc)
    requires StoreSince(w, f, d, id, target, pc) && SoundStore(w, f, target) && InLaunchPhase(pc)
    ensures var r := LaunchStep(w, d, id, pc);
            r.next.Some? ==> StoreSince(w, f, r.left, id, target, r.next.value)
  {
    var r := LaunchStep(w, d, id, pc);
    LaunchStepLeads(w, d, id, pc);
    if r.next.Some? {
      LaunchLeadsOn(w, f, d, id, target, pc, r.left, r.next.value);
    }
  }

  lemma PointerStepTraces(w: World, p: Pub, plan: Plan, pc: Pc)
    requires pc.PointerStart? || pc.PointerWriting? || pc.PointerReady?
    ensures var r := PublishStep(w, p, plan, pc);
            r.next.Some? && BeforePointer(r.next.value) ==>
              (r.next.value.PointerWriting? || r.next.value.PointerReady?) && r.left.pointer == p.pointer
                && r.left.marker == p.marker
  {
  }

  lemma StoreStaysAtPointer(w: World, f: Store, d: Store, id: Id, target: Target, pc: Pc, next: Pc)
    requires StoreSince(w, f, d, id, target, pc) && (pc.PointerStart? || pc.PointerWriting? || pc.PointerReady?)
    requires next.PointerWriting? || next.PointerReady?
    ensures StoreSince(w, f, d, id, target, next)
  {
  }

  lemma AdvanceTraces(w: World, found: Disk, s: State, plan: Plan, target: Target, pc: Pc)
    requires s.proc == Working(plan, pc) && BeforePointer(pc) && SourceInv(w, s.disk.store.staging, plan, pc)
    requires SoundStore(w, found.store, target) && StoreSince(w, found.store, s.disk.store, plan.id, target, pc)
    ensures var t := Advance(w, s, plan, pc);
            t.proc.Working? && BeforePointer(t.proc.pc) ==>
              && t.proc.plan == plan && StoreSince(w, found.store, t.disk.store, plan.id, target, t.proc.pc)
              && t.disk.pub.pointer == s.disk.pub.pointer && t.disk.pub.marker == s.disk.pub.marker
              && t.disk.present == s.disk.present
  {
    if InReleasePhase(pc) {
      ReleaseStepTraces(w, found.store, s.disk.store, plan, target, pc, s.disk.pub.markerTmp.None?);
    } else if InLaunchPhase(pc) {
      LaunchStepTraces(w, found.store, s.disk.store, plan.id, target, pc);
    } else {
      var r := PublishStep(w, s.disk.pub, plan, pc);
      PointerStepTraces(w, s.disk.pub, plan, pc);
      if r.next.Some? && BeforePointer(r.next.value) {
        StoreStaysAtPointer(w, found.store, s.disk.store, plan.id, target, pc, r.next.value);
      }
    }
  }

  lemma NeverBack(w: World, s: State, plan: Plan, pc: Pc)
    requires s.proc == Working(plan, pc) && !BeforePointer(pc)
    ensures var t := Advance(w, s, plan, pc); t.proc.Working? ==> t.proc.plan == plan && !BeforePointer(t.proc.pc)
  {
  }

  lemma ScribbleTraces(w: World, f: Store, d: Store, plan: Plan, target: Target, pc: Pc, tree: Tree, bytes: Bytes)
    requires StoreSince(w, f, d, plan.id, target, pc)
    ensures StoreSince(w, f, Scribbled(d, plan, pc, tree, bytes), plan.id, target, pc)
  {
  }

  lemma WorkTraces(w: World, s: State, plan: Plan, pc: Pc, a: Action)
    requires s.proc == Working(plan, pc) && Traceable(w, s) && SourceInv(w, s.disk.store.staging, plan, pc)
    ensures Traceable(w, ApplyWorking(w, s, plan, pc, a))
  {
    if plan.before.Some? && BeforePointer(pc) {
      var m := plan.before.value;
      var found :| Since(w, CheckFor(w, m), found, s.disk, plan.id, m.target, pc);
      KeepsTrace(w, CheckFor(w, m), found, s, plan, m.target, pc, a);
    } else if a.Proceed? {
      AdvanceKeepsPlan(w, s, plan, pc);
      if !BeforePointer(pc) {
        NeverBack(w, s, plan, pc);
      }
    }
  }

  lemma KeepsTrace(w: World, check: Check, found: Disk, s: State, plan: Plan, target: Target, pc: Pc, a: Action)
    requires s.proc == Working(plan, pc) && BeforePointer(pc) && SourceInv(w, s.disk.store.staging, plan, pc)
    requires Since(w, check, found, s.disk, plan.id, target, pc)
    ensures var t := ApplyWorking(w, s, plan, pc, a);
            t.proc.Working? && BeforePointer(t.proc.pc) ==>
              t.proc.plan == plan && Since(w, check, found, t.disk, plan.id, target, t.proc.pc)
  {
    match a
    case Proceed => AdvanceTraces(w, found, s, plan, target, pc);
    case Scribble(tree, bytes) => ScribbleTraces(w, found.store, s.disk.store, plan, target, pc, tree, bytes);
    case _ =>
  }

  lemma AdvanceKeepsPlan(w: World, s: State, plan: Plan, pc: Pc)
    ensures Advance(w, s, plan, pc).proc.Working? ==> Advance(w, s, plan, pc).proc.plan == plan
  {
  }

  lemma StoreAtEntry(w: World, d: Store, id: Id, target: Target, pc: Pc)
    requires SoundStore(w, d, target) && d.releasesDir && d.binDir
    requires pc.MakeReleases? || (pc.Recheck? && VerifyIn(w, d.releases, id).Some?)
    ensures StoreSince(w, d, d, id, target, pc)
  {
    assert PlacedNames(ExeOf(w, d.releases, id), 0) == {};
  }

  lemma EntryTraces(w: World, d: Disk, plan: Plan, pc: Pc, m: Marker)
    requires plan.before == Some(m) && CheckedTree(w, d, m)
    requires pc.MakeReleases? || (pc.Recheck? && VerifyIn(w, d.store.releases, plan.id).Some?)
    ensures Since(w, CheckFor(w, m), d, d, plan.id, m.target, pc)
  {
    CheckedIsSound(w, d, m);
    CheckedRootIsTidy(w, d, m);
    StoreAtEntry(w, d.store, plan.id, m.target, pc);
  }

  lemma InstallEntryTraces(w: World, d: Disk, c: Candidate)
    ensures var p := EnterInstall(w, d, c);
            p.Working? && p.plan.before.Some? ==>
              var m := p.plan.before.value; Since(w, CheckFor(w, m), d, d, p.plan.id, m.target, p.pc)
  {
    var p := EnterInstall(w, d, c);
    if p.Working? && p.plan.before.Some? {
      EntryTraces(w, d, p.plan, p.pc, p.plan.before.value);
    }
  }

  lemma RollbackEntryTraces(w: World, d: Disk)
    ensures var p := EnterRollback(w, d);
            p.Working? ==>
              && p.plan.before.Some?
              && var m := p.plan.before.value; Since(w, CheckFor(w, m), d, d, p.plan.id, m.target, p.pc)
  {
    var p := EnterRollback(w, d);
    if p.Working? {
      EntryTraces(w, d, p.plan, p.pc, p.plan.before.value);
    }
  }

  lemma BeginTraces(w: World, s: State, a: Action)
    requires s.proc.Idle?
    ensures Traceable(w, ApplyIdle(w, s, a))
  {
    if a.BeginInstall? {
      var d := if VerifiedCandidate(w, a.candidate) then s.disk.(present := true) else s.disk;
      InstallEntryTraces(w, d, a.candidate);
    } else if a.BeginRollback? {
      RollbackEntryTraces(w, s.disk);
    } else if a.BeginUninstall? {
      EnterUninstallIs(w, s.disk);
    }
  }

  lemma StepTraces(w: World, s: State, a: Action)
    requires Traceable(w, s) && BaseInv(w, s)
    ensures Traceable(w, Apply(w, s, a))
  {
    match s.proc
    case Idle => BeginTraces(w, s, a);
    case Uninstalling =>
    case Working(plan, pc) => WorkTraces(w, s, plan, pc, a);
  }

  lemma {:induction false} RunTraces(w: World, s: State, actions: seq<Action>)
    requires Traceable(w, s) && Inv(w, s)
    ensures Traceable(w, Run(w, s, actions))
    decreases |actions|
  {
    if actions != [] {
      StepTraces(w, s, actions[0]);
      StepKeeps(w, s, actions[0]);
      RunTraces(w, Apply(w, s, actions[0]), actions[1..]);
    }
  }

  // ---------------------------------------------------------------- the verdict on what is left

  /** The release that was being installed or rolled back to, as its manifest in the root says. */
  function ManifestOf(w: World, d: Disk, id: Id): Option<Manifest> {
    VerifyIn(w, d.store.releases, id)
  }

  /** What a failure at `pc` has to meet for the root to stay usable: nothing of the release is there yet; or it is
      installable, no temporary stays behind, no launcher with a foreign name was placed, and the tree is small
      enough. */
  predicate StaysUsable(w: World, left: Disk, plan: Plan, target: Target, pc: Pc) {
    || BeforeRename(pc)
    || (&& !LeavesTemporary(pc)
        && ManifestOf(w, left, plan.id).Some? && Installable(ManifestOf(w, left, plan.id).value)
        && (Placed(pc) == 0 || ManifestOf(w, left, plan.id).value.win32 == target.IsWindows())
        && |Entries(left)| <= MAX_ENTRIES)
  }

  lemma NamesSince(found: Bin, now: Bin, target: Target, exe: bool, placed: nat)
    requires OwnNames(found, target) && LaunchersSince(found, now, target, exe, placed)
    ensures OwnNames(now, target) <==> placed == 0 || exe == target.IsWindows()
  {
    assert placed == 0 ==> PlacedNames(exe, placed) == {};
    assert placed > 0 && exe != target.IsWindows() ==> BinName(Cli, exe) in PlacedNames(exe, placed);
  }

  lemma StoreGives(w: World, f: Store, d: Store, id: Id, target: Target, pc: Pc)
    requires StoreSince(w, f, d, id, target, pc) && !BeforeRename(pc)
    ensures Adds(f.releases, d.releases, id) && SubMap(f.bin, d.bin)
    ensures HoldsAllowed(w, d.releases, id) && VerifyIn(w, d.releases, id).Some?
  {
  }

  /** In the root that is left the names of the launchers tell what the condition asks. */
  lemma UsableMeans(w: World, f: Store, left: Disk, plan: Plan, target: Target, pc: Pc)
    requires StoreSince(w, f, left.store, plan.id, target, pc) && OwnNames(f.bin, target)
    requires !BeforeRename(pc) && !LeavesTemporary(pc)
    ensures VerifyIn(w, left.store.releases, plan.id).Some?
    ensures StaysUsable(w, left, plan, target, pc) <==>
            && Installable(VerifyIn(w, left.store.releases, plan.id).value) && OwnNames(left.store.bin, target)
            && |Entries(left)| <= MAX_ENTRIES
  {
    NamesSince(f.bin, left.store.bin, target, ExeOf(w, left.store.releases, plan.id), Placed(pc));
  }

  lemma SameStoreSince(w: World, f: Store, d: Store, e: Store, id: Id, target: Target, pc: Pc)
    requires StoreSince(w, f, d, id, target, pc) && e.releases == d.releases && e.bin == d.bin && e.releasesDir
             && e.binDir
    ensures StoreSince(w, f, e, id, target, pc)
  {
  }

  lemma LeftAfterRename(w: World, found: Disk, plan: Plan, m: Marker, pc: Pc, left: Disk)
    requires CheckedTree(w, found, m) && SoundStore(w, found.store, m.target)
    requires StoreSince(w, found.store, left.store, plan.id, m.target, pc) && !BeforeRename(pc) && !LeavesTemporary(pc)
    requires HasNoTemporary(left) && left.pub.pointer == found.pub.pointer
    ensures CheckedTree(w, left, m) <==> StaysUsable(w, left, plan, m.target, pc)
  {
    UsableMeans(w, found.store, left, plan, m.target, pc);
    StoreGives(w, found.store, left.store, plan.id, m.target, pc);
    ExtendedTree(w, found, left, m, plan.id);
  }

  /** What a failure at `pc` keeps of the root, and which temporaries it leaves. */
  predicate IsLeft(d: Disk, left: Disk, pc: Pc) {
    && left.store.releases == d.store.releases && left.store.bin == d.store.bin
    && left.store.releasesDir == d.store.releasesDir && left.store.binDir == d.store.binDir
    && left.present == d.present && left.pub.pointer == d.pub.pointer && left.pub.marker == d.pub.marker
    && (HasNoTemporary(left) <==> !LeavesTemporary(pc))
  }

  lemma CleanUpLeaves(d: Disk, plan: Plan, pc: Pc)
    requires OwnStaging(d.store.staging, plan.id, pc) && OwnBinTmp(d.store.binTmp, pc) && OwnPubTmp(d.pub, pc)
    ensures IsLeft(d, CleanUp(d, plan, pc), pc)
  {
    CleanUpFrame(d, plan, pc);
    CleanUpKeepsDirs(d, plan, pc);
    CleanUpTidies(d, plan, pc);
  }

  lemma LeftBeforeRename(w: World, found: Disk, d: Disk, plan: Plan, m: Marker, pc: Pc, left: Disk)
    requires CheckedTree(w, found, m) && StoreSince(w, found.store, d.store, plan.id, m.target, pc) && BeforeRename(pc)
    requires d.present == found.present && d.pub.pointer == found.pub.pointer && d.pub.marker == found.pub.marker
    requires IsLeft(d, left, pc)
    ensures CheckedTree(w, left, m)
  {
    CheckedRootIsTidy(w, found, m);
    LeftIsFound(w, found, d, plan, m.target, pc, left);
  }

  lemma LeftIsFound(w: World, found: Disk, d: Disk, plan: Plan, target: Target, pc: Pc, left: Disk)
    requires HasNoTemporary(found) && found.store.releasesDir && found.store.binDir && BeforeRename(pc)
    requires StoreSince(w, found.store, d.store, plan.id, target, pc)
    requires d.present == found.present && d.pub.pointer == found.pub.pointer && d.pub.marker == found.pub.marker
    requires IsLeft(d, left, pc)
    ensures left == found
  {
    BinAsFound(w, found.store, d.store, plan.id, target, pc);
  }

  lemma BinAsFound(w: World, f: Store, d: Store, id: Id, target: Target, pc: Pc)
    requires StoreSince(w, f, d, id, target, pc) && BeforeRename(pc)
    ensures d.bin == f.bin && d.releases == f.releases && d.releasesDir && d.binDir
  {
    NothingPlaced(f.bin, d.bin, target, ExeOf(w, d.releases, id), false);
  }

  lemma LeftExactly(w: World, found: Disk, d: Disk, plan: Plan, m: Marker, pc: Pc, left: Disk)
    requires CheckedTree(w, found, m) && SoundStore(w, found.store, m.target)
    requires StoreSince(w, found.store, d.store, plan.id, m.target, pc)
    requires d.present == found.present && d.pub.pointer == found.pub.pointer && d.pub.marker == found.pub.marker
    requires IsLeft(d, left, pc)
    ensures CheckedTree(w, left, m) <==> StaysUsable(w, left, plan, m.target, pc)
  {
    if BeforeRename(pc) {
      LeftBeforeRename(w, found, d, plan, m, pc, left);
    } else if LeavesTemporary(pc) {
      TemporaryIsNotChecked(w, left, m);
    } else {
      SameStoreSince(w, found.store, d.store, left.store, plan.id, m.target, pc);
      LeftAfterRename(w, found, plan, m, pc, left);
    }
  }

  lemma TemporaryIsNotChecked(w: World, d: Disk, m: Marker)
    requires !HasNoTemporary(d)
    ensures !CheckedTree(w, d, m)
  {
    if CheckedTree(w, d, m) {
      CheckedRootIsTidy(w, d, m);
    }
  }

  lemma CleanUpKeepsDirs(d: Disk, plan: Plan, pc: Pc)
    ensures CleanUp(d, plan, pc).store.releasesDir == d.store.releasesDir
            && CleanUp(d, plan, pc).store.binDir == d.store.binDir
  {
  }

  /** In every run: an operation on a managed root that fails before the pointer is replaced leaves a root that
      passes the entry check again exactly under that condition. */
  lemma UpgradeFailureExactly(w: World, actions: seq<Action>)
    requires Run(w, FRESH, actions).proc.Working? && BeforePointer(Run(w, FRESH, actions).proc.pc)
    requires Run(w, FRESH, actions).proc.plan.before.Some?
    ensures var s := Run(w, FRESH, actions);
            var left, m := Apply(w, s, Fail).disk, s.proc.plan.before.value;
            CheckedTree(w, left, m) <==> StaysUsable(w, left, s.proc.plan, m.target, s.proc.pc)
  {
    var s := Run(w, FRESH, actions);
    RunTraces(w, FRESH, actions);
    RunIsTidy(w, FRESH, actions);
    var m := s.proc.plan.before.value;
    var found :| Since(w, CheckFor(w, m), found, s.disk, s.proc.plan.id, m.target, s.proc.pc);
    FailIs(w, s, s.proc.plan, s.proc.pc);
    CleanUpLeaves(s.disk, s.proc.plan, s.proc.pc);
    LeftExactly(w, found, s.disk, s.proc.plan, m, s.proc.pc, Apply(w, s, Fail).disk);
  }

  lemma RefusedStep(w: World, s: State, plan: Plan, pc: Pc)
    requires s.proc == Working(plan, pc) && BeforePointer(pc) && Tidy(w, s.disk, plan, pc)
    requires Advance(w, s, plan, pc).proc.Idle?
    ensures Advance(w, s, plan, pc).disk == CleanUp(s.disk, plan, pc)
  {
  }

  /** A step that is refused leaves what a step that fails leaves. */
  lemma RefusalIsFailure(w: World, actions: seq<Action>)
    requires Run(w, FRESH, actions).proc.Working? && BeforePointer(Run(w, FRESH, actions).proc.pc)
    requires Apply(w, Run(w, FRESH, actions), Proceed).proc.Idle?
    ensures var s := Run(w, FRESH, actions); Apply(w, s, Proceed).disk == Apply(w, s, Fail).disk
  {
    var s := Run(w, FRESH, actions);
    RunIsTidy(w, FRESH, actions);
    FailIs(w, s, s.proc.plan, s.proc.pc);
    RefusedStep(w, s, s.proc.plan, s.proc.pc);
  }
}
