/**
 The managed install root of scripts/release/install-oss-candidate.ts as a state machine.

 A `Disk` is everything the installer keeps below the install prefix.  Install and rollback are
 programs whose every step is one atomic file-system effect; an `Action` lets the running process
 make its next step, write arbitrary bytes into the temporary it is filling, throw (its `catch`
 blocks clean up) or die on the spot.  `Apply` is total, so a run is any sequence of actions.

 SHA-256 and JSON parsing are the function-valued fields of `World`: every statement holds for all
 of them.  File contents are strings with one character per byte.
 */
module ManagedInstall {
  import opened Basics

  type Bytes = string
  type Digest = string

  /** A candidate identity: the first 24 hexadecimal digits of the SHA-256 of its manifest. */
  datatype Id = Id(hex: string)

  // ---------------------------------------------------------------- candidates and manifests

  datatype Launcher = Cli | Tui | Service

  /** `kite`, `kite-tui` or `kite-service`, with `.exe` appended for Windows. */
  datatype BinName = BinName(launcher: Launcher, exe: bool)

  /** A file of a release directory; the paths the code names get a constructor each. */
  datatype Path =
    | IdFile                        // .candidate-id
    | ManifestFile                  // manifest.json
    | ChecksumsFile                 // CHECKSUMS.sha256
    | ExecutableFile(name: BinName) // bin/<name>
    | LauncherFile(name: BinName)   // release/launchers/<name>
    | WebIndex                      // payload/web/index.html
    | WebContract                   // payload/web/api-docs/openapi.json
    | Plain(text: string)           // any other archived path

  type Tree = map<Path, Bytes>
  type Releases = map<Id, Tree>
  type Bin = map<BinName, Bytes>

  datatype Slot = Slot(entrypoint: Option<Path>, identity: Option<Digest>)

  datatype Slots = Slots(cli: Slot, tui: Slot, service: Slot,
                         coordinator: Slot, worker: Slot, gateway: Slot, web: Slot)

  datatype FileEntry = FileEntry(path: Path, sha256: Digest, size: nat)

  datatype Target = MacosArm64 | MacosX64 | LinuxArm64 | LinuxX64 | WindowsArm64 | WindowsX64 {
    predicate IsWindows() { WindowsArm64? || WindowsX64? }
  }

  /** `win32` is `target.os === 'win32'`; nothing in the schema ties it to the target's name. */
  datatype Manifest = Manifest(target: Target, win32: bool, slots: Option<Slots>, files: seq<FileEntry>)

  datatype Candidate = Candidate(id: Id, manifest: Manifest, files: Tree)

  /** The machine: its install prefix, platform, hash functions and JSON reader. */
  datatype World = World(root: string, win32: bool,
                         candidateId: Bytes -> Id, digest: Bytes -> Digest,
                         json: Bytes -> Option<Manifest>)

  predicate IsReserved(p: Path) {
    p.IdFile? || p.ManifestFile? || p.ChecksumsFile?
  }

  /** The rules of ossCandidateManifestSchema that matter here: no archived path is a reserved name. */
  predicate ManifestSchema(man: Manifest) {
    5 <= |man.files| <= 32 && forall e | e in man.files :: !IsReserved(e.path)
  }

  function ReadManifest(w: World, bytes: Bytes): Option<Manifest> {
    match w.json(bytes)
    case None => None
    case Some(man) => if ManifestSchema(man) then Some(man) else None
  }

  function Paths(man: Manifest): set<Path> {
    set e | e in man.files :: e.path
  }

  predicate FileMatches(w: World, t: Tree, e: FileEntry) {
    e.path in t && |t[e.path]| == e.size && w.digest(t[e.path]) == e.sha256
  }

  /**
   verifyOssCandidate: the archive holds exactly the manifest's files.  The target it demands is that of
   the running executable, which may differ from run to run, so any target may be presented.
   */
  predicate VerifiedCandidate(w: World, c: Candidate) {
    && c.files.Keys == {ManifestFile, ChecksumsFile} + Paths(c.manifest)
    && ReadManifest(w, c.files[ManifestFile]) == Some(c.manifest)
    && c.id == w.candidateId(c.files[ManifestFile])
    && forall e | e in c.manifest.files :: FileMatches(w, c.files, e)
  }

  function IdLine(id: Id): Bytes {
    id.hex + "\n"
  }

  /** What a completely materialised release directory holds. */
  function Content(c: Candidate): Tree {
    c.files[IdFile := IdLine(c.id)]
  }

  /** verifyMaterializedRelease: the manifest when every check passes. */
  function Verify(w: World, t: Tree, id: Id): Option<Manifest> {
    if IdFile in t && t[IdFile] == IdLine(id) && ManifestFile in t && w.candidateId(t[ManifestFile]) == id then
      match ReadManifest(w, t[ManifestFile])
      case None => None
      case Some(man) => if forall e | e in man.files :: FileMatches(w, t, e) then Some(man) else None
    else None
  }

  function VerifyIn(w: World, dirs: Releases, id: Id): Option<Manifest> {
    if id in dirs then Verify(w, dirs[id], id) else None
  }

  predicate Bound(s: Slot, path: Path) {
    s.entrypoint == Some(path) && s.identity.Some?
  }

  predicate Retired(s: Slot) {
    s.entrypoint.None? && s.identity.None?
  }

  predicate Archives(man: Manifest, path: Path) {
    path in Paths(man)
  }

  /** assertInstallableRelease. */
  predicate Installable(man: Manifest) {
    && man.slots.Some?
    && Bound(man.slots.value.cli, ExecutableFile(BinName(Cli, man.win32)))
    && Bound(man.slots.value.tui, ExecutableFile(BinName(Tui, man.win32)))
    && Bound(man.slots.value.service, ExecutableFile(BinName(Service, man.win32)))
    && Retired(man.slots.value.coordinator)
    && Retired(man.slots.value.worker)
    && Retired(man.slots.value.gateway)
    && Bound(man.slots.value.web, WebIndex)
    && Archives(man, WebIndex) && Archives(man, WebContract)
    && forall l: Launcher :: Archives(man, ExecutableFile(BinName(l, man.win32)))
                             && Archives(man, LauncherFile(BinName(l, man.win32)))
  }

  /** The launchers in the order activateRelease handles them. */
  function Nth(i: nat): Launcher {
    if i == 0 then Cli else if i == 1 then Tui else Service
  }

  // ---------------------------------------------------------------- the managed root

  datatype Marker = Marker(root: string, current: Id, previous: Option<Id>, target: Target)

  /** A file that a crash may leave half-written: readable content, or bytes no reader accepts. */
  datatype Text<T> = Readable(content: T) | Scrambled

  /** The two files that say which release is active, and their temporaries. */
  datatype Pub = Pub(marker: Option<Text<Marker>>, markerTmp: Option<Text<Marker>>,
                     pointer: Option<Text<Id>>, pointerTmp: Option<Text<Id>>)

  /** The `releases` and `bin` directories; `staging` holds `releases/<id>.next`, `binTmp` `bin/<name>.next`. */
  datatype Store = Store(releasesDir: bool, releases: Releases, staging: Releases,
                         binDir: bool, bin: Bin, binTmp: Bin)

  datatype Disk = Disk(present: bool, pub: Pub, store: Store)

  const ABSENT := Disk(false, Pub(None, None, None, None), Store(false, map[], map[], false, map[], map[]))

  /** Every directory entry below the root, as readdir would list them. */
  datatype Entry =
    | MarkerEntry | MarkerTmpEntry | PointerEntry | PointerTmpEntry
    | BinEntry | LauncherEntry(name: BinName) | LauncherTmpEntry(name: BinName)
    | ReleasesEntry | ReleaseEntry(id: Id) | StagingEntry(id: Id)
    | FileNode(id: Id, path: Path) | DirNode(id: Id, dir: string)

  /** The directories between a release directory and one of its files. */
  function Dirs(p: Path): set<string> {
    match p
    case IdFile => {}
    case ManifestFile => {}
    case ChecksumsFile => {}
    case ExecutableFile(_) => {"bin"}
    case LauncherFile(_) => {"release", "release/launchers"}
    case WebIndex => {"payload", "payload/web"}
    case WebContract => {"payload", "payload/web", "payload/web/api-docs"}
    case Plain(text) => set k | 0 < k < |text| && text[k] == '/' :: text[..k]
  }

  /** The entries of one release directory that holds the given files. */
  function Nodes(id: Id, files: set<Path>): set<Entry> {
    (set p | p in files :: FileNode(id, p)) + (set p, dir | p in files && dir in Dirs(p) :: DirNode(id, dir))
  }

  function When(present: bool, e: Entry): set<Entry> {
    if present then {e} else {}
  }

  function PubEntries(p: Pub): set<Entry> {
    When(p.marker.Some?, MarkerEntry) + When(p.markerTmp.Some?, MarkerTmpEntry)
    + When(p.pointer.Some?, PointerEntry) + When(p.pointerTmp.Some?, PointerTmpEntry)
  }

  function StoreEntries(d: Store): set<Entry> {
    When(d.binDir, BinEntry) + When(d.releasesDir, ReleasesEntry)
    + (set n | n in d.bin :: LauncherEntry(n))
    + (set n | n in d.binTmp :: LauncherTmpEntry(n))
    + (set id | id in d.releases :: ReleaseEntry(id))
    + (set id | id in d.staging :: StagingEntry(id))
    + (set id, e | id in d.releases && e in Nodes(id, d.releases[id].Keys) :: e)
  }

  function Entries(d: Disk): set<Entry> {
    PubEntries(d.pub) + StoreEntries(d.store)
  }

  /** The files the tree check allows in a release directory it has verified. */
  function AllowedFiles(man: Option<Manifest>): set<Path> {
    {IdFile, ManifestFile, ChecksumsFile} + match man case None => {} case Some(x) => Paths(x)
  }

  function AllowedEntries(w: World, releases: Releases, target: Target): set<Entry> {
    {MarkerEntry, PointerEntry, BinEntry, ReleasesEntry}
    + {LauncherEntry(BinName(Cli, target.IsWindows())), LauncherEntry(BinName(Tui, target.IsWindows())),
       LauncherEntry(BinName(Service, target.IsWindows()))}
    + (set id | id in releases :: ReleaseEntry(id))
    + (set id, e | id in releases && e in Nodes(id, AllowedFiles(VerifyIn(w, releases, id))) :: e)
  }

  predicate SameFile(bin: Bin, n: BinName, t: Tree, p: Path) {
    n in bin && p in t && bin[n] == t[p]
  }

  predicate ReleaseAccepted(w: World, releases: Releases, m: Marker, id: Id) {
    var man := VerifyIn(w, releases, id);
    man.Some? && Installable(man.value) && (id == m.current ==> man.value.target == m.target)
  }

  /** verifyActiveLauncher for each launcher: the name follows the marker's target, the source the manifest. */
  predicate LaunchersMatch(w: World, releases: Releases, bin: Bin, m: Marker) {
    var man := VerifyIn(w, releases, m.current);
    man.Some? && forall l: Launcher ::
      SameFile(bin, BinName(l, m.target.IsWindows()), releases[m.current], LauncherFile(BinName(l, man.value.win32)))
  }

  const MAX_ENTRIES := 128

  /** The releases, their identities and the launchers, as assertManagedTreeForUninstall checks them. */
  predicate CheckedStore(w: World, d: Store, m: Marker) {
    && d.releasesDir && d.binDir
    && d.staging == map[]
    && (forall id | id in d.releases :: ReleaseAccepted(w, d.releases, m, id))
    && m.current in d.releases
    && (m.previous.Some? ==> m.previous.value in d.releases)
    && LaunchersMatch(w, d.releases, d.bin, m)
  }

  /** assertManagedTreeForUninstall, the entry check of install, rollback and uninstall. */
  predicate CheckedTree(w: World, d: Disk, m: Marker) {
    && CheckedStore(w, d.store, m)
    && d.pub.pointer == Some(Readable(m.current))
    && Entries(d) <= AllowedEntries(w, d.store.releases, m.target)
    && |Entries(d)| <= MAX_ENTRIES
  }

  /** loadMarker together with assertMarkerRoot. */
  function LoadMarker(w: World, d: Disk): Option<Marker> {
    match d.pub.marker
    case Some(Readable(m)) => if d.present && m.root == w.root then Some(m) else None
    case _ => None
  }

  /** readInstallStatus: the marker it returns, if it returns. */
  function Status(w: World, d: Disk): Option<Marker> {
    match LoadMarker(w, d)
    case Some(m) => if d.pub.pointer == Some(Readable(m.current)) then Some(m) else None
    case None => None
  }

  /** installedBuildIdentity of scripts/release/local-service-client.ts, run from `releases/x`. */
  predicate IdentityAccepts(w: World, d: Disk, x: Id) {
    && d.present
    && d.pub.marker.Some? && d.pub.marker.value.Readable?
    && d.pub.marker.value.content.root == w.root
    && d.pub.marker.value.content.current == x
    && d.pub.pointer == Some(Readable(x))
    && x in d.store.releases
    && var t := d.store.releases[x];
       IdFile in t && t[IdFile] == IdLine(x) && ManifestFile in t && w.candidateId(t[ManifestFile]) == x
  }

  // ---------------------------------------------------------------- programs

  datatype Pc =
    | MakeReleases | Materialize | Staging | Staged | Recheck
    | MakeBin(exe: bool) | Launch(exe: bool, i: nat) | Copying(exe: bool, i: nat) | Copied(exe: bool, i: nat)
    | PointerStart | PointerWriting | PointerReady
    | MarkerStart | MarkerWriting | MarkerReady | MarkerMove | MarkerSync

  /** `before` is the marker found at entry, `next` the one to publish, `source` the archive of an install. */
  datatype Plan = Plan(id: Id, source: Option<Candidate>, before: Option<Marker>, next: Marker)

  datatype Proc = Idle | Working(plan: Plan, pc: Pc) | Uninstalling

  /** `interrupted` records that some uninstall stopped before it removed the whole root. */
  datatype State = State(disk: Disk, proc: Proc, interrupted: bool)

  datatype Action =
    | BeginInstall(candidate: Candidate) | BeginRollback | BeginUninstall
    | Proceed
    | Scribble(tree: Tree, bytes: Bytes) | Remove(rest: Disk)
    | Fail | Crash

  function PreviousAfter(before: Option<Marker>, id: Id): Option<Id> {
    match before
    case Some(m) => if m.current != id then Some(m.current) else m.previous
    case None => None
  }

  function InstallPlan(w: World, c: Candidate, before: Option<Marker>): Plan {
    Plan(c.id, Some(c), before, Marker(w.root, c.id, PreviousAfter(before, c.id), c.manifest.target))
  }

  /** installOssCandidate up to materializeRelease: prepare the root, read the marker, check the tree. */
  function EnterInstall(w: World, d: Disk, c: Candidate): Proc {
    if !VerifiedCandidate(w, c) then Idle
    else match d.pub.marker
      case None => if Entries(d) == {} then Working(InstallPlan(w, c, None), MakeReleases) else Idle
      case Some(Scrambled) => Idle
      case Some(Readable(m)) =>
        if m.root == w.root && CheckedTree(w, d, m) && m.target == c.manifest.target
        then Working(InstallPlan(w, c, Some(m)), MakeReleases) else Idle
  }

  /** rollbackOssCandidate up to its re-check of the previous release. */
  function EnterRollback(w: World, d: Disk): Proc {
    match LoadMarker(w, d)
    case None => Idle
    case Some(m) =>
      if m.previous.None? || !CheckedTree(w, d, m) then Idle
      else match VerifyIn(w, d.store.releases, m.previous.value)
        case None => Idle
        case Some(man) =>
          Working(Plan(m.previous.value, None, Some(m),
                       Marker(m.root, m.previous.value, Some(m.current), man.target)), Recheck)
  }

  function EnterUninstall(w: World, d: Disk): Proc {
    match LoadMarker(w, d)
    case Some(m) => if CheckedTree(w, d, m) then Uninstalling else Idle
    case None => Idle
  }

  /** The outcome of a step: the directory or file pair it leaves, and where the process goes on, if it does. */
  datatype Step<T> = Step(left: T, next: Option<Pc>)

  /** materializeRelease and the re-verification that follows it, one atomic effect at a time. */
  function ReleaseStep(w: World, d: Store, plan: Plan, pc: Pc, markerFree: bool): Step<Store> {
    var id := plan.id;
    match pc
    case MakeReleases => Step(d.(releasesDir := true), Some(Materialize))
    case Materialize =>
      if id in d.releases then Step(d, if Verify(w, d.releases[id], id).Some? then Some(Recheck) else None)
      else if id in d.staging || plan.source.None? then Step(d, None)
      else Step(d.(staging := d.staging[id := map[]]), Some(Staging))
    case Staging =>
      if plan.source.None? then Step(d, None)
      else Step(d.(staging := d.staging[id := Content(plan.source.value)]), Some(Staged))
    case Staged =>
      if VerifyIn(w, d.staging, id).Some?
      then Step(d.(releases := d.releases[id := d.staging[id]], staging := d.staging - {id}), Some(Recheck))
      else Step(d.(staging := d.staging - {id}), None)
    case Recheck =>
      var man := VerifyIn(w, d.releases, id);
      Step(d, if man.Some? && Installable(man.value) && markerFree then Some(MakeBin(man.value.win32)) else None)
    case _ => Step(d, None)
  }

  /** activateRelease: install the launchers that are missing, refuse one that differs. */
  function LaunchStep(w: World, d: Store, id: Id, pc: Pc): Step<Store> {
    match pc
    case MakeBin(exe) =>
      Step(d.(binDir := true),
           if BinName(Cli, exe) in d.binTmp || BinName(Tui, exe) in d.binTmp || BinName(Service, exe) in d.binTmp
           then None else Some(Launch(exe, 0)))
    case Launch(exe, i) =>
      var n := BinName(Nth(i), exe);
      if i >= 3 then Step(d, Some(PointerStart))
      else if id !in d.releases || LauncherFile(n) !in d.releases[id] then Step(d, None)
      else if n in d.bin then
        Step(d, if d.bin[n] == d.releases[id][LauncherFile(n)] then Some(Launch(exe, i + 1)) else None)
      else if w.win32 then
        Step(d.(bin := d.bin[n := d.releases[id][LauncherFile(n)]]), Some(Launch(exe, i + 1)))
      else Step(d.(binTmp := d.binTmp[n := ""]), Some(Copying(exe, i)))
    case Copying(exe, i) =>
      var n := BinName(Nth(i), exe);
      if id !in d.releases || LauncherFile(n) !in d.releases[id] then Step(d, None)
      else Step(d.(binTmp := d.binTmp[n := d.releases[id][LauncherFile(n)]]), Some(Copied(exe, i)))
    case Copied(exe, i) =>
      var n := BinName(Nth(i), exe);
      if n !in d.binTmp then Step(d, None)
      else if n in d.bin then Step(d.(binTmp := d.binTmp - {n}), None)
      else Step(d.(bin := d.bin[n := d.binTmp[n]], binTmp := d.binTmp - {n}), Some(Launch(exe, i + 1)))
    case _ => Step(d, None)
  }

  /** writeActiveReleasePointer and writeMarker; the locked-directory replacement of Windows is one effect, and only
      elsewhere is the directory synchronised once the marker is in place. */
  function PublishStep(w: World, p: Pub, plan: Plan, pc: Pc): Step<Pub> {
    match pc
    case PointerStart =>
      if p.pointerTmp.Some? then Step(p, None)
      else if w.win32 then Step(p.(pointer := Some(Readable(plan.id))), Some(MarkerStart))
      else Step(p.(pointerTmp := Some(Scrambled)), Some(PointerWriting))
    case PointerWriting => Step(p.(pointerTmp := Some(Readable(plan.id))), Some(PointerReady))
    case PointerReady => Step(p.(pointer := p.pointerTmp, pointerTmp := None), Some(MarkerStart))
    case MarkerStart =>
      if p.markerTmp.Some? then Step(p, None)
      else if w.win32 then Step(p.(marker := Some(Readable(plan.next))), None)
      else Step(p.(markerTmp := Some(Scrambled)), Some(MarkerWriting))
    case MarkerWriting => Step(p.(markerTmp := Some(Readable(plan.next))), Some(MarkerReady))
    case MarkerReady => Step(p.(marker := None), Some(MarkerMove))
    case MarkerMove => Step(p.(marker := p.markerTmp, markerTmp := None), Some(MarkerSync))
    case MarkerSync => Step(p, None)
    case _ => Step(p, None)
  }

  predicate InReleasePhase(pc: Pc) {
    pc.MakeReleases? || pc.Materialize? || pc.Staging? || pc.Staged? || pc.Recheck?
  }

  predicate InLaunchPhase(pc: Pc) {
    pc.MakeBin? || pc.Launch? || pc.Copying? || pc.Copied?
  }

  function Resume(plan: Plan, next: Option<Pc>): Proc {
    match next case None => Idle case Some(pc) => Working(plan, pc)
  }

  /** The next atomic effect of a running install or rollback, or its refusal. */
  function Advance(w: World, s: State, plan: Plan, pc: Pc): State {
    if InReleasePhase(pc) then
      var r := ReleaseStep(w, s.disk.store, plan, pc, s.disk.pub.markerTmp.None?);
      s.(disk := s.disk.(store := r.left), proc := Resume(plan, r.next))
    else if InLaunchPhase(pc) then
      var r := LaunchStep(w, s.disk.store, plan.id, pc);
      s.(disk := s.disk.(store := r.left), proc := Resume(plan, r.next))
    else
      var r := PublishStep(w, s.disk.pub, plan, pc);
      s.(disk := s.disk.(pub := r.left), proc := Resume(plan, r.next))
  }

  /**
   What the `catch` blocks remove when the step at `pc` throws.  The writes that fill a launcher's or the pointer's
   temporary come before their `try`, and writeMarker has none.
   */
  function CleanUp(d: Disk, plan: Plan, pc: Pc): Disk {
    match pc
    case Staging => d.(store := d.store.(staging := d.store.staging - {plan.id}))
    case Staged => d.(store := d.store.(staging := d.store.staging - {plan.id}))
    case Copied(exe, i) => d.(store := d.store.(binTmp := d.store.binTmp - {BinName(Nth(i), exe)}))
    case PointerReady => d.(pub := d.pub.(pointerTmp := None))
    case _ => d
  }

  /** A write in progress leaves arbitrary bytes in the temporary it is filling. */
  function Scribbled(d: Store, plan: Plan, pc: Pc, tree: Tree, bytes: Bytes): Store {
    match pc
    case Staging => d.(staging := d.staging[plan.id := tree])
    case Copying(exe, i) => d.(binTmp := d.binTmp[BinName(Nth(i), exe) := bytes])
    case _ => d
  }

  predicate SubMap<K, V(==)>(a: map<K, V>, b: map<K, V>) {
    forall k | k in a :: k in b && a[k] == b[k]
  }

  predicate SubReleases(a: Releases, b: Releases) {
    forall id | id in a :: id in b && SubMap(a[id], b[id])
  }

  predicate Left<T(==)>(a: Option<T>, b: Option<T>) {
    a.None? || a == b
  }

  /** What a recursive removal of `d` may have left so far: unlinking takes whole entries, in any order. */
  predicate SubDisk(a: Disk, d: Disk) {
    && Left(a.pub.marker, d.pub.marker) && Left(a.pub.markerTmp, d.pub.markerTmp)
    && Left(a.pub.pointer, d.pub.pointer) && Left(a.pub.pointerTmp, d.pub.pointerTmp)
    && SubReleases(a.store.releases, d.store.releases) && SubReleases(a.store.staging, d.store.staging)
    && SubMap(a.store.bin, d.store.bin) && SubMap(a.store.binTmp, d.store.binTmp)
  }

  function ApplyIdle(w: World, s: State, a: Action): State {
    match a
    case BeginInstall(c) =>
      var d := if VerifiedCandidate(w, c) then s.disk.(present := true) else s.disk;
      s.(disk := d, proc := EnterInstall(w, d, c))
    case BeginRollback => s.(proc := EnterRollback(w, s.disk))
    case BeginUninstall => s.(proc := EnterUninstall(w, s.disk))
    case _ => s
  }

  function ApplyUninstalling(s: State, a: Action): State {
    match a
    case Proceed => State(ABSENT, Idle, false)
    case Remove(rest) => if SubDisk(rest, s.disk) then s.(disk := rest) else s
    case Fail => State(s.disk, Idle, true)
    case Crash => State(s.disk, Idle, true)
    case _ => s
  }

  function ApplyWorking(w: World, s: State, plan: Plan, pc: Pc, a: Action): State {
    match a
    case Proceed => Advance(w, s, plan, pc)
    case Scribble(t, b) => s.(disk := s.disk.(store := Scribbled(s.disk.store, plan, pc, t, b)))
    case Fail => s.(disk := CleanUp(s.disk, plan, pc), proc := Idle)
    case Crash => s.(proc := Idle)
    case _ => s
  }

  function Apply(w: World, s: State, a: Action): State {
    match s.proc
    case Idle => ApplyIdle(w, s, a)
    case Uninstalling => ApplyUninstalling(s, a)
    case Working(plan, pc) => ApplyWorking(w, s, plan, pc, a)
  }

  function Run(w: World, s: State, actions: seq<Action>): State
    decreases |actions|
  {
    if actions == [] then s else Run(w, Apply(w, s, actions[0]), actions[1..])
  }

  const FRESH := State(ABSENT, Idle, false)
}
