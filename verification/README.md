# Kite Code release and runtime gates: a verified model

This project models the parts of Kite Code's scripts that decide whether something may be installed, released,
reported as passing or replaced, and proves what they promise. One module stands for one component:

| module | component |
|---|---|
| `ManagedInstall`, `ManagedInstallSafety`, `ManagedInstallTheorems` | the managed root: install, rollback, uninstall, status, and the service client's own reader |
| `ManagedInstallTidy`, `ManagedUpgrade`, `ManagedUpgradeFailure` | what failed operations leave, what an upgrade does to a managed root, and whether the root stays usable |
| `ManagedTree`, `ManagedWalk` | the walk over the managed tree before an uninstall, and its agreement with the managed root |
| `Tar`, `TarNormalizer`, `TarReader`, `TarMeaning` | the ustar header normaliser, the strict archive reader, the lax lister |
| `PackageGraph`, `CycleCheck`, `ForbiddenEdges` | the package gates: cycles and transitively forbidden edges |
| `ImportClosure` | the import worklist of the core boundary check |
| `Sharding`, `WorkerPool` | the test suite's sharder and its abort-on-first-failure worker pool |
| `FaultSoak`, `FaultSoakReport`, `CanonicalJson` | the fault-soak runner, its report, and the canonical printer of the report |
| `FrameDecoder` | the length-prefixed frames of the native runner |
| `ReleaseGate`, `ReleaseGateTheorems`, `ReleaseGateLimits` | the release gate over policies and evidence bundles |
| `SloLedger` | the hash-chained SLO sample ledger and the observation rebuilt from it |
| `Daemon` | start, stop and restart of the App Server daemon |

## How things are modelled

- The managed root is a state machine: a disk (marker, pointer, their temporaries, release and staging directories,
  launchers) and at most one running operation. Every atomic file-system effect is one step; a step may fail (its `catch`
  block runs), the process may die after any step, a write in progress may leave any bytes in its temporary, and a
  recursive removal may stop after removing any part. Theorems speak of `Run(w, FRESH, actions)` for every sequence of
  actions.
- The tar code works on bytes; UTF-8 decoding is a parameter of which at most "ASCII decodes to itself" is assumed.
- Graph searches, worklists, loops over arrays and polling loops are methods with invariants, proved against paths,
  reachability, functions on sequences, or a monitor.
- Digests, JSON parsing and everything the environment answers are parameters; where injectivity of a digest is used, the
  lemma says so. Time is an integer, rates are reals.

## Where the code keeps less than it seems to promise

Each of these has a lemma that shows the failing case and one that states exactly when the promise holds.

- An uninstall that dies after removing the releases leaves a marker and a pointer that `readInstallStatus` still accepts
  (`InterruptedUninstallMisleadsStatus`, `StatusSurvivesExactly`). Operations still refuse such a root
  (`CheckedTreeIsWhole`), save that `CHECKSUMS.sha256` may be missing.
- A first install that fails after it has made the `releases` directory leaves a root that is neither empty nor managed,
  so it cannot be tried again; only a failure to synchronise the root at the very end leaves it complete and accepted
  (`FirstInstallFailureIsFinal`, `LateFailureIsInForce`).
- The writes that fill a launcher's or the pointer's temporary stand before the `try` that would remove it, and nothing
  removes the marker's. A failure there leaves a temporary, and any temporary blocks every later operation
  (`FailureTidiesUp`, `LeftoverBlocks`).
- An upgrade moves the archive into `releases` before it asks whether the archive is installable. A verified archive that
  is not, such as one without release slots, thus blocks install, rollback and uninstall while the status still stands
  (`UninstallableUpgradeBlocks`). `UpgradeFailureExactly` says at which points, and for which archives, a failed or
  refused upgrade leaves the root usable.
- A freshly installed or upgraded root is one that later operations accept only if the manifest's operating system
  matches the name of its target and the tree has at most 128 entries (`FreshInstallIsManageable`,
  `UpgradedIsManageable`); an archive that breaks this exists for every target (`ForeignArchiveIsStuck`).
- The import closure misses its own entry if a TypeScript sibling hides it (`ImportClosure`, `SiblingIsMistaken`).
- Keys that collate alike under `localeCompare` leak insertion order into canonical JSON, unless one of them is an array
  index (`TiedKeysLeak`, `FaithfulIffUntied`).
- The fault-soak runner reads the report's start time before it fixes its hard deadline, and the finish time after it has
  removed the run's directory. Even with no idle time between probes, well-behaved probes can exceed the report's budget
  as soon as any time passes in either span (`DeadlineIsTheBudget`).
- A report built from attempts of another origin than the runner passes with a failed attempt if that attempt's failure
  text is one of the three that only make a report inconclusive (`HiddenFailurePasses`, `PassedExactly`). The runner's
  own attempts never do this (`ReportOfRun`).
- The release gate's waiver looks at the kind and the capability of the evidence, not of the requirement, so it can
  waive a review requirement (`WaivableExactly`) and can use an exception for another capability
  (`OwnExceptionExactly`). A release is still never approved on a waived review (`WaiversAreBounded`).
- Dispositions of P2 risks are taken from the first review among the results, which need not be the one that fulfils the
  review requirement as soon as some requirement is scoped to a capability (`ReviewerAcceptsExactly`).

## Model

| member | source | states |
|---|---|---|
| ManagedInstallSafety.StepKeeps | scripts/release/install-oss-candidate.ts:55-131 | every action (entry of an operation, one atomic effect, a failure with its clean-up, a crash, a partial write, a partial removal) keeps the invariant: directories hold only files of their own archive, and unless an uninstall was cut short, releases are complete, marker and pointer are readable, and the marker is good |
| ManagedInstallSafety.RunKeeps | scripts/release/install-oss-candidate.ts:55-131 | the invariant holds along every run |
| ManagedInstallSafety.ReleaseStepKeeps | scripts/release/install-oss-candidate.ts:133-188 | staging, verifying and renaming never changes an existing release and adds only a complete one with the plan's target |
| ManagedInstallSafety.LaunchStepPlace | scripts/release/install-oss-candidate.ts:190-327 | each launcher step, in place or through a temporary copy, reaches its next point with the launchers so far equal to the release's |
| ManagedInstallSafety.PublishStepKeeps | scripts/release/install-oss-candidate.ts:329-515 | writing the pointer and then the marker passes only through the states the readers are proved against |
| ManagedInstallTheorems.AcceptedStatusIsComplete | scripts/release/install-oss-candidate.ts:126-131 | in every reachable state not spoilt by an interrupted uninstall, an accepted status means marker and pointer name one candidate whose directory is exactly its verified archive |
| ManagedInstallTheorems.IdentityAgreesWithStatus | scripts/release/local-service-client.ts:213-282 | the service client's reader accepts an identity exactly when the installer's status names it |
| ManagedInstallTheorems.EntryMeansCheckedTree | scripts/release/install-oss-candidate.ts:55-124 | install on a marked root, rollback and uninstall go ahead only on a readable marker whose tree passes the check |
| ManagedInstallTheorems.CheckedTreeIsWhole | scripts/release/install-oss-candidate.ts:528-605 | even after interrupted uninstalls, passing the entry check means marker and pointer agree and the active release is its verified archive, save perhaps the checksum listing |
| ManagedInstallTheorems.TornRootIsRefused | scripts/release/install-oss-candidate.ts:329-369 | dying between the pointer's replacement and the marker's, or between the marker's removal and rename, leaves a root that both readers and all three operations refuse |
| ManagedInstallTheorems.MarkerIsOrdered | scripts/release/install-oss-candidate.ts:66-116 | in every reachable marked root current and previous differ, both are verified releases whose launchers equal those in bin, and every release has the marker's target |
| ManagedInstallTheorems.PublishedFilesNeverChange | scripts/release/install-oss-candidate.ts:133-232 | over any run without an uninstall, no release directory and no launcher is ever changed or removed |
| ManagedInstallTheorems.RollbackCompletes | scripts/release/install-oss-candidate.ts:97-116 | an undisturbed rollback of a checked root swaps the two candidates in marker and pointer and touches nothing else |
| ManagedInstallTheorems.TwoRollbacksRestore | scripts/release/install-oss-candidate.ts:97-116 | two undisturbed rollbacks restore the whole disk |
| ManagedInstallTheorems.RollbackNeverMeetsAnotherLauncher | scripts/release/install-oss-candidate.ts:190-232 | in every run the launcher-identity check lets a rollback through |
| ManagedInstallTheorems.MaterializeCompletes | scripts/release/install-oss-candidate.ts:133-162 | undisturbed materialisation adds exactly the archive's content under its identity and leaves no staging |
| ManagedInstallTheorems.FreshInstallCompletes | scripts/release/install-oss-candidate.ts:55-95 | an undisturbed install of a verified, installable archive into an absent root ends with exactly the expected disk |
| ManagedInstallTheorems.FreshInstallIsManageable | scripts/release/install-oss-candidate.ts:528-596 | that root has a status, and an uninstall, and an install of any verified archive of its target, accept it exactly when manifest and target name agree on Windows and the tree stays within 128 entries |
| ManagedInstallTheorems.ForeignArchiveIsStuck | scripts/release/install-oss-candidate.ts:528-596 | for every machine and target some installable archive breaks that condition: its undisturbed first install ends in a root that is not accepted |
| ManagedInstallTheorems.InterruptedUninstallMisleadsStatus | scripts/release/install-oss-candidate.ts:118-131 | from every root that may be uninstalled, a removal that dies early leaves an accepted status for a release that is gone |
| ManagedInstallTheorems.StatusSurvivesExactly | scripts/release/install-oss-candidate.ts:118-131 | the status stays sound through an uninstall that dies exactly when the uninstall is refused at its entry |
| ManagedInstallTidy.RunIsTidy | scripts/release/install-oss-candidate.ts:133-369 | in every run an operation under way owns exactly the temporaries of its current step, and until its release is renamed the root is as it was found |
| ManagedInstallTidy.FailureTidiesUp | scripts/release/install-oss-candidate.ts:288-515 | a step that throws leaves no temporary exactly when it was not filling a launcher's or the pointer's temporary and not writing the marker |
| ManagedInstallTidy.LeftoverBlocks | scripts/release/install-oss-candidate.ts:528-595 | any temporary left behind makes install, rollback and uninstall refuse the root |
| ManagedInstallTidy.FirstInstallFailureIsFinal | scripts/release/install-oss-candidate.ts:59-64 | a first install that fails leaves a root every reader and operation refuses, exactly unless it failed before its first directory or at the synchronisation after the marker |
| ManagedInstallTidy.LateFailureIsInForce | scripts/release/install-oss-candidate.ts:513-515 | an operation that fails at that last synchronisation has published its release: status and pointer name it |
| ManagedUpgrade.UpgradeCompletes | scripts/release/install-oss-candidate.ts:55-95 | an undisturbed install onto a managed root always ends, with exactly the stated disk: refused, stopped at a launcher that differs, or published |
| ManagedUpgradeFailure.UpgradePublishesExactly | scripts/release/install-oss-candidate.ts:190-232 | it publishes exactly when the archive is installable and equals each launcher already installed; then every launcher is in place, none was changed, and otherwise marker and pointer are untouched |
| ManagedUpgradeFailure.UpgradedIsManageable | scripts/release/install-oss-candidate.ts:528-596 | the published root passes the entry check exactly when manifest and target name agree on Windows and the tree stays within 128 entries |
| ManagedUpgradeFailure.UninstallableUpgradeBlocks | scripts/release/install-oss-candidate.ts:75-77 | from every managed root, an undisturbed install of a verified archive that is new, of the same target and not installable ends with the old status and with every operation refusing the root |
| ManagedUpgradeFailure.RunTraces | scripts/release/install-oss-candidate.ts:133-369 | in every run, an operation on a managed root has, until the pointer is replaced, changed no more of the root it found than its place says |
| ManagedUpgradeFailure.UpgradeFailureExactly | scripts/release/install-oss-candidate.ts:66-89 | an operation that fails before the pointer is replaced leaves a root that passes the entry check exactly if the release is not yet there, or is installable, with no temporary left, no launcher of a foreign name placed, and at most 128 entries |
| ManagedUpgradeFailure.RefusalIsFailure | scripts/release/install-oss-candidate.ts:133-369 | a step that is refused leaves the same root as one that fails |
| ManagedTree.Visit | scripts/release/install-oss-candidate.ts:581-594 | one directory is counted and checked and its directories are pushed, so that count and stack together still stand for the whole tree |
| ManagedTree.WalkTree | scripts/release/install-oss-candidate.ts:575-595 | the stack walk accepts exactly the trees in which every entry at any depth is expected and a file or directory, with no more entries than allowed |
| ManagedTree.ManagedIsPlain | scripts/release/install-oss-candidate.ts:575-595 | that test and that count are those of one flat list of all paths in the tree |
| ManagedWalk.CheckEntries | scripts/release/install-oss-candidate.ts:528-595 | on every tree that shows a managed root, the walk decides what the model asks of the root's entries: all allowed, and at most 128 |
| Tar.ChecksumBound | scripts/release/oss-candidate.ts:690-693 | a header sum is at most 130560 and below 8^6 |
| Tar.ChecksumFieldRoundTrip | scripts/release/verify-production-supply-chain.ts:1073-1079 | six octal digits always fit the sum, and parsing the written field gives the sum back |
| TarNormalizer.NormalHeaderChecks | scripts/release/verify-production-supply-chain.ts:952-956 | every header the normaliser writes passes the strict reader's checksum test |
| TarNormalizer.ChangesMetadataOnly | scripts/release/oss-candidate.ts:682-699 | normalisation keeps the length and changes only bytes 136 to 155 of the headers it walks |
| TarNormalizer.MetadataIsErased | scripts/release/oss-candidate.ts:682-699 | archives that differ only in those bytes are accepted alike and normalise to identical bytes |
| TarNormalizer.NormalizeIsIdempotent | scripts/release/oss-candidate.ts:682-699 | normalising twice is normalising once |
| TarNormalizer.NormalizeHeader | scripts/release/oss-candidate.ts:690-693 | the in-place writes turn exactly one header into its normal form |
| TarNormalizer.NormalizeEntry | scripts/release/oss-candidate.ts:684-697 | one turn of the loop leaves the final result of the walk unchanged, or finds a size that is not octal |
| TarNormalizer.NormalizeTarMetadata | scripts/release/oss-candidate.ts:682-699 | the loop over the byte array computes the normal form, and throws exactly when there is none |
| TarReader.ReadIsTiled | scripts/release/verify-production-supply-chain.ts:939-1022 | what the strict reader walks is tiled by headers and padded bodies from offset 0 to an all-zero tail of two blocks or more |
| TarReader.SplitRoundTrip | scripts/release/verify-production-supply-chain.ts:979-979 | splitting a path at slashes loses nothing and leaves no slash in a part |
| TarReader.SafePathStaysInside | scripts/release/oss-candidate.ts:726-734 | an accepted path, resolved below any directory, names a place below it by exactly its own parts |
| TarReader.TiledIsRead | scripts/release/verify-production-supply-chain.ts:939-1022 | conversely every such tiling is walked, with exactly its entries |
| TarReader.AcceptedIsLayout | scripts/release/verify-production-supply-chain.ts:925-1047 | an accepted archive is tiled by genuine entries with distinct safe paths, and the launcher bytes are the body of the regular entry with the launcher's path |
| TarReader.LayoutIsAccepted | scripts/release/verify-production-supply-chain.ts:925-1047 | every archive of that make is accepted, with those bytes, and its decomposition is unique |
| TarReader.VerifyArchiveLayout | scripts/release/verify-production-supply-chain.ts:933-1024 | the loop with its offset, found, terminated and entries yields exactly that verdict and those bytes |
| TarReader.ListRegularTarPaths | scripts/release/oss-candidate.ts:701-724 | the lax loop lists the paths on its way exactly when each header is listable and no path repeats |
| TarReader.ReadersAgree | scripts/release/oss-candidate.ts:701-739 | on what the strict reader accepts, the lister succeeds exactly if all entries are regular files with paths of at most 240 units, and then returns the same paths in the same order |
| TarMeaning.NormalizedReadsAlike | scripts/release/oss-candidate.ts:682-699 | normalising an archive the strict reader walks keeps every path, kind, size, mode and body, in order |
| TarMeaning.NormalizedLayout | scripts/release/oss-candidate.ts:682-699 | an accepted archive is normalised without error and still yields the same launcher bytes |
| PackageGraph.Adjacency | scripts/runtime-packages/check-runtime-packages.ts:1255-1260 | the adjacency map holds, for each package, its targets in the order of the edges |
| CycleCheck.Search.Visit | scripts/runtime-packages/check-runtime-packages.ts:1264-1280 | a visit restores the active path, takes back no visit and no report, keeps every report a real closed path, and marks the package visited unless something has been reported |
| CycleCheck.ValidateCycles | scripts/runtime-packages/check-runtime-packages.ts:1251-1282 | terminates; reported texts are distinct real closed paths; something is reported exactly when a listed package reaches a cycle |
| CycleCheck.SilenceMeansAcyclic | scripts/runtime-packages/check-runtime-packages.ts:1251-1282 | a search that reported nothing has shown every visited package free of cycles |
| ForbiddenEdges.Search.Visit | scripts/runtime-packages/check-runtime-packages.ts:1296-1309 | the packages seen anew are reachable from the visited one and lead only to seen packages, and exactly the illegal edges that leave them are added to the reports |
| ForbiddenEdges.ValidateTransitiveForbiddenEdges | scripts/runtime-packages/check-runtime-packages.ts:1284-1312 | a text is reported exactly when it names a listed origin and an illegal edge whose source is another package reachable from it |
| ImportClosure.ResolvedIsCanonical | scripts/check-core-boundary.ts:107-123 | every file a specifier resolves to resolves to itself again from its module path |
| ImportClosure.ImportClosure | scripts/check-core-boundary.ts:125-141 | terminates, and the result is exactly the modules reachable from the entry if and only if the entry resolves to itself; it then has no repetition |
| ImportClosure.InexactOtherwise | scripts/check-core-boundary.ts:140-140 | for an entry that does not resolve to itself the result misses the entry |
| ImportClosure.SiblingIsMistaken | scripts/check-core-boundary.ts:111-123 | a JavaScript entry beside a TypeScript file of the same name is such an entry |
| Sharding.LongestFirstBound | scripts/test-suite.ts:95-110 | 3m times the heaviest load of the longest-first assignment to m shards is at most 4m-1 times the heaviest load of any assignment (Graham's 4/3 - 1/(3m)) |
| Sharding.GapIsOneFile | scripts/test-suite.ts:102-108 | heaviest and lightest shard differ by at most one file's weight |
| Sharding.AssignmentOf | scripts/test-suite.ts:95-110 | any other distribution of the same files is an assignment the bound applies to |
| Sharding.Lightest | scripts/test-suite.ts:103-105 | the reduce picks the first of the lightest shards |
| Sharding.PlaceInOrder | scripts/test-suite.ts:102-108 | the loop places each file, in order, on the lightest shard |
| Sharding.ShardTestFiles | scripts/test-suite.ts:95-110 | every file lands in exactly one shard, shards are balanced up to one file, within the bound of every other distribution, and listed in order |
| WorkerPool.StepKeeps | scripts/test-suite.ts:193-204 | every stretch between two awaits keeps: jobs start in order and once, each started job ended or is awaited by one worker, the recorded failure is the first |
| WorkerPool.EveryInterleaving | scripts/test-suite.ts:185-209 | in every interleaving no job starts twice or after the first recorded failure, no more run at once than there are workers, and the result is the first non-zero exit |
| WorkerPool.ZeroMeansAllPassed | scripts/test-suite.ts:205-208 | result 0 after all workers returned means every job ran exactly once and exited with 0 |
| FaultSoak.RotationCovers | scripts/runtime/run-fault-soak.ts:824-827 | for every seed, negative ones too, an iteration runs each of the seven cases exactly once |
| FaultSoak.RunRuntimeFaultSoak | scripts/runtime/run-fault-soak.ts:1061-1092 | the nested loops make one attempt per slot, with the timeout the clock allows, and exactly one per case and iteration whatever the probes do |
| FaultSoak.RunCovers | scripts/runtime/run-fault-soak.ts:1069-1092 | exactly one attempt per case and iteration, for any order of probes that repeats none |
| FaultSoak.ProbesEndInTime | scripts/runtime/run-fault-soak.ts:210-219 | a probe that overruns its grant by no more than the reserve ends by the hard deadline, whatever time passes between probes |
| FaultSoak.RunEndsInTime | scripts/runtime/run-fault-soak.ts:1066-1092 | the run outlasts its deadline by at most the time spent idle after its last probe |
| FaultSoak.RunMeetsDeadline | scripts/runtime/run-fault-soak.ts:1066-1092 | without idle time the whole run ends by the hard deadline, for any iterations and durations |
| FaultSoak.DeadlineIsTheBudget | scripts/runtime/run-fault-soak.ts:1065-1100 | with no idle time between probes, probes that settle never exceed the report's budget exactly when no time passes between the start time and the deadline's reading nor between the last probe and the finish time, or when no probe can be granted time and both spans fit the budget |
| FaultSoakReport.CoveredIffCovers | scripts/runtime/fault-soak-report.ts:640-653 | the grouping tests are all silent exactly when there is one attempt per case and iteration and no other |
| FaultSoakReport.BuildReport | scripts/runtime/fault-soak-report.ts:603-809 | the loops raise exactly the codes of the attempts, of the groups and of the run, and derive the status from them |
| FaultSoakReport.CoverageCodesAreExact | scripts/runtime/fault-soak-report.ts:614-653 | a report has no coverage code exactly when attempts cover cases and iterations one to one and no failed attempt brought such a text along |
| FaultSoakReport.PassedExactly | scripts/runtime/fault-soak-report.ts:796-809 | the status is passed exactly when limits are kept, coverage is one to one, and every attempt is clean or hides its failure behind an inconclusive text |
| FaultSoakReport.ReportOfRun | scripts/runtime/run-fault-soak.ts:1061-1117 | a completed run's report never carries a coverage code, and passes exactly when limits are kept and every attempt is clean |
| FaultSoakReport.PassingRun | scripts/runtime/run-fault-soak.ts:834-1117 | from the runner to the verdict: a run's report passes exactly when limits are kept and every probe of every iteration was granted time, exited with 0 and showed its evidence |
| FaultSoakReport.HiddenFailurePasses | scripts/runtime/fault-soak-report.ts:620-620 | any attempt of a passing report can be turned into a failed one without the report failing |
| CanonicalJson.PrintDecodes | scripts/runtime/fault-soak-report.ts:286-298 | printed text, followed by anything that cannot continue it, determines the value and where it ends |
| CanonicalJson.TextDeterminesValue | scripts/runtime/fault-soak-report.ts:286-298 | equal text comes from values that are equal up to key order, whatever the collation |
| CanonicalJson.SameValuesPrintAlike | scripts/runtime/fault-soak-report.ts:286-298 | values equal up to key order print alike, if no two keys other than array indices collate alike |
| CanonicalJson.TiedKeysLeak | scripts/runtime/fault-soak-report.ts:291-293 | two different keys that collate alike, neither an array index, give equal objects with different texts |
| CanonicalJson.FaithfulIffUntied | scripts/runtime/fault-soak-report.ts:286-298 | the text is a faithful key over a set of object keys exactly when no two of them collate alike, array indices excepted |
| FrameDecoder.LengthRoundTrip | scripts/release/platform-capability-probe.ts:1422-1424 | a length below 2^32 survives the little-endian prefix |
| FrameDecoder.DrainMore | scripts/release/platform-capability-probe.ts:1396-1415 | an answer stands whatever bytes follow, and an incomplete buffer loses nothing |
| FrameDecoder.ReadReceipt | scripts/release/platform-capability-probe.ts:1386-1419 | the answer is that of the concatenated chunks, wherever the stream is cut |
| FrameDecoder.EncodeProbeFrame | scripts/release/platform-capability-probe.ts:1421-1427 | the filled array is the length prefix followed by the payload |
| FrameDecoder.FramesDecode | scripts/release/platform-capability-probe.ts:1386-1427 | encoded frames without an exit, then an exit frame, decode to its exit code exactly when no frame exceeds 16 MiB |
| ReleaseGate.EvaluateReleaseGate | scripts/release/gate-evaluator.ts:237-418 | the method that pushes reasons in loops returns the decision, and throws exactly on inputs that break a schema rule or a digest |
| ReleaseGate.CheckRisks | scripts/release/gate-evaluator.ts:320-331 | the loop adds one reason per unsafe risk, in order |
| ReleaseGateTheorems.ItemMeaning | scripts/release/gate-evaluator.ts:278-312 | a requirement is passed exactly when its evidence meets it on every count, waived exactly when it falls short and a matching exception is in force for waivable evidence, and otherwise blocked with a reason |
| ReleaseGateTheorems.ItemIsClean | scripts/release/gate-evaluator.ts:420-488 | identity, freshness, execution and status reasons are all absent exactly when the evidence fulfils the requirement |
| ReleaseGateTheorems.ReasonsTell | scripts/release/gate-evaluator.ts:420-488 | each reason, those about the execution included, is given exactly for its own defect |
| ReleaseGateTheorems.ClearedExactly | scripts/release/gate-evaluator.ts:248-337 | nothing is wrong with the bundle as a whole exactly when identities match, no evidence is unexpected, every risk is mitigated or an accepted P2 with its disposition, and dispositions agree with risks |
| ReleaseGateTheorems.ApprovedExactly | scripts/release/gate-evaluator.ts:338-405 | the overall decision, in both directions: approved exactly when the bundle is cleared, every global requirement is fulfilled or waived, and in a release the maintainer's review is fulfilled |
| ReleaseGateTheorems.EnabledExactly | scripts/release/gate-evaluator.ts:349-372 | a capability is enabled exactly when the candidate is approved and the capability has requirements, all fulfilled or waived |
| ReleaseGateTheorems.ApprovedCandidateIsReviewed | scripts/release/gate-evaluator.ts:454-476 | an approved candidate has no open risk, no accepted P0 or P1 risk, and a passed review of this artifact by the maintainer that no automatic evidence outlasts |
| ReleaseGateTheorems.WaiversAreBounded | scripts/release/gate-evaluator.ts:295-303 | a waiver leaves G0, G1, missing evidence and review evidence alone, rests on an exception in force for the evidence and gate, and in an approved release never stands for the review |
| ReleaseGateLimits.WaivableExactly | scripts/release/gate-evaluator.ts:295-303 | some bundle waives a requirement exactly when its gate is not G0 or G1, whatever its kind |
| ReleaseGateLimits.OwnExceptionExactly | scripts/release/gate-evaluator.ts:509-522 | waivers always rest on an exception for the requirement's own capability exactly for requirements at G0 or G1, which are never waived |
| ReleaseGateLimits.OwnExceptionInBundle | scripts/release/gate-evaluator.ts:509-522 | a waiver whose evidence has the requirement's capability rests on an exception for that capability |
| ReleaseGateLimits.ReviewerAcceptsExactly | scripts/release/gate-evaluator.ts:314-337 | in every approved bundle the accepted P2 risks are those the fulfilling review accepted exactly when the policy scopes no requirement to a capability |
| ReleaseGateLimits.WithCapability | scripts/release/gate-evaluator.ts:314-319 | with such a requirement, a bundle is approved on the dispositions of a bystander's review |
| SloLedger.VerifyAdmissions | scripts/operations/limited-slo-ledger.ts:241-267 | the loop accepts exactly contiguous, hash-chained, distinct, non-decreasing admissions not before the window |
| SloLedger.VerifyTerminals | scripts/operations/limited-slo-ledger.ts:269-307 | the loop accepts exactly the chained receipts that each answer their own admission inside the window |
| SloLedger.VerifyLimitedSloSampleLedger | scripts/operations/limited-slo-ledger.ts:225-317 | the verification accepts exactly the ledgers |
| SloLedger.LedgerIsBijection | scripts/operations/limited-slo-ledger.ts:269-310 | in an accepted ledger receipts and admissions are in bijection |
| SloLedger.AdmissionsAreInside | scripts/operations/limited-slo-ledger.ts:257-301 | every admission lies inside the window although only its lower end is compared |
| SloLedger.AdmissionDigestPinsPrefix | scripts/operations/limited-slo-ledger.ts:241-267 | with an injective digest, a digest found in two chains stands at the same place in both, after equal prefixes |
| SloLedger.AgreeByDigest | scripts/operations/limited-slo-ledger.ts:241-267 | equal last admission digests force equal admission lists |
| SloLedger.LastReceiptPinsSamples | scripts/operations/limited-slo-ledger.ts:269-310 | accepted ledgers with the same last receipt have the same receipts and the same admissions |
| SloLedger.RebuildLimitedSloObservation | scripts/operations/limited-slo-ledger.ts:319-378 | the rebuild yields the observation of the receipts, and refuses exactly what verification refuses |
| SloLedger.ObservationLaws | scripts/operations/limited-slo-ledger.ts:319-366 | every rate lies in [0,1], pass rate plus burn is 1 unless empty, and the failure totals are zero exactly when every sample's are |
| SloLedger.RateMeans | scripts/operations/limited-slo-ledger.ts:352-365 | each rate is that of the receipts showing its property among the receipts it is about; recoveries and reverts outside their denominators cannot occur |
| Daemon.SpawnIsSafe | scripts/release/app-server-daemon.ts:175-210 | in every accepted trace a spawn after a shutdown follows an accepted reply, an absent status with the asked process dead, and a later absent status |
| Daemon.StatusTells | scripts/release/app-server-daemon.ts:118-174 | a status is ready only for a compatible instance in its ready phase, and then names that instance's build, workspace and identity |
| Daemon.AcceptedIsSafe | scripts/release/app-server-daemon.ts:175-325 | every accepted trace has at most one shutdown, naming the instance observed first, and at most one spawn |
| Daemon.RefusalIsFinal | scripts/release/app-server-daemon.ts:186-193 | after a busy, changed or unusable reply nothing happens any more |
| Daemon.ChangeIsFinal | scripts/release/app-server-daemon.ts:196-199 | after a poll that saw another instance nothing happens any more |
| Daemon.Client.StopInstance | scripts/release/app-server-daemon.ts:175-210 | returns normally only when the asked instance is gone, against every sequence of answers |
| Daemon.Client.Start | scripts/release/app-server-daemon.ts:241-301 | spawns only on an absent status, and fails at start-up only after a spawn |
| Daemon.Client.Restart | scripts/release/app-server-daemon.ts:302-325 | against every sequence of answers the trace is safe, a normal return is ready with the target build and the workspace given, or that of the daemon observed first, or the working directory, and no failure before the launch leaves a spawn behind |
| Daemon.Client.Stop | scripts/release/app-server-daemon.ts:340-345 | at most one shutdown, naming the first observed instance, and never a spawn |

## Left out

- Two installers running at once on one root: the scripts take no lock, and the model has one running operation at a time.
- Symbolic links, permissions, ownership and path canonicalisation on disk: the model's directories hold plain files.
- The directory replacement used for locked Windows directories: one atomic effect.
- `validateReleaseSlots` and the text comparison of `CHECKSUMS.sha256` inside archive verification: an archive is verified when its manifest's file list, sizes and digests match.
- SHA-256, gzip, UTF-8 decoding and JSON parsing: parameters.
- The extraction of the macOS bundle and the comparison of the launcher's digest with the signed file after the archive walk.
- Percentiles, slopes, resource metrics and telemetry grouping of the fault-soak report: their codes enter the report model as inputs.
- The syntax of fields in policies, bundles and ledgers (non-empty text, digest and commit patterns), and record digests inside a review.
- The order and de-duplication of the reasons listed for gates and capabilities: reasons are sets there.
- Clocks that run backwards: the fault-soak and daemon models let time stand still or pass.
- Spelling: a failure text that spells out one of the report's own codes is that code in the model; every other text is `Other`.
- `uniqueEdges`, the AST visitors that collect imports, and the other text-pattern gates: easy or foreign.
- Command-line parsing, platform probes, signing and the admission gates whose registries are empty.
- ManagedInstallTheorems.IdentityAgreesWithStatus: leaves out the reader's syntactic checks of the executable's own path, which do not depend on the managed state.
- Daemon.Client.Restart: the check that the prepared endpoint equals the client's is part of preparing, which may fail.
