# Kyberion scripts: models and proofs

Kyberion orchestrates agents. Eight of its scripts hold the algorithms and state machines that the rest relies on;
this project models them in Dafny and proves what they promise, over every input, every run and every reachable
state. Where the code does not keep a promise in some cases, the model keeps the code's behaviour, one lemma gives an
input that shows it, and another says for all inputs exactly when the promise holds.

| files | what they model |
|---|---|
| `RoleGraph`, `RolePath`, `RoleSurface`, `RoleReport`, `RoleGate`, `RoleMeaning` | role-assumption reachability: the search inside the spawn fixpoint, witness chains and where they start, the report, the gate (`scripts/analyze_role_assumptions.ts`) |
| `MirrorReplay`, `ReplayMeaning`, `MirrorFiles`, `MirrorReconcile`, `MirrorMeaning`, `MirrorProtocol`, `MirrorApply` | audit mirrors: rename replay, per-date files, drift findings and their application, the approval protocol under two locks (`scripts/audit_mirror_reconcile.ts`) |
| `Admission`, `DelegatedWorker`, `WorkerRestarts`, `InflightMetric` | the supervisor daemon's admission, worker restarts and metric throttle, as interleaved atomic steps (`scripts/agent_runtime_supervisor_daemon.ts`) |
| `ChangelogLines`, `Changelog`, `ChangelogKept`, `ChangelogPlacement`, `ChangelogOrder`, `ChangelogMatter`, `ChangelogFragments`, `FragmentMeaning`, `ChangelogMeaning` | merging changelog fragments (`scripts/assemble_changelog.ts`) |
| `WeekKey`, `BackupPrune`, `BackupRetention` | backup retention (`scripts/backup.ts`) |
| `BackupScope`, `BackupPlan`, `MissionRepos`, `PlanMeaning`, `BackupRestore`, `RestoreMeaning`, `BackupRoundTrip` | the tenant planner against the restore validator (`scripts/backup.ts`) |
| `Framing` | native-messaging frames (`scripts/browser_bridge_host.ts`) |
| `BuildStage`, `StageOutcome`, `BuildReceipt`, `ReceiptMeaning` | one build stage over every event order; attempts and receipts over sequences of builds (`scripts/build_repository.ts`) |
| `DependencyManifest`, `DependencyPatch`, `PatchMeaning` | the patch transaction against an arbitrary command runner (`scripts/apply_dependency_patch.ts`) |
| `Order`, `WhiteSpace`, `PlainObject`, `Wrappers` | code-point order and sorting by name, white space, inherited object names, Option and Result |

Code that updates variables step by step is a class or a loop here too, tied to a specification function; the laws are
lemmas about that function. The `*Meaning` modules, `MirrorApply`, `WorkerRestarts` and `StageOutcome` say what those
functions decide in terms of the inputs, the state or the order of events alone, in both directions. `dafny verify dfyconfig.toml` checks everything.

## Where the code departs from what it says

- A witness chain is meant to start at an entry unit of the surface with nothing behind it. It may go round instead
  (`RoleSurface.ChainMayGoRound`), or end at a unit that a spawned file's entry returns and that is of no surface file
  (`RoleSurface.ChainMayEndAtAReturnedUnit`). It starts as meant exactly when the spawn origins lead from its unit to a
  surface entry of a file that no spawn added (`RoleSurface.ChainStartsAtTheSurfaceIff`).
- Names of members of `Object.prototype` slip through plain-object lookups. A role with such a name is never listed and
  passes the gate ungranted (`RoleGate.InheritedNamePassesUngranted`, exact in `RoleReport.ListedIffAssumable` and
  `RoleGate.GateDecidesGrants`); a launched system role with one passes without an entry
  (`RoleGate.InheritedLaunchPassesUnanalysed`, exact in `RoleGate.CheckLaunched` and
  `RoleGate.CheckReachabilityInvariants`); a package with one is taken for a direct dependency
  (`DependencyManifest.InheritedNameIsDirect`, exact in `DependencyManifest.DirectIff`).
- A rebuilt mirror whose master dates go backwards is reported again at once
  (`MirrorReconcile.BackwardsPairIsReportedAgain`, exact in `MirrorReconcile.ConvergesIffRebuiltInOrder` and, for what
  an apply leaves, `MirrorReconcile.MirrorStore.ApplyReconciliation`). A mirror whose rebuild fails is gone, and no
  later collection reports it (`MirrorReconcile.UndatedMirrorIsLost`, `MirrorReconcile.StoppedMirrorDropsOut`); an
  apply runs to the end exactly when every mirror it rebuilds has dated entries only
  (`MirrorReconcile.AppliesIffRebuiltAreDated`).
- After the daemon begins to shut down, a worker start in flight still spawns
  (`DelegatedWorker.StartInFlightOutlivesShutdown`), and so does a request it still serves
  (`DelegatedWorker.RequestAfterShutdownSpawns`). What may spawn without a request is exactly what is in flight
  (`DelegatedWorker.ShutdownMaySpawnIff`); a request starts a worker exactly when none lives or is about to
  (`DelegatedWorker.RequestAfterShutdownStartsIff`).
- A tenant namespace nested below its registered root is backed up, and the archive is then refused on restore
  (`BackupRoundTrip.NestedNamespaceIsRefused`); so is an archive made while another tenant has a mission repository,
  because every mission repository is bundled (`BackupRoundTrip.ForeignRepoIsRefused`). The exact condition, on the
  disk, is `BackupRoundTrip.PlannedArchiveMayBeRestoredIff`.
- The restore allowlist keeps two tenants apart exactly when neither is called `tenants` or `customers`, which are
  valid slugs (`BackupScope.TenantsAreApartIff`, `BackupScope.NamespaceNamesAreSlugs`).
- A child process that emits its first `error` after `close` re-arms a settled build stage
  (`BuildStage.LateErrorSignalsAfterSuccess`, exact in `BuildStage.SettledStageIsQuietIff`).
- A rollback is undone by a reinstall that writes the manifest (`DependencyPatch.RollbackMayNotRestore`, exact in
  `DependencyPatch.RollbackRestoresIff`); a rescan that fails without printing confirms a patch although a comment
  calls the reading fail-closed (`DependencyPatch.SilentRescanConfirms`, exact in `DependencyPatch.RescanPassesIff`); a
  command that throws leaves the bumped manifest without a rollback or a record (`DependencyPatch.ThrowLeavesTheBump`,
  exact in `DependencyPatch.LeftHalfwayIff`).

## Model

| member | source | states |
|---|---|---|
| RoleGraph.EntryUnitsFor | scripts/analyze_role_assumptions.ts:189-199 | the entry units of a list of files are exactly those of its files, in order |
| RoleGraph.Bfs | scripts/analyze_role_assumptions.ts:148-165 | the visited units are exactly those forced by the entry units and the edges, each with a parent that justifies it and was found before it |
| RoleGraph.MergeChild | scripts/analyze_role_assumptions.ts:266-271 | merging a spawn keeps one entry per site holding exactly the targets spawned there |
| RoleGraph.CollectSpawns | scripts/analyze_role_assumptions.ts:255-274 | one round adds exactly the files spawned by visited units, records who added each, and reports whether any was new |
| RoleGraph.Explore | scripts/analyze_role_assumptions.ts:246-275 | the fixpoint ends, and its visited set is the least set holding the entry units and closed under edges and under the entry units of inherited-role spawns, in an order that puts parents first |
| RolePath.PathTo | scripts/analyze_role_assumptions.ts:171-187 | the chain is finite, repeat-free and ends at the unit; it stops only where nothing is behind its head or what is behind it is already in it |
| RolePath.ChainIsAWitness | scripts/analyze_role_assumptions.ts:171-187 | each consecutive pair is linked by a graph edge or by a spawn of the later unit's file |
| RolePath.SearchRoot | scripts/analyze_role_assumptions.ts:148-165 | following parents from a visited unit ends at a visited unit without one |
| RolePath.RootsEndUnlessRevisited | scripts/analyze_role_assumptions.ts:171-187 | going from root to root through spawn origins ends exactly when no root comes again |
| RolePath.ChainComesToAnEndIff | scripts/analyze_role_assumptions.ts:171-187 | a chain starts where nothing is behind exactly when the spawn origins from its unit's search root never come back to a root they have been through |
| RolePath.WithoutOriginsChainsStartAtEntries | scripts/analyze_role_assumptions.ts:148-187 | without spawn origins every chain starts at an entry unit |
| RolePath.RootIsEntry | scripts/analyze_role_assumptions.ts:171-199 | a unit with nothing behind it is an entry unit, and its file, if an entry file, is one of the given ones |
| RoleSurface.ChainGoesThroughRoots | scripts/analyze_role_assumptions.ts:171-187 | every unit of a chain has its search root on the way through the spawn origins |
| RoleSurface.ChainStartsAtTheSurfaceIff | scripts/analyze_role_assumptions.ts:171-199 | a chain of an exploration starts at a surface entry with nothing behind it exactly when the spawn origins lead from its unit to such an entry of a file no spawn added |
| RoleSurface.ChainMayGoRound | scripts/analyze_role_assumptions.ts:171-187 | on a concrete graph a reached unit is its own origin and no surface entry, and its chain is itself, whatever order the search takes |
| RoleSurface.ChainMayEndAtAReturnedUnit | scripts/analyze_role_assumptions.ts:189-199 | on a concrete graph a unit returned from a spawned file has nothing behind it and is no surface entry |
| RoleReport.AssembleEntry | scripts/analyze_role_assumptions.ts:276-360 | the listed roles, unresolved sites and roles not reachable are exactly those the visited units, delegations and reviews give, with examples that hold; spelled out in `RoleMeaning.RoleListedIff` and `RoleMeaning.SiteUnresolvedIff` |
| RoleReport.ReportRole | scripts/analyze_role_assumptions.ts:241-361 | an entry is the one of the least reachable set: its roles, its unresolved sites, its files and its child entries are exactly those reached; spelled out in `RoleMeaning.RoleListedIff` and `RoleMeaning.SiteUnresolvedIff` |
| RoleReport.ListedIffAssumable | scripts/analyze_role_assumptions.ts:286-333 | a role is listed exactly when some reachable non-reviewed record or delegation assumes it and its name is not inherited |
| RoleReport.UnresolvedIffAnyRole | scripts/analyze_role_assumptions.ts:279-340 | a site is unresolved exactly when it was reached, delegated or left outside the program with no bound on its roles |
| RoleReport.ChildListedIffPerformed | scripts/analyze_role_assumptions.ts:256-271 | a child entry is listed exactly for the sites of followed spawns that reached units perform |
| RoleReport.NotReachableIff | scripts/analyze_role_assumptions.ts:355-359 | a role is listed as not reachable exactly when no site may assume any role and it is a granted role of its own name that cannot be assumed |
| RoleGate.CheckRatchet | scripts/analyze_role_assumptions.ts:431-524 | a ratchet reports exactly the system roles whose count exceeds their baseline |
| RoleGate.CheckLaunched | scripts/analyze_role_assumptions.ts:472-484 | the launch check is green exactly when each launched role is in the report or named like a member of Object.prototype |
| RoleGate.CheckReachabilityInvariants | scripts/analyze_role_assumptions.ts:431-524 | the violations are exactly the faults there are; none is returned exactly when every invariant holds of the launched roles without an inherited name |
| RoleGate.NoFaultIffHolds | scripts/analyze_role_assumptions.ts:431-524 | there is no single fault exactly when grants, both role sets, the launched roles without an inherited name, narrowed roles and both baselines hold |
| RoleGate.GateDecidesGrants | scripts/analyze_role_assumptions.ts:431-524 | the grant check is green exactly when every assumable role with no inherited name is granted |
| RoleGate.GateDecidesNarrowed | scripts/analyze_role_assumptions.ts:485-501 | the narrowed check is green exactly when each narrowed role that is analysed meets no site that may assume any role and performs no followed spawn |
| RoleGate.InheritedNamePassesUngranted | scripts/analyze_role_assumptions.ts:308-310 | a concrete role named `constructor` is assumable and ungranted, yet not listed |
| RoleGate.InheritedLaunchPassesUnanalysed | scripts/analyze_role_assumptions.ts:477-478 | a launched role named `constructor` has no entry, yet nothing is at fault |
| RoleGate.FindBaselineSlack | scripts/analyze_role_assumptions.ts:549-567 | slack is exactly where the current count is below the baseline |
| RoleMeaning.EntryUnitIff | scripts/analyze_role_assumptions.ts:189-199 | a unit is an entry unit of a file exactly when an exported declaration there is or returns it, or one that runs on loading or on being the entry is it |
| RoleMeaning.ReachedIffHasReason | scripts/analyze_role_assumptions.ts:246-275 | exactly those units are reached that an entry file gives entry, a reached unit leads to, or a file spawned by a reached unit gives entry |
| RoleMeaning.RoleListedIff | scripts/analyze_role_assumptions.ts:286-333 | a role is listed exactly when its name is its own and a reached unit records it at a site that no review of the role and system role names or names up to a space, or it is delegated |
| RoleMeaning.ReviewHoldsForItsSite | scripts/analyze_role_assumptions.ts:287-305 | of one recorded role with one review elsewhere the role is unlisted exactly at the reviewed site and at what continues it after a space |
| RoleMeaning.ThreeSites | scripts/analyze_role_assumptions.ts:285-311 | the concrete role is unlisted at the reviewed site, and listed at a site of another file and at one that only starts with the same text |
| RoleMeaning.SiteUnresolvedIff | scripts/analyze_role_assumptions.ts:279-340 | a site is unresolved exactly when a reached unit has an unresolved record, edge or child there, a delegation to the system role does, or it is an entry file outside the program |
| RoleMeaning.GreenIff | scripts/analyze_role_assumptions.ts:431-524 | there is no fault exactly when every listed role is the system role itself, shared or granted, both role sets agree, launched roles are analysed, the two narrowed roles are resolved and no count exceeds its baseline |
| MirrorReplay.RegistryMoveMarkers | scripts/audit_mirror_reconcile.ts:222-243 | the markers backed by readable profiles are exactly those of consistent rename histories |
| MirrorReplay.ReplayIndexes | scripts/audit_mirror_reconcile.ts:256-285 | replaying the log leaves under each slug exactly the entries whose slug, carried through every later trusted marker, ends there |
| MirrorReplay.MasterEntriesByTenant | scripts/audit_mirror_reconcile.ts:256-285 | a mirror is listed exactly when some entry ends at its slug, and holds those entries in master order |
| MirrorReplay.IndexesAreOwned | scripts/audit_mirror_reconcile.ts:256-285 | replayed index lists are strictly increasing and equal the per-entry specification |
| MirrorReplay.MirrorsAreDisjoint | scripts/audit_mirror_reconcile.ts:256-285 | no entry is expected in two mirrors |
| MirrorReplay.RenameTakesOverExactly | scripts/audit_mirror_reconcile.ts:266-279 | after a followed rename the new slug holds exactly what the previous one held, which holds nothing |
| MirrorReplay.OnlyTrustedRenamesMoveEntries | scripts/audit_mirror_reconcile.ts:256-285 | another tenant's entry reaches a mirror only through a later trusted rename to it |
| ReplayMeaning.MarkerBacksIff | scripts/audit_mirror_reconcile.ts:222-243 | a marker id backs exactly the renames between different slugs that stand next to each other in the history of the last readable profile that recorded it |
| ReplayMeaning.TrustedIff | scripts/audit_mirror_reconcile.ts:264-277 | the entries followed as moves are exactly the first of each id that names a tenant, another previous slug and a backed rename |
| ReplayMeaning.EachEntryMovesOnly | scripts/audit_mirror_reconcile.ts:256-285 | a followed move takes an earlier entry from the previous slug to the new one and drops it from the new one; every other entry leaves it where it is |
| ReplayMeaning.ExpectedAre | scripts/audit_mirror_reconcile.ts:256-285 | a mirror is expected to hold, in log order, exactly the entries its slug owns at the end of the log |
| MirrorFiles.GroupByDate | scripts/audit_mirror_reconcile.ts:531-549 | entries are grouped by date in order, or the first undated one is refused |
| MirrorFiles.RebuildMirror | scripts/audit_mirror_reconcile.ts:531-563 | a rebuild succeeds exactly when all entries are dated, and writes one file per date |
| MirrorMeaning.ValidDateIff | scripts/audit_mirror_reconcile.ts:531-549 | ten characters are a date exactly when they are four digits, two and two with dashes between |
| MirrorFiles.LoadOfRebuilt | scripts/audit_mirror_reconcile.ts:165-183 | a rebuilt mirror loads without unreadable lines, as the read-back list |
| MirrorFiles.ReadBackIsStableSort | scripts/audit_mirror_reconcile.ts:165-183 | reading back sorts by date, keeps each date's order, and loses nothing |
| MirrorFiles.ReadsBackIffOrdered | scripts/audit_mirror_reconcile.ts:531-563 | a rebuilt mirror reads back as its entries exactly when their dates never go backwards |
| MirrorReconcile.ArchiveOnlyMembers | scripts/audit_mirror_reconcile.ts:296-367 | archive-only copies are exactly the mirror's copies without a master entry, each once |
| MirrorReconcile.CollectFindings | scripts/audit_mirror_reconcile.ts:296-367 | the findings are those of exactly the mirrors that differ from their master entries, in slug order; spelled out in `MirrorMeaning.ReportedIff` and `MirrorMeaning.FindingsSay` |
| MirrorReconcile.NothingFoundIffInSync | scripts/audit_mirror_reconcile.ts:296-367 | nothing is found exactly when no mirror differs |
| MirrorMeaning.ReadsInDateOrder | scripts/audit_mirror_reconcile.ts:165-183 | a mirror reads as the files before any one date, that date's file and the files after it, entries and unreadable lines alike |
| MirrorMeaning.ReportedIff | scripts/audit_mirror_reconcile.ts:317-325 | a mirror is reported exactly when a line is unreadable, the number of read entries is not the master's, or at some place the id or the hash differs |
| MirrorMeaning.FindingsSay | scripts/audit_mirror_reconcile.ts:326-362 | a finding names both lists of ids and hashes, rebuilds exactly when the log gives entries, has the reason that goes with that and with unreadable lines, and counts the records the log lacks, naming the first twenty in the order they come first |
| MirrorMeaning.FindingsComeBySlug | scripts/audit_mirror_reconcile.ts:365-365 | findings are in the order of their slugs |
| MirrorMeaning.RecordTooManyIsReported | scripts/audit_mirror_reconcile.ts:317-341 | a mirror with one record more than its master is out of sync, one the log gives nothing is stale, and one that holds just its entry is not reported |
| MirrorReconcile.MirrorStore.ApplyFinding | scripts/audit_mirror_reconcile.ts:638-666 | a reported mirror is archived as it was, removed, and rebuilt if asked; a failed rebuild leaves it removed and archived |
| MirrorReconcile.MirrorStore.ApplyFindings | scripts/audit_mirror_reconcile.ts:638-679 | the loop stops at the first mirror it cannot rebuild; what it did before, that mirror gone, and everything after untouched is what is left, all recoverable from the archive |
| MirrorReconcile.MirrorStore.ApplyReconciliation | scripts/audit_mirror_reconcile.ts:604-679 | collecting and applying ends well exactly when the mirrors to rebuild have dated entries only; collecting again then finds nothing exactly when their dates never go backwards, and a failed apply drops a reported mirror from the reports |
| MirrorReconcile.AppliesIffRebuiltAreDated | scripts/audit_mirror_reconcile.ts:531-679 | an apply of what was collected stops at none exactly when every mirror to rebuild has dated entries only |
| MirrorReconcile.ReportedAgainIffOutOfOrder | scripts/audit_mirror_reconcile.ts:296-367 | a mirror is reported again after an apply only when it was rebuilt from entries whose dates go backwards, and always then |
| MirrorReconcile.ConvergesIffRebuiltInOrder | scripts/audit_mirror_reconcile.ts:604-679 | collecting after an apply that ran to the end finds nothing exactly when every rebuilt mirror's dates never go backwards |
| MirrorReconcile.OrderedLogConverges | scripts/audit_mirror_reconcile.ts:604-679 | an apply that ran to the end converges whenever the master's dates never go backwards |
| MirrorReconcile.DatedLogApplies | scripts/audit_mirror_reconcile.ts:531-563 | on a dated log an apply of its findings stops at none |
| MirrorReconcile.StoppedMirrorDropsOut | scripts/audit_mirror_reconcile.ts:638-666 | the mirror an apply stopped at is gone and no longer reported; those after it are reported as before |
| MirrorReconcile.UndatedMirrorIsLost | scripts/audit_mirror_reconcile.ts:531-679 | a concrete log with an undated entry: its mirror is reported for rebuilding, and gone after the apply |
| MirrorReconcile.BackwardsPairIsReportedAgain | scripts/audit_mirror_reconcile.ts:531-563 | a mirror rebuilt from a later and then an earlier record is reported again |
| MirrorReconcile.DatesCanGoBackwards | scripts/audit_mirror_reconcile.ts:531-549 | two valid dates show that such a pair exists |
| MirrorProtocol.EveryRunKeepsInv | scripts/audit_mirror_reconcile.ts:592-700 | every interleaving of appends, drift, approvals, revocations and applies keeps the lock and record invariant |
| MirrorProtocol.RemovalsAreApprovedAndArchived | scripts/audit_mirror_reconcile.ts:477-700 | each removed mirror was archived before, under a consumed approval bound to exactly the findings recomputed under the audit lock, which report it |
| MirrorProtocol.RestorationsAreRebuilds | scripts/audit_mirror_reconcile.ts:638-664 | each restored mirror is the rebuild of what the log gave it under the lock, after its removal |
| MirrorProtocol.NoApprovalBacksTwoApplies | scripts/audit_mirror_reconcile.ts:604-633 | no approval is consumed twice |
| MirrorApply.FinishedApplyHasReconciled | scripts/audit_mirror_reconcile.ts:638-679 | in every run an apply at its end has rebuilt each drifted mirror the log gives entries, removed each other drifted one, and left the rest as it was |
| MirrorApply.FinishedApplyWasDated | scripts/audit_mirror_reconcile.ts:531-563 | in every run an apply at its end has rebuilt mirrors from dated entries only |
| MirrorApply.EffectGetsToItsEnd | scripts/audit_mirror_reconcile.ts:638-679 | left alone, an effect whose rebuilds are dated comes to its end in at most three steps a finding |
| MirrorApply.ApprovedApplyReconciles | scripts/audit_mirror_reconcile.ts:604-679 | from any world whose drifted mirrors are dated, some run of one approved apply reconciles all mirrors |
| MirrorApply.RevokedApprovalIsNeverUsed | libs/core/governance/approval-revocation.ts:278-320 | in every run an approval revoked while it is unused and unlocked is never consumed |
| MirrorApply.RecordChangesIff | libs/core/governance/approval-revocation.ts:109-142 | a record is revoked exactly when it is approved, unused, not revoked yet and unlocked; a lock bars every decision and revocation |
| MirrorApply.NoLockOutlivesItsApply | scripts/audit_mirror_reconcile.ts:618-700 | in every run a lock is held only by a process that is on its way through with it |
| Admission.Admitter.Ask | scripts/agent_runtime_supervisor_daemon.ts:996-1014 | an ask is admitted exactly when both limits have room; a refusal changes nothing |
| Admission.Admitter.Complete | scripts/agent_runtime_supervisor_daemon.ts:1046-1052 | a completion takes exactly one off the global and the agent's counter: the clamps never act |
| Admission.CountersAreExact | scripts/agent_runtime_supervisor_daemon.ts:996-1053 | over all interleavings the global counter is the sum of the agents' and the outstanding asks, each agent's is its own, and no limit is exceeded |
| Admission.BusyOnlyWhenFull | scripts/agent_runtime_supervisor_daemon.ts:999-1011 | an ask is refused exactly when a limit is full of outstanding asks |
| Admission.NothingLeaks | scripts/agent_runtime_supervisor_daemon.ts:1046-1052 | once every admitted ask has settled all counters are zero |
| DelegatedWorker.Supervisor.EnsureWorker | scripts/agent_runtime_supervisor_daemon.ts:768-790 | a running worker or a start in flight is reused, otherwise one start is recorded |
| DelegatedWorker.Supervisor.RunStartPromise | scripts/agent_runtime_supervisor_daemon.ts:780-787 | the start spawns one watched worker or throws |
| DelegatedWorker.Supervisor.ForgetStart | scripts/agent_runtime_supervisor_daemon.ts:789-794 | the recorded start is dropped when it settles |
| DelegatedWorker.Supervisor.ScheduleRestart | scripts/agent_runtime_supervisor_daemon.ts:797-836 | a restart is counted, and timed or given up, unless shutting down |
| DelegatedWorker.Supervisor.FireTimer | scripts/agent_runtime_supervisor_daemon.ts:811-813 | a timer ensures a worker unless shutting down |
| DelegatedWorker.Supervisor.ChildExit | scripts/agent_runtime_supervisor_daemon.ts:838-867 | an exit clears the count after an activation, and otherwise waits for the inbox |
| DelegatedWorker.Supervisor.AfterInspection | scripts/agent_runtime_supervisor_daemon.ts:869-892 | a pending inbox schedules a restart, an empty one clears the count; over runs in `WorkerRestarts.PendingExitIsRestarted` and `WorkerRestarts.EmptyInboxIsNotRestarted` |
| DelegatedWorker.EveryRunHasOneWorkerEach | scripts/agent_runtime_supervisor_daemon.ts:768-795 | in every reachable state each delegation has at most one live or pending worker |
| DelegatedWorker.RestartsAreBounded | scripts/agent_runtime_supervisor_daemon.ts:797-836 | between two clears at most three restarts are scheduled, after 100, 200 and 400 ms |
| DelegatedWorker.ShutdownIsQuiet | scripts/agent_runtime_supervisor_daemon.ts:797-813 | after shutdown no restart is scheduled and no timer starts a worker |
| DelegatedWorker.QuietShutdownSpawnsNothing | scripts/agent_runtime_supervisor_daemon.ts:768-813 | with no start in flight and no request, nothing spawned is logged after shutdown |
| DelegatedWorker.ShutdownMaySpawnIff | scripts/agent_runtime_supervisor_daemon.ts:768-813 | without a request, a daemon that is shutting down can still spawn exactly when a start is in flight |
| DelegatedWorker.StartInFlightOutlivesShutdown | scripts/agent_runtime_supervisor_daemon.ts:780-787 | a start in flight at shutdown still spawns |
| DelegatedWorker.RequestAfterShutdownSpawns | scripts/agent_runtime_supervisor_daemon.ts:921-945 | a request served after the shutdown began still spawns |
| DelegatedWorker.RequestAfterShutdownStartsIff | scripts/agent_runtime_supervisor_daemon.ts:768-787 | such a request starts a worker exactly when none lives and none is about to |
| WorkerRestarts.EveryRunLogsItsCounts | scripts/agent_runtime_supervisor_daemon.ts:797-836 | in every run the restart count is the number of restarts asked for in the log since the last clear |
| WorkerRestarts.PendingExitIsRestarted | scripts/agent_runtime_supervisor_daemon.ts:869-892 | in every run outside shutdown an exit with a pending inbox adds exactly one timer and one event, after 100, 200 or 400 ms, while fewer than three restarts were asked for, and is given up from then on |
| WorkerRestarts.EmptyInboxIsNotRestarted | scripts/agent_runtime_supervisor_daemon.ts:881-884 | in every run an exit with an empty inbox adds no timer and leaves the count at zero |
| WorkerRestarts.OnlyUnactivatedExitIsInspected | scripts/agent_runtime_supervisor_daemon.ts:838-867 | in every run an exit waits for the inbox exactly outside shutdown, for a known delegation never activated; an activated one clears the count and is not restarted |
| WorkerRestarts.TimerStartsWorker | scripts/agent_runtime_supervisor_daemon.ts:811-813 | in every run outside shutdown a timer records a start exactly when no worker lives and no start is recorded |
| WorkerRestarts.StartSpawnsAndIsForgotten | scripts/agent_runtime_supervisor_daemon.ts:780-794 | in every run a start spawns its worker or throws, and is forgotten either way |
| WorkerRestarts.FlagFollowsStopAndStart | scripts/agent_runtime_supervisor_daemon.ts:1246-1247 | shutting down sets the flag; starting up lowers it and forgets every count |
| WorkerRestarts.FailingWorkerIsRestartedThrice | scripts/agent_runtime_supervisor_daemon.ts:797-892 | a worker that fails every time is restarted after 100, 200 and 400 ms and given up at its fourth failure, with exactly this log |
| WorkerRestarts.FirstFailureIsRestarted | scripts/agent_runtime_supervisor_daemon.ts:869-892 | the first failure of a requested worker is followed by a restart after 100 ms |
| InflightMetric.KeyIgnoresOrder | scripts/agent_runtime_supervisor_daemon.ts:237-240 | two samples have one key exactly when they agree on the total and on every agent, in any order |
| InflightMetric.Throttle.RecordSample | scripts/agent_runtime_supervisor_daemon.ts:232-252 | a sample is emitted unless it equals the last one emitted and the interval has not passed |
| InflightMetric.LastEmissionIsCurrent | scripts/agent_runtime_supervisor_daemon.ts:232-252 | after each call the last emission is of the current sample, and equal ones in a row are ten minutes apart |
| InflightMetric.TimeoutsTakeTime | scripts/agent_runtime_supervisor_daemon.ts:232-252 | emissions beyond the first and the changes each took a full interval |
| InflightMetric.EmissionsAreBounded | scripts/agent_runtime_supervisor_daemon.ts:232-252 | emissions are at most one, plus the changes, plus the elapsed intervals |
| InflightMetric.ChangeIsEmittedAtOnce | scripts/agent_runtime_supervisor_daemon.ts:242-243 | a changed sample is never held back |
| InflightMetric.EmittedIff | scripts/agent_runtime_supervisor_daemon.ts:242-251 | over every sequence a sample is emitted exactly when it is the first, differs from the one before it, or comes ten minutes or more after the last emission |
| Framing.WriteFrame | scripts/browser_bridge_host.ts:1442-1452 | a frame is written exactly for bodies a four-byte length can count |
| Framing.HeaderReadsBack | scripts/browser_bridge_host.ts:1445-1468 | the little-endian header reads back as the length |
| Framing.HeaderIsLittleEndian | scripts/browser_bridge_host.ts:1442-1452 | the least significant byte of a length comes first |
| Framing.Host.Drain | scripts/browser_bridge_host.ts:1467-1485 | draining delivers every whole frame of the inbox in order, leaves the rest, and counts one pending response each |
| Framing.Host.Data | scripts/browser_bridge_host.ts:1487-1490 | after any chunk, what was delivered and what is left are those of all bytes received |
| Framing.Host.Settle | scripts/browser_bridge_host.ts:1480-1483 | a settled response lowers the count, which never goes negative; stdin pauses when the last one settles after the end |
| Framing.CutsDoNotMatter | scripts/browser_bridge_host.ts:1467-1490 | decoding does not depend on where the stream is cut |
| Framing.LeftoverIsShort | scripts/browser_bridge_host.ts:1467-1470 | what is left never holds a whole frame |
| Framing.RoundTrip | scripts/browser_bridge_host.ts:1442-1485 | what was encoded is what is decoded, with nothing left |
| Framing.ChunkedRoundTrip | scripts/browser_bridge_host.ts:1442-1490 | for every list of bodies and every split of their stream exactly those bodies come out in order |
| Framing.CutShort | scripts/browser_bridge_host.ts:1467-1490 | a stream cut anywhere has delivered a first part of its bodies and holds a proper prefix of the next frame |
| ChangelogLines.JoinOfSplit | scripts/assemble_changelog.ts:133-172 | splitting at newlines and joining gives the text back |
| ChangelogLines.SplitOfJoin | scripts/assemble_changelog.ts:133-172 | joining lines and splitting gives the lines back |
| ChangelogLines.ExactHeadingRank | scripts/assemble_changelog.ts:114-117 | a line that is a category's heading up to trailing space has that category's rank |
| Changelog.Find | scripts/assemble_changelog.ts:107-143 | the index found fits and none before it does |
| Changelog.CutForIsInside | scripts/assemble_changelog.ts:139-169 | whatever case applies, the cut lies inside the section after its heading and drops blank lines only |
| Changelog.InsertCategory | scripts/assemble_changelog.ts:138-169 | a category's bodies replace the cut of its heading or of the place for a new one |
| Changelog.AssembleChangelog | scripts/assemble_changelog.ts:126-173 | the merge fails exactly when there are fragments and no section, and else folds the categories by rank over the fragments in name order |
| ChangelogKept.FrameIsKept | scripts/assemble_changelog.ts:107-173 | every line up to the section heading and from the section end on is kept verbatim |
| ChangelogKept.LinesAreConserved | scripts/assemble_changelog.ts:126-173 | old non-blank lines stay in order, and the new ones are exactly the bodies and the missing headings, as multisets |
| ChangelogKept.HeadingsComeOnlyFromTheirCategory | scripts/assemble_changelog.ts:135-170 | a category's heading appears only when that category is merged |
| ChangelogPlacement.MergeKeepsRun | scripts/assemble_changelog.ts:141-169 | lines under one heading stay in one piece there whatever is merged for another category |
| ChangelogPlacement.BodiesArePlaced | scripts/assemble_changelog.ts:119-170 | each category's bodies end up right under the section's first heading of that category, the old one if there was one |
| ChangelogPlacement.OlderEntriesStayBelow | scripts/assemble_changelog.ts:144-153 | a heading's older entries stay in one piece, directly below its new bodies |
| ChangelogOrder.RankOrderIsKept | scripts/assemble_changelog.ts:155-169 | category headings in rank order stay in rank order |
| ChangelogOrder.EntriesAreInNameOrder | scripts/assemble_changelog.ts:130-137 | a category's bodies come from exactly its fragments, by file name |
| ChangelogOrder.ListingOrderDoesNotMatter | scripts/assemble_changelog.ts:119-132 | with distinct names the result does not depend on listing order |
| ChangelogOrder.TextIsItsLines | scripts/assemble_changelog.ts:133-172 | the merged text splits into exactly the merged lines |
| ChangelogMatter.FenceFrom | scripts/assemble_changelog.ts:55-75 | the closing fence is the first one |
| ChangelogMatter.RenderedReadsBack | scripts/assemble_changelog.ts:55-75 | front matter written with a category reads back as its line, with the body behind it |
| ChangelogFragments.ReadFields | scripts/assemble_changelog.ts:76-85 | the fields are those of the readable lines, the last value of each winning, listed as they first appear; unreadable lines are reported in order |
| ChangelogFragments.ParseChangelogFragment | scripts/assemble_changelog.ts:64-105 | a fragment is read, or everything wrong with it is reported in order |
| ChangelogFragments.NoErrorsIffAccepted | scripts/assemble_changelog.ts:64-105 | nothing is wrong exactly when name, front matter, fields, category and body are all fine |
| ChangelogFragments.WrittenFragmentIsAccepted | scripts/assemble_changelog.ts:64-105 | a fragment written with a name, a category and a good body is accepted as just that |
| ChangelogFragments.HeadinglessBodyHasNoHeadings | scripts/assemble_changelog.ts:100-102 | a body in which the multi-line pattern finds no heading has no heading line |
| ChangelogFragments.AcceptedBodyIsGood | scripts/assemble_changelog.ts:95-102 | an accepted body starts with a list item, ends in a line that is not blank and has no heading |
| FragmentMeaning.FragmentNameIff | scripts/assemble_changelog.ts:69-71 | a name ending in `.md` is a fragment's exactly when 1 to 80 lower-case letters, digits and dashes, no dash first, stand before that |
| FragmentMeaning.IgnoredIff | scripts/assemble_changelog.ts:77-78 | a front-matter line says nothing exactly when it is blank or its first visible character is a hash |
| FragmentMeaning.FieldIff | scripts/assemble_changelog.ts:79-84 | any other line is a field exactly when a key of lower-case letters and underscores stands before a colon and its value is of one line; it is unreadable otherwise |
| FragmentMeaning.QuotesComeOff | scripts/assemble_changelog.ts:84-84 | a quote at either end of a value comes off, matching or not, and nothing else does |
| FragmentMeaning.CategoryFieldIs | scripts/assemble_changelog.ts:89-89 | the category is the value of the last field of that key |
| FragmentMeaning.ReturnsDoNotMatter | scripts/assemble_changelog.ts:73-77 | a fragment written with carriage returns before its line breaks reads like one without |
| FragmentMeaning.BodyIs | scripts/assemble_changelog.ts:95-95 | the body loses the blank lines before it and the white space behind it, and keeps the indent of its first line |
| FragmentMeaning.HasHeadingsIff | scripts/assemble_changelog.ts:100-102 | a body has a heading exactly when one to six hashes and white space stand where a line starts |
| ChangelogFragments.MergedFile | scripts/assemble_changelog.ts:119-173 | merging accepted fragments keeps the frame and all lines, places every category's bodies in name order and keeps rank order, read off the text itself |
| ChangelogMeaning.SectionHeadings | scripts/assemble_changelog.ts:107-112 | two hashes and a space or tab start a section, whatever follows; a third hash, or no white space, does not |
| ChangelogMeaning.UnreleasedHeadings | scripts/assemble_changelog.ts:108-108 | the unreleased heading may leave out the space but not change a letter |
| ChangelogMeaning.UnreleasedIff | scripts/assemble_changelog.ts:108-108 | a line is the unreleased heading exactly when it is two hashes, any white space and the name in brackets, whatever follows |
| ChangelogMeaning.ExactHeadingIff | scripts/assemble_changelog.ts:138-140 | a line is a category's exact heading exactly when only white space follows the three hashes, the space and the name |
| ChangelogMeaning.RankIsOfItsName | scripts/assemble_changelog.ts:114-117 | a heading has its category's rank with any white space around the name |
| ChangelogMeaning.GoesUnderHeading | scripts/assemble_changelog.ts:138-151 | bodies go right under the section's first heading of their category in place of the blank lines there, with an empty line above, and one below unless a list item follows |
| ChangelogMeaning.GoesUnderNewHeading | scripts/assemble_changelog.ts:153-169 | a category without a heading gets one before the first later-ranked heading, or behind the last line of the section that is not blank, set off by empty lines |
| ChangelogMeaning.ReleasedTextIsKept | scripts/assemble_changelog.ts:107-112 | the merged text ends, to the letter, with everything from any line behind the unreleased heading that starts with two hashes and a space |
| WeekKey.YearLength | scripts/backup.ts:681-686 | the calendar formula gives every year its Gregorian length |
| WeekKey.SameKeyIffSameWeek | scripts/backup.ts:681-686 | two times share a key exactly when they fall in the same UTC year and Sunday-to-Saturday week |
| WeekKey.WeekNumbers | scripts/backup.ts:681-686 | weeks are numbered 1 to 54 exactly in the years that are not read as another one, and 54 is the last day of a leap year that starts on a Saturday |
| WeekKey.KeysFollowTime | scripts/backup.ts:681-686 | keys never go back in time |
| WeekKey.HasKeyIff | scripts/backup.ts:681-686 | a time has a key of its own exactly within what a date can hold |
| WeekKey.KeysAroundTheEpoch | scripts/backup.ts:681-686 | the keys of concrete times around the epoch: weeks start on Sunday, years at midnight UTC, and parts of a millisecond are cut towards zero |
| BackupPrune.ArchiveNames | scripts/backup.ts:665-668 | compressed archives, encrypted or not, count; an archive written in part does not |
| BackupPrune.EntriesAreTheArchives | scripts/backup.ts:666-679 | the listing gives exactly the archives, each once, newest first |
| BackupPrune.KeepWeekly | scripts/backup.ts:701-708 | the keep set becomes the newest daily ones and the first of each of the latest weeks |
| BackupPrune.BackupDir.PruneBackups | scripts/backup.ts:688-721 | bad retention is refused and changes nothing; else kept and deleted are returned in order and the deleted files are gone |
| BackupRetention.PruneDividesArchives | scripts/backup.ts:710-720 | each archive is kept or deleted and never both, and other files are left alone |
| BackupRetention.StaysIffKept | scripts/backup.ts:697-716 | an archive stays exactly when the two loops keep it |
| BackupRetention.WeeksMetAreTheLaterOnes | scripts/backup.ts:701-708 | the weeks met before the newest archive of a week are exactly the later weeks there are |
| BackupRetention.PromisedArchivesStay | scripts/backup.ts:697-708 | an archive stays exactly when it is one of the newest daily ones, or the newest of its week with archives of fewer than `weekly` later weeks |
| BackupRetention.KeptAreBounded | scripts/backup.ts:688-721 | at most daily plus weekly archives are kept, and no fewer than the newest daily there are |
| BackupRetention.SecondPruneDeletesNothing | scripts/backup.ts:688-721 | pruning again deletes nothing, however ties are listed, with the same or more retention |
| BackupScope.NamespaceAcceptedIff | scripts/backup.ts:1074-1103 | a namespace below a registered root is accepted exactly at depth 0, at depth 1 under a mesh hub, or in the tenant's runtime partition |
| BackupScope.TenantsAreApartIff | scripts/backup.ts:1074-1103 | with partitions that lie in no other tenant's allowed entries, two tenants share an accepted entry exactly when one is called `tenants` or `customers` |
| BackupScope.NamespaceNamesAreSlugs | libs/core/foundation/scope.ts:6-14 | both names are valid slugs |
| BackupPlan.Planner.AddTenantMatches | scripts/backup.ts:278-298 | exactly the tenant's existing directories in each tier are added; a base that is there but cannot be listed throws |
| BackupPlan.Planner.AddPhysicalTenantNamespaceMatches | scripts/backup.ts:305-349 | the walk adds exactly the existing namespaces reached through plain, unskipped directories within the depth limit, stopping at `tenants` |
| BackupPlan.Planner.ResolveTenantEntries | scripts/backup.ts:435-478 | the plan holds exactly the tier, fixed and walked entries and the given partitions, and throws exactly when projects or missions cannot be listed |
| BackupPlan.FindsByChildren | scripts/backup.ts:305-349 | what a walk finds is what it finds through its children |
| PlanMeaning.NamespaceFoundIff | scripts/backup.ts:305-349 | a walk finds exactly the present tenant directories behind a plain `tenants` directory at most six plain, listable directories below the root, none of them skipped |
| PlanMeaning.PlannedIff | scripts/backup.ts:435-478 | the plan holds exactly the given partitions, what is there of the tenant's projects and missions of each tier directory and of its eight directories, and what the walks find |
| MissionRepos.Collector.CollectMissionGitRepos | scripts/backup.ts:351-377 | the walk collects exactly the first repositories on each path within the depth limit, and throws exactly when it comes to a directory it cannot list |
| MissionRepos.ThrowsByChildren | scripts/backup.ts:351-377 | a walk throws where it cannot list, or where a child's walk does |
| MissionRepos.Collector.ResolveMissionGitRepos | scripts/backup.ts:379-403 | repositories are collected below mission entries and below every mission root that exists, unless one of these walks throws |
| PlanMeaning.RepoFoundIff | scripts/backup.ts:351-377 | a walk finds exactly the repositories at most five directories below it that lie in no other repository, in `.git` or in `node_modules` |
| PlanMeaning.RepoRootIff | scripts/backup.ts:385-401 | repositories are looked for below each entry that is a mission root or goes through `missions`, and below each mission root that is there |
| BackupRestore.ValidateArchiveManifestScope | scripts/backup.ts:1105-1183 | an archive passes exactly when repositories, bundles, tenant, entries, partitions and members all keep to the scope; and reports the first fault; spelled out in `RestoreMeaning.MayRestoreIff` |
| RestoreMeaning.MayRestoreIff | scripts/backup.ts:1105-1183 | any manifest passes exactly when its repositories and bundles are where they belong, the request fits its scope, a tenant archive lists what is its tenant's, and every member equals, lies below or lies above an entry, the manifest or a bundle |
| RestoreMeaning.MemberApartIsRefused | scripts/backup.ts:1178-1182 | an archive with a member apart from all of these is refused |
| RestoreMeaning.OtherTenantIsRefused | scripts/backup.ts:1147-1161 | an archive of one tenant asked for as another's, or not as a tenant's, is refused |
| RestoreMeaning.OtherScopeIsRefused | scripts/backup.ts:1174-1176 | an archive of another scope is refused unless everything or just that scope is asked for |
| RestoreMeaning.OneErrorFits | scripts/backup.ts:1105-1183 | the error reported is the only one that fits: the repositories' first fault, else the scope's or the tenant's, else a member's |
| RestoreMeaning.OneTenantRestores | scripts/backup.ts:1105-1183 | an archive of one customer directory gives its tenant a file in it, and nobody a file from a vault or from a directory whose name only starts the same |
| RestoreMeaning.OwnDirectoriesAreAccepted | scripts/backup.ts:1074-1085 | the tenant's own eight directories and everything below them are its entries |
| RestoreMeaning.OwnProjectsAreAccepted | scripts/backup.ts:1087-1090 | the tenant's projects and missions of every named tier are its entries |
| RestoreMeaning.NamelessTierIsRefused | scripts/backup.ts:1087-1090 | an entry of a tier without a name is nobody's |
| BackupRestore.PlanIsAcceptedIff | scripts/backup.ts:1074-1103 | all planned entries are accepted exactly when no walked namespace is nested too deep; fixed roots and tiers always are |
| BackupRestore.MissionRepoAcceptedIff | scripts/backup.ts:1120-1128 | of the repositories below the mission roots exactly the tenant's own active ones are accepted, and personal ones for a tenant called `missions` |
| BackupRoundTrip.AcceptedGoesDown | scripts/backup.ts:1074-1103 | what lies below an accepted entry is accepted |
| BackupRoundTrip.PlannedIsSafe | scripts/backup.ts:435-478 | every planned entry is a path the validator takes for safe |
| BackupRoundTrip.ReposAreAcceptedIff | scripts/backup.ts:379-403 | once the entries are accepted, the collected repositories are exactly when those below the mission roots are the tenant's |
| BackupRoundTrip.PlannedArchiveMayBeRestoredIff | scripts/backup.ts:1105-1183 | the planner's archive of a tenant passes the validator exactly when, on the disk, no namespace is nested too deep and every repository below the mission roots is the tenant's |
| BackupRoundTrip.ArchiveExists | scripts/backup.ts:728-766 | every disk whose plan does not throw has an archive of the whole plan |
| BackupRoundTrip.NestedNamespaceIsRefused | scripts/backup.ts:305-349 | a disk with one nested namespace has an archive that may not be restored |
| BackupRoundTrip.ForeignRepoIsRefused | scripts/backup.ts:395-401 | a disk with another tenant's mission repository has an archive, listing that repository, that may not be restored |
| BuildStage.StageRun.CancelStage | scripts/build_repository.ts:131-136 | only the first cancellation signals and arms the escalation |
| BuildStage.StageRun.CleanUp | scripts/build_repository.ts:139-146 | the first cleanup removes handlers and timers |
| BuildStage.StageRun.OnSignal | scripts/build_repository.ts:137-138 | a registered signal cancels with itself |
| BuildStage.StageRun.OnTimeout | scripts/build_repository.ts:164-164 | the twenty-minute timer cancels with SIGTERM |
| BuildStage.StageRun.OnEscalation | scripts/build_repository.ts:135-135 | the escalation timer sends SIGKILL |
| BuildStage.StageRun.OnData | scripts/build_repository.ts:147-154 | output is cut, counted in full and logged if not blank |
| BuildStage.StageRun.OnError | scripts/build_repository.ts:167-173 | an error cancels a running child and rejects a spawn without a process |
| BuildStage.StageRun.OnClose | scripts/build_repository.ts:174-180 | a close cleans up and settles by cancellation, then by exit code; over event orders in `StageOutcome.FirstCloseDecides` |
| BuildStage.EveryRunIsCleanIffSettled | scripts/build_repository.ts:116-186 | over every event order a stage is settled exactly when it is cleaned, and then has no handler and no timeout |
| BuildStage.SettlesOnceAndOnlyAtTheEnd | scripts/build_repository.ts:167-184 | only a close or a spawn without a process settles, with the right outcome and nothing left armed |
| BuildStage.OutcomeIsFinal | scripts/build_repository.ts:116-186 | no later event changes the outcome |
| BuildStage.AtMostOneSignalAndOneKill | scripts/build_repository.ts:123-136 | at most one first signal and one SIGKILL are ever sent |
| BuildStage.OutputStaysBounded | scripts/build_repository.ts:147-154 | logged text stays within 30 MiB of characters |
| BuildStage.SettledStageIsQuietIff | scripts/build_repository.ts:131-173 | a settled stage stays quiet exactly unless its child, with a process and uncancelled, emits its first error then |
| BuildStage.LateErrorSignalsAfterSuccess | scripts/build_repository.ts:167-180 | a concrete order signals twice after a successful build |
| StageOutcome.PendingUntilTheEnd | scripts/build_repository.ts:167-184 | over every event order a stage is pending exactly until its child first closes or errs without a process |
| StageOutcome.FirstCloseDecides | scripts/build_repository.ts:174-180 | over every event order the first close decides: cancelled with the reason of the first cancelling event before it, else resolved for code 0, else failed with exactly that code |
| StageOutcome.ResolvesIff | scripts/build_repository.ts:174-180 | a stage resolves exactly when its first close has code 0 and nothing cancelled it before |
| StageOutcome.FailedSpawn | scripts/build_repository.ts:167-173 | an error of a child without a process rejects the stage, whatever was cancelled |
| StageOutcome.ExitOneFails | scripts/build_repository.ts:174-180 | a stage whose child closes with code 1 has failed with it, whatever comes after |
| StageOutcome.CancelledChildIsSignalled | scripts/build_repository.ts:131-138 | a cancelled stage has sent SIGINT for an interrupt and SIGTERM otherwise, and SIGKILL has followed or its timer is pending |
| StageOutcome.ShortOutputIsLogged | scripts/build_repository.ts:147-154 | text of up to 8192 characters without white space at its ends is logged as it is, within 30 MiB |
| StageOutcome.ExcessIsNotLogged | scripts/build_repository.ts:147-154 | nothing is logged past 30 MiB, and blank text never is |
| BuildReceipt.Builder.RunStages | scripts/build_repository.ts:288-294 | stages run in order up to the first that fails, whose message is the error |
| BuildReceipt.Builder.BuildRepository | scripts/build_repository.ts:282-365 | a build that enters adds one attempt, replaces the receipt exactly when it is good, and fails with the lock's, a stage's or a post-build stage's error |
| BuildReceipt.AttemptTellsTheTruth | scripts/build_repository.ts:295-362 | an attempt passed exactly when its stages did, and restored exactly when readiness held too and no input change was observed |
| BuildReceipt.OneAttemptEach | scripts/build_repository.ts:282-365 | over any sequence of builds each that entered left exactly one attempt, in order |
| BuildReceipt.ReceiptIsOfTheLastGood | scripts/build_repository.ts:308-356 | the receipt is always that of the last build whose stages, readiness, inputs and publication were all good |
| ReceiptMeaning.RunsToTheFirstFailure | scripts/build_repository.ts:288-294 | the stages run are a first part of the stages, none but the last of which fails, with its message as the error |
| ReceiptMeaning.ReceiptIsReplacedIff | scripts/build_repository.ts:308-356 | a build replaces the receipt exactly when it passed, was ready, saw the same inputs before and after and published, and then by its id, mode and inputs |
| ReceiptMeaning.AttemptSays | scripts/build_repository.ts:295-362 | each build that enters adds one attempt that says whether it passed, whether it restored, and exactly why not |
| DependencyManifest.DirectIff | scripts/apply_dependency_patch.ts:140-173 | a plan is direct exactly for packages declared with some spec, or with an inherited name a section lacks |
| DependencyManifest.InheritedNameIsDirect | scripts/apply_dependency_patch.ts:145-149 | an undeclared package called `constructor` is planned as direct |
| DependencyManifest.DirectKeepsTheOperator | scripts/apply_dependency_patch.ts:140-152 | the new spec is the version behind the old range operator, runtime dependencies first |
| DependencyManifest.PatchChangesOnlyTheTarget | scripts/apply_dependency_patch.ts:175-184 | applying a plan sets the target's spec and changes nothing else |
| DependencyPatch.Workspace.RunGates | scripts/apply_dependency_patch.ts:291-307 | gates and rescan run in order up to the first that throws or fails |
| DependencyPatch.Workspace.RollBack | scripts/apply_dependency_patch.ts:267-289 | the original text is written, then the reinstall runs and is recorded |
| DependencyPatch.Workspace.ApplyDependencyPatch | scripts/apply_dependency_patch.ts:204-332 | the manifest, the ledger and the result are those of the transaction, for every runner |
| DependencyPatch.OneRecordPerReturn | scripts/apply_dependency_patch.ts:204-332 | each call that returns leaves one record, of what it returned; one that throws leaves none |
| DependencyPatch.GatesAreAPassingPrefix | scripts/apply_dependency_patch.ts:291-307 | reported gates are the ones asked for, all passed save perhaps the last, which failed exactly when rolled back |
| DependencyPatch.PatchedIffAllPass | scripts/apply_dependency_patch.ts:291-331 | a patch is confirmed exactly when it applies and every gate and the rescan pass |
| DependencyPatch.RescanPassesIff | scripts/apply_dependency_patch.ts:190-202 | the rescan passes exactly when it prints nothing, no list, or a list without the package |
| DependencyPatch.SilentRescanConfirms | scripts/apply_dependency_patch.ts:301-307 | a rescan that exits with 1 and prints nothing confirms the patch |
| DependencyPatch.RollbackRestoresIff | scripts/apply_dependency_patch.ts:267-269 | after a rollback the manifest is the original exactly when the reinstall leaves it so, whatever the gates wrote |
| DependencyPatch.RollbackMayNotRestore | scripts/apply_dependency_patch.ts:267-269 | a reinstall that writes the manifest leaves it changed after a reported rollback |
| DependencyPatch.UnappliedLeavesTheManifest | scripts/apply_dependency_patch.ts:221-250 | what is refused, only proposed or unreadable is not touched |
| DependencyPatch.LeftHalfwayIff | scripts/apply_dependency_patch.ts:252-331 | the manifest is neither the one found nor a confirmed patch exactly when the first bad command throws and leaves another text, or the reinstall of a rollback writes one |
| DependencyPatch.ThrowLeavesTheBump | scripts/apply_dependency_patch.ts:261-307 | a gate or rescan that throws leaves the bumped manifest and no record, if commands leave the manifest alone |
| DependencyPatch.PatchedManifestDiffersOnlyAtTarget | scripts/apply_dependency_patch.ts:261-264 | if commands leave it alone, a patched manifest parses to the old one but for the target package |
| PatchMeaning.UndeclaredIsPlannedIff | scripts/apply_dependency_patch.ts:161-172 | a package the manifest does not have is planned exactly with `--override`, pinned to the version asked for |
| PatchMeaning.DeclaredIsPlanned | scripts/apply_dependency_patch.ts:145-165 | a package the manifest has is planned in its section, runtime dependencies first, whatever the options say |
| PatchMeaning.RefusedIff | scripts/apply_dependency_patch.ts:210-231 | a call is refused exactly for a readable manifest without the package and without `--override`, and touches nothing then |
| PatchMeaning.UnappliedIsProposed | scripts/apply_dependency_patch.ts:236-250 | without `--apply` what may be patched is only proposed |
| PatchMeaning.WellAnsweredIsPatched | scripts/apply_dependency_patch.ts:291-331 | a patch that applies is confirmed, with the text found as its backup, when every gate ends with 0 and the rescan is clean |
| PatchMeaning.BadAnswerIsRolledBack | scripts/apply_dependency_patch.ts:267-307 | the first command that answers badly is followed by the rollback, whose record has the reinstall's status |
| PatchMeaning.ThrowEndsTheCall | scripts/apply_dependency_patch.ts:261-307 | a command or reinstall that throws ends the call with its error and no record |

## Left out

- The analyzer behind the role graph: units, edges, role and spawn records and entry units are arbitrary finite inputs.
- The report's site and reason maps, its formatting, the list of reviewed findings and the printed baselines: they only regroup or print what the entries hold.
- Launched roles are taken as an extracted set, and child targets are kept as sets, so their sort order is not modelled.
- A system role called `__proto__`: a plain object would not hold it as a key, and the report's map does.
- File systems, tar, openssl, git, pnpm, sockets and regular-expression engines: maps, sets, predicates and replies of an arbitrary runner stand for them.
- SHA-256, JSON text and the approval payload hash are taken to be injective, and an audit entry's JSON keeps its id and hash.
- MirrorReconcile.ConvergesIffRebuiltInOrder: that a mirror out of order is found again takes entries with one id and hash to be one entry, because the hash covers the entry; that one in order is not found again needs nothing.
- BackupRetention.PromisedArchivesStay: takes archives whose time a date can hold; all others share one key, and StaysIffKept covers them.
- The approval store and the two locks: consuming runs under the record lock at most once per approval, and audit writers change log and mirrors only while they hold the audit lock.
- The runtime registry is taken to report a worker as running exactly while its process lives.
- Start-up locking of the daemon and its dot sweep: no claim is made about them.
- Strings are sequences of Unicode code points; JavaScript sorts by UTF-16 unit, which differs only beyond the basic plane. `localeCompare` on the fixed-shape file names is code-point order.
- Repository paths are sequences of segments, so slashes inside a segment and the trimming of `./` and trailing slashes are not modelled.
- The runtime partitions of a tenant are an input of the plan, with the lookup that recognises them, of which only this is used: what lies below a partition lies in it. Scopes other than the tenant's are only modelled in the validator.
- BackupScope.TenantsAreApartIff: takes partitions that lie in no entry the allowlist gives another tenant, which is for the runtime layout to keep.
- `resolveBuildCommand`, the governed-execution check before a stage and a signal registration that throws after the spawn are not modelled.
- The recovery record, the ledger append and the file writes of a patch are taken to succeed, and the lockfile is not modelled.
- Command lines, plugins, migrations, demos and report printing: they parse arguments and print.
