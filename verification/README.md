# Verification of the provisioning and monitoring scripts

This Dafny project models the scripts of the repository that keep state, loop and branch, and proves
what they promise over all inputs, all interruptions and all histories.

* **pipework** (`Network`, `Pipework`, `Attach*`, `DummyRuns`, `LinkNames`, `PipeworkArgs`). The machine's
  links are a table from (namespace, name) to link, with the kernel's rules for veth pairs, bridges,
  renaming and moving between namespaces. A run is a plan of commands under `set -e`; it may be cut off
  after any statement. The class `Machine` is the script; the plan is its specification.
* **hadoop-daemon.sh** (`LogRotation`): the descending rotation loop, the start branch, and histories of
  starts.
* **check_backuppc** (`BackupPC`): the sorting loop over four lists and the exit status.
* **check_io.py** (`DiskIo`): sampling into per-device objects, wraparound, thresholds and the fold.
* **check_zookeeper.py** (`ZooKeeper`): the line parser and the two-directional classifier.
* **Hadoop role manifests** (`Catalog`, `CatalogRoles`): guarded declarations into one shared catalog.
* **azkaban_cli_td** (`AzkabanCli`): project resolution and the upload retry loops.

A method is proved against a function of its inputs; beside each such function a lemma says, in the
script's own fields and numbers and without calling it, what it computes (`RefusedExactlyWhen`,
`CompletedLeaves`, `AloneIsRun`, `ExitStatusMeans`, `StatusMeans`, `ExitCodeMeans`, `ResourcesExactly` and
so on).

`dafny verify dfyconfig.toml` checks everything.

## Where the code does not do what one would expect

The model follows the code. Each of these is proved, together with exactly which inputs are affected.

* pipework repairs an interrupted run exactly unless it stopped right after creating a new bridge, or
  between raising the host end and the last statement. In the first case the bridge stays down for good, in
  the second every later run takes the attachment for finished (`AttachHistory.RepairedExactlyWhen`,
  `BridgeStaysDown`, `StuckRun`; both happen on an empty table, `DamageHappens`).
* pipework runs for different containers, started at the same time, may fail each other although each alone
  would complete: if two of them find the same bridge missing, or if two leftover host ends are the two ends
  of one pair, the slower one fails. These are the only cases (`AttachRaces.NeverFailsExactlyWhen`); both
  happen (`NewBridgeRace`, `LeftoverRace`). If all complete, the table is that of the runs one after the
  other (`InterleavingIsSequential`).
* Running all of them again repairs whatever interleaving, failure and interruption did, exactly unless one
  stopped right after creating its bridge or between raising its host end and its last statement
  (`AttachRecovery.RunningAgainRepairsExactlyWhen`).
* pipework does not create a missing bridge whose name does not begin with `br`: the call of
  `es/manifests/docker.pp:117` is refused unless `extbr0` exists (`AttachRuns.RefusedExactlyWhen`,
  `AttachHistory.UnknownBridgeRefused`).
* pipework's dummy mode is not repeatable: the second run strands a link in the container, the third one
  on the host, and all later ones fail. In a container that shares the host's namespace the second run
  strands one link on the host, and all later ones fail (`DummyRuns.RepeatingStrands`, for every completed
  run).
* A guest called `-i`, `-l` or `-a` is taken for a flag, depending on which flags were given
  (`PipeworkArgs.ArgumentsRoundTrip`; `GuestNamedLikeFlag`). A container interface whose name starts with a
  digit shares its macvlan and dummy name with an interface of some other process id, exactly unless both
  its name and its own process id have a single character (`LinkNames.DigitNameCollides`; `DigitNamesClash`).
* check_io.py undoes a wraparound correctly only for counters that wrap at `sys.maxsize`; for any other
  modulus it is off by the difference (`DiskIo.WraparoundUndone`; `NarrowCounterMisread`). Its message asks
  for an averaging period a second below the timeout; the code accepts one equal to it (`DiskIo.Validate`).
* check_zookeeper.py with equal thresholds never alerts (`ZooKeeper.SilentExactlyWhenEqual`).
* check_backuppc matches the host's name as a pattern against the desired names, the other way round than
  its check for unknown hosts. It reports OK whatever the hosts' states are exactly when that selects no
  host (`BackupPC.AlwaysOkExactlyWhen`): asked for `db` on a server with the host `db1`, it checks nothing
  and says OK (`ShortNameChecksNothing`).
* check_backuppc's connectivity exemption subtracts the start time from the last good backup time. It agrees
  with the opposite order, which the help text describes, exactly while the two are at most a full period
  apart in either direction (`BackupPC.ExemptionAgreesExactlyWhen`). With a last good backup no later than
  the start, every connectivity failure is exempt, however old (`UnreachableIsGood`; for instance
  `LongUnreachableExempt`).
* Two roles may be included in either order exactly when they agree on every title that both declare and the
  host does not have yet (`CatalogRoles.RoleOrderMattersExactlyWhen`). dfsslave and nodemanager mount the
  same directories with different owners (`configuration/hieradata/modules/hadoop.yaml:215-219` and
  `:287-292`), so on a fresh host their order shows (`DatanodeNodemanagerOrderMatters`).

## Environment assumptions

* The kernel: deleting one veth end deletes its peer; deleting a bridge frees its ports; names are unique
  per namespace and one to fifteen characters long; a moved link goes down, leaves its bridge
  and loses its addresses. A command that fails changes nothing. The container's process id and namespace are inputs.
* The shell starts with a clean environment: variables the script never initialises are empty.
* Nagios plugins: the time, the answers of the servers, the snapshots and the regular-expression matcher are
  inputs. Percentages are exact rationals.
* Puppet: including a class twice evaluates it once; declaring a title twice, or an attribute both
  explicitly and through a splatted hash, aborts the compilation.
* Azkaban: uploading to a missing project and creating an existing one are rejected, an upload never
  creates a project, and any request may fail for other reasons. Loading a module either gives its projects
  or an import error, the same each time.

## Model

| member | source | states |
|---|---|---|
| LinkNames.LocalNameInjective | es/files/pipework:296-298 | host-end names are equal exactly for the same interface and pid |
| LinkNames.GuestNameInjective | es/files/pipework:299 | guest-end names are equal exactly for the same interface and pid |
| LinkNames.LocalNeverGuest | es/files/pipework:297-299 | no host-end name of any container is a guest-end name of another |
| LinkNames.PhysDummyNames | es/files/pipework:344-372 | macvlan (and dummy) names collide exactly when digits shift between pid and interface; the two families are disjoint |
| LinkNames.PhysNameInjective | es/files/pipework:344-372 | without a leading digit in the interface name, macvlan and dummy names are injective |
| LinkNames.DigitNamesClash | es/files/pipework:344 | two different containers whose macvlan and dummy names are equal |
| LinkNames.DigitNameCollides | es/files/pipework:344 | an interface name with a leading digit shares its generated name with another container's non-empty interface and pid exactly when it or the pid is longer than one character |
| Network.CommandKeepsWellFormed | es/files/pipework:282-443 | every accepted link command keeps peers mutual and masters bridges of the same namespace |
| Network.ExecResume | es/files/pipework:4 | under `set -e` an interrupted plan equals its executed prefix, and finishing the rest from there equals the uninterrupted plan |
| Pipework.Machine.Attach | es/files/pipework:156-329 | the script, interrupted anywhere, does exactly what the plan computed from the initial table says |
| Pipework.Machine.AttachHostEnd | es/files/pipework:310-328 | creating, enslaving and raising the host end, in this order, stopping at the first failure |
| Pipework.Machine.AttachGuestEnd | es/files/pipework:389-443 | moving, renaming and configuring the guest end, in this order, stopping at the first failure |
| Pipework.Machine.AttachDummy | es/files/pipework:371-374 | the dummy-mode statements, in order, stopping at the first failure |
| AttachStages.BuildReaches | es/files/pipework:310-443 | interrupted anywhere, pair construction leaves the explicit table of the stage it reached |
| AttachStages.BuildCompletes | es/files/pipework:310-443 | construction completes exactly when every needed name is valid and free and the bridge is there |
| AttachStages.StageStep | es/files/pipework:310-443 | one statement takes each explicit stage table to the next |
| AttachRuns.RunReaches | es/files/pipework:281-443 | a whole run leaves exactly the table of the statement it reached |
| AttachRuns.RunLeavesOthers | es/files/pipework:295-328 | wherever interrupted, a run leaves every link it does not delete untouched and adds nothing outside its own names |
| AttachRuns.RunKeepsWellFormed | es/files/pipework:281-443 | every run, complete or not, keeps the link table well formed |
| AttachRuns.FullRunCompletes | es/files/pipework:281-443 | a run completes exactly under the stated conditions, and then the resulting table is known exactly |
| AttachRuns.RefusedExactlyWhen | es/files/pipework:96-158 | a run is refused, changing nothing, exactly with a VLAN, a link that is no bridge, or a missing one whose name does not begin with `br` |
| AttachRuns.AlreadyUpExactlyWhen | es/files/pipework:301-306 | a run ends early, changing nothing, exactly when its host end is up |
| AttachRuns.CompletedLeaves | es/files/pipework:281-443 | the records of both ends, the bridge and the freed name after a completed run |
| AttachHistory.RerunAfterCompletion | es/files/pipework:301-306 | a second run after a completed one exits with every link unchanged |
| AttachHistory.NextRunRepairs | es/files/pipework:301-310 | a run interrupted before the host end is up is repaired: the next run ends exactly as an uninterrupted one |
| AttachHistory.RepairedExactlyWhen | es/files/pipework:282-328 | by the number of statements executed, exactly which interruptions the next run repairs |
| AttachHistory.ReachedMeans | es/files/pipework:282-328 | which statement was reached decides whether the bridge is left down, the host end is up and the run was complete |
| AttachHistory.DamageHappens | es/files/pipework:282-328 | on an empty table, cuts after one and after five statements are never repaired |
| AttachHistory.UnknownBridgeRefused | es/manifests/docker.pp:117 | a call for a missing `extbr0` is refused |
| AttachHistory.BridgeStaysDown | es/files/pipework:282-286 | a bridge created but not raised is never raised by later runs |
| AttachHistory.StuckRun | es/files/pipework:301-306 | a run interrupted with the host end up is taken for complete ever after |
| AttachHistory.RunKeepsPair | es/files/pipework:295-328 | one run for another interface and pid, or in dummy mode, keeps a pair, its flags, peer relation and bridge |
| AttachHistory.HistoryKeepsPair | es/files/pipework:295-328 | any history of interrupted or complete runs for others, and of dummy-mode runs, keeps a pair exactly as it was |
| AttachHistory.AttachedStaysAttached | es/files/pipework:281-443 | a completed attachment survives every later history of runs for others, and its own rerun changes nothing |
| AttachHistory.OtherRunDeletesExactlyWhen | es/files/pipework:301-310 | a bridge-mode run for another pair deletes a host end, at some interruption, exactly when that end's peer bears its generated name and is down, and its bridge exists or may be created |
| AttachProgress.DifferentContainersIndependent | es/files/pipework:296-299 | runs for containers with namespaces of their own use disjoint names |
| AttachProgress.StaysAble | es/files/pipework:281-443 | wherever a run stands, an independent run is as able to complete as before |
| AttachProgress.BothAt | es/files/pipework:281-443 | the table after two independent runs, each stopped anywhere, name by name in terms of the initial one |
| AttachProgress.ProgressCommutes | es/files/pipework:281-443 | two independent runs, each stopped anywhere but before raising a bridge they share, leave the same table in either order |
| AttachOrder.AttachingCommutes | es/files/pipework:281-443 | attaching two containers in either order leaves the same link table |
| AttachOrder.AnyOrder | es/files/pipework:281-443 | attaching any number of containers completes in every order and leaves the same table |
| AttachTogether.NextIs | es/files/pipework:281-443 | each statement of a run, on the table of a run in progress beside others, leads to its next table, or fails for the stated reason |
| AttachTogether.AnyGoesLast | es/files/pipework:281-443 | the table of any number of runs in progress is the one any of them makes of the table of the others |
| AttachTogether.TurnKeepsStep | es/files/pipework:281-443 | every statement of any run keeps the table that of all runs in progress on the bridges provided so far |
| AttachRaces.TurnIsRace | es/files/pipework:282-308 | a statement fails exactly when the bridge to create is there by now, or the host end to clear away is gone |
| AttachRaces.InterleavingIsSequential | es/files/pipework:281-443 | for any number of runs and any interleaving: runs fail only in a race, finish after enough turns, and once all completed the table is that of the runs one after the other |
| AttachRaces.NeverFailsExactlyWhen | es/files/pipework:282-308 | no interleaving makes a run fail exactly when no two share a missing bridge or a leftover pair |
| AttachRaces.NewBridgeRace | es/files/pipework:282-286 | two containers on a new bridge: the second to create it fails |
| AttachRaces.LeftoverRace | es/files/pipework:301-308 | two leftover host ends of one pair: the second deletion fails |
| AttachAlone.StatementIs | es/files/pipework:96-443 | on any table, each statement takes the first command off the plan, or ends the run where the plan is refused or its host end is up |
| AttachAlone.AloneIsRun | es/files/pipework:96-443 | on any table and for any request, a run on its own leaves the table of its plan, and completes, is refused or exits early exactly as the plan does |
| AttachAlone.CompletedIsAttached | es/files/pipework:281-443 | a completed run leaves its container attached in this sense beside independent runs |
| AttachAlone.AttachedChangeNothing | es/files/pipework:301-306 | runs for attached containers, started again among others, change nothing and end at the test of line 303 |
| AttachRecovery.RunningAgainRepairsExactlyWhen | es/files/pipework:281-443 | after any interleaving, stopped anywhere, running all again leaves the undisturbed table exactly unless a bridge was left down or a host end was up too early |
| DummyRuns.DummyRunAdds | es/files/pipework:371-374 | wherever interrupted, a dummy-mode run changes no link and adds at most one |
| DummyRuns.FullDummyReaches | es/files/pipework:371-390 | a dummy-mode run stops exactly where the name it needs next is taken |
| DummyRuns.CompletedDummy | es/files/pipework:371-443 | the record a completed dummy-mode run leaves, and that its temporary names are free |
| DummyRuns.RepeatingStrands | es/files/pipework:371-390 | repeating a completed dummy-mode run strands exactly two links, one in the host's namespace, and nothing more from then on |
| PipeworkArgs.ParseArguments | es/files/pipework:6-39 | shifting the parameters in place reads exactly the fields at the computed positions |
| PipeworkArgs.ArgumentsRoundTrip | es/files/pipework:6-39 | a rendered request, and all arguments after the guest, are recovered exactly when it is unambiguous |
| PipeworkArgs.GuestNamedLikeFlag | es/files/pipework:16-39 | a guest called `-i` is lost and its address becomes the interface name |
| PipeworkArgs.ModeFlags | es/files/pipework:6-14 | the mode flags count in first place only, and `--wait` is not shifted away |
| PipeworkArgs.MacMeans | es/files/pipework:41-50 | for any argument: the MAC is the text up to the first at sign, the VLAN that up to the next |
| PipeworkArgs.MacRoundTrip | es/files/pipework:41-50 | mac and VLAN are recovered exactly when neither contains the separator |
| PipeworkArgs.AddressRoundTrip | es/templates/docker/service.erb:9 | the template's address is split back into ip, ip/mask and gateway exactly when no separator clashes |
| PipeworkArgs.DhcpForms | es/files/pipework:209-254 | each DHCP client, in the foreground or not, with and without options |
| PipeworkArgs.OtherAddresses | es/files/pipework:237-248 | any other address is rejected without a mask, and has a gateway exactly with an at sign behind a slash |
| PipeworkArgs.RequestConfigures | es/files/pipework:6-298 | an unambiguous request configures each field it names, with `eth1` by default |
| PipeworkArgs.ServiceUnitAttaches | es/templates/docker/service.erb:9 | starting the unit attaches `eth1` with the template's address, up, on the template's bridge |
| LogRotation.RotatedSlot | hadoop/files/hadoop-daemon.sh:53-63 | slot by slot, one rotation is an exact shift for any limit and any gaps |
| LogRotation.RotationConserves | hadoop/files/hadoop-daemon.sh:53-63 | apart from one overwritten top log every log keeps exactly one place, and no other log appears |
| LogRotation.RotationExamples | hadoop/files/hadoop-daemon.sh:53-63 | rotations with gaps, without gaps and with limit 0, slot by slot |
| LogRotation.Daemon.Rotate | hadoop/files/hadoop-daemon.sh:50-65 | the descending loop computes that shift |
| LogRotation.Daemon.Launch | hadoop/files/hadoop-daemon.sh:109-121 | a live recorded process refuses the start and leaves the logs alone; otherwise they rotate |
| LogRotation.StartRefusedExactlyWhen | hadoop/files/hadoop-daemon.sh:109-121 | a start changes nothing exactly when there is no log or the recorded process is alive |
| LogRotation.SlotsHoldLatest | hadoop/files/hadoop-daemon.sh:50-121 | from any initial slots, after any history, the slots hold the latest rotated logs, newest first |
| LogRotation.SlotsHoldExactlyLatest | hadoop/files/hadoop-daemon.sh:50-121 | from no logs, they hold exactly the last min(k, n) of the k rotated logs and nothing else |
| BackupPC.Check.Visit | profiles/files/nrpeplugins/check_backuppc:163-213 | one host goes to the lists its verdict says, the counter counts it, its missing time is filled in |
| BackupPC.Check.Classify | profiles/files/nrpeplugins/check_backuppc:161-214 | the four lists are the hosts with the matching verdicts, in order |
| BackupPC.Partition | profiles/files/nrpeplugins/check_backuppc:161-214 | counted hosts are good or bad, bad ones too old or not too old, disjointly |
| BackupPC.Check.Exit | profiles/files/nrpeplugins/check_backuppc:216-265 | the exit status is the base severity, one step lower but never below OK exactly when few enough hosts fail |
| BackupPC.Check.CheckNames | profiles/files/nrpeplugins/check_backuppc:151-158 | the loop finds the first desired name that no host's name contains, if there is one |
| BackupPC.Check.Run | profiles/files/nrpeplugins/check_backuppc:75-265 | the whole plugin's exit status, from help, version, options and connection to the verdict, which mentions no order of the hosts |
| BackupPC.ExitStatusMeans | profiles/files/nrpeplugins/check_backuppc:161-265 | the exit status from the hosts' fields and the options: by the age of the failures let through, lowered by one when few enough |
| BackupPC.EarlyExitMeans | profiles/files/nrpeplugins/check_backuppc:75-158 | the exit status of every call that does not get to the hosts |
| BackupPC.YesterdaysFailureWarns | profiles/files/nrpeplugins/check_backuppc:194-243 | with the default thresholds a backup that failed yesterday gives 1 |
| BackupPC.SeverityMonotone | profiles/files/nrpeplugins/check_backuppc:190-243 | the severity never drops as time passes or hosts are added, never rises as a threshold or the reduction is raised |
| BackupPC.AlwaysOkExactlyWhen | profiles/files/nrpeplugins/check_backuppc:151-164 | for given hosts and types, the exit is OK whatever their states exactly when no host is selected |
| BackupPC.ShortNameChecksNothing | profiles/files/nrpeplugins/check_backuppc:151-164 | asked for `db`, a server with only the host `db1` always gives OK |
| BackupPC.ExemptionAgreesExactlyWhen | profiles/files/nrpeplugins/check_backuppc:177-186 | the exemption is the documented one exactly while both times are within a full period of each other |
| BackupPC.UnreachableIsGood | profiles/files/nrpeplugins/check_backuppc:177-186 | with a last good backup no later than the start, every connectivity failure counts as good |
| BackupPC.LongUnreachableExempt | profiles/files/nrpeplugins/check_backuppc:177-186 | a host whose last good backup precedes its failing job by a hundred days is exempt; in the documented order it is not |
| DiskIo.WraparoundUndone | profiles/files/nrpeplugins/check_io.py:106-113 | the corrected difference is the true increase exactly without a wrap or with modulus `sys.maxsize`, else off by the difference |
| DiskIo.NarrowCounterMisread | profiles/files/nrpeplugins/check_io.py:106-113 | a 32-bit counter's increase over a wrap is misread |
| DiskIo.Device.CheckLimits | profiles/files/nrpeplugins/check_io.py:102-142 | the mutated status is the worst of the enabled tests, each counting the limits it exceeds; 3 without two samples |
| DiskIo.StatusMeans | profiles/files/nrpeplugins/check_io.py:102-142 | the status from columns 2, 6 and 9 of the two samples and the limits |
| DiskIo.WritesAreChecked | profiles/files/nrpeplugins/check_io.py:124-131 | a write load above its critical limit alone gives 2 |
| DiskIo.InRange | profiles/files/nrpeplugins/check_io.py:170-179 | a value is accepted exactly when strictly between the given bounds |
| DiskIo.Validate | profiles/files/nrpeplugins/check_io.py:260-278 | arguments are accepted exactly with ordered thresholds, all throughput limits or none, and a period up to the timeout |
| DiskIo.TypesLetThrough | profiles/files/nrpeplugins/check_io.py:205-243 | which values the argument types let through |
| DiskIo.AcceptedExactlyWhen | profiles/files/nrpeplugins/check_io.py:205-278 | which arguments get past the types and the checks |
| DiskIo.Plugin.Sample | profiles/files/nrpeplugins/check_io.py:323-329 | each monitored device gains exactly its own rows of the snapshot, in order |
| DiskIo.NagiosData.UpdateData | profiles/files/nrpeplugins/check_io.py:58-66 | the exit status becomes the largest of itself and the new ones |
| DiskIo.Plugin.Report | profiles/files/nrpeplugins/check_io.py:334-338 | the loop leaves the worst device status, or tells that checking a device raised an exception |
| DiskIo.CheckDevices | profiles/files/nrpeplugins/check_io.py:307-354 | the exit from construction over both snapshots to the verdict: 1 without a snapshot, 2 for an exception, else the worst status |
| DiskIo.ExitMeans | profiles/files/nrpeplugins/check_io.py:307-354 | the exit status of a whole check from the rows of both snapshots and the limits |
| DiskIo.ShortRowExits | profiles/files/nrpeplugins/check_io.py:334-354 | a monitored device with a short row gives 2 whatever the others do |
| DiskIo.TwoSamplesExactlyWhenListedTwice | profiles/files/nrpeplugins/check_io.py:323-329 | with unique names, two samples in snapshot order exactly for devices in both snapshots |
| DiskIo.WorstOfAll | profiles/files/nrpeplugins/check_io.py:334-335 | the fold is the maximum over the devices, 3 exactly when one is missing from a snapshot |
| ZooKeeper.Parse | profiles/files/nrpeplugins/check_zookeeper.py:174-186 | the loop builds the table of the well-formed lines, later ones overriding earlier ones |
| ZooKeeper.ParseConcat | profiles/files/nrpeplugins/check_zookeeper.py:174-186 | parsing line-complete text followed by more is overriding the first table by the second |
| ZooKeeper.MalformedLineIgnored | profiles/files/nrpeplugins/check_zookeeper.py:179-184 | inserting a malformed line anywhere changes nothing |
| ZooKeeper.TruncatedRead | profiles/files/nrpeplugins/check_zookeeper.py:169-186 | a read cut off in a line adds at most the one entry the partial line forms |
| ZooKeeper.LineRoundTrip | profiles/files/nrpeplugins/check_zookeeper.py:236-250 | a rendered entry is parsed back, integers as integers |
| ZooKeeper.WellFormedLinesExactly | profiles/files/nrpeplugins/check_zookeeper.py:236-243 | a line is an entry exactly with one tab and something but white space before it |
| ZooKeeper.NumeralsExactly | profiles/files/nrpeplugins/check_zookeeper.py:245-248 | a value is an integer exactly as digits behind an optional sign |
| ZooKeeper.StatsRoundTrip | profiles/files/nrpeplugins/check_zookeeper.py:174-250 | the rendering of any well-formed table, in any order, is parsed back to that table |
| ZooKeeper.Analyze | profiles/files/nrpeplugins/check_zookeeper.py:36-73 | the lists hold the hosts that reached one and both thresholds, and the exit is the worst over all |
| ZooKeeper.ClusterSeverityIs | profiles/files/nrpeplugins/check_zookeeper.py:49-73 | the exit code is attained by some host and bounds every host |
| ZooKeeper.ExitCodeMeans | profiles/files/nrpeplugins/check_zookeeper.py:49-73 | 2 exactly with a critical value, else 1 exactly with a warning value, else 0, from the values and both directions of thresholds |
| ZooKeeper.NamedServers | profiles/files/nrpeplugins/check_zookeeper.py:49-60 | a server is named in a list exactly when it reports such a value |
| ZooKeeper.ThresholdsRead | profiles/files/nrpeplugins/check_zookeeper.py:36-43 | signed numerals with blanks around them are read as thresholds, nothing and blanks are not |
| ZooKeeper.ExitMonotone | profiles/files/nrpeplugins/check_zookeeper.py:56-60 | moving values towards critical never lowers the exit code |
| ZooKeeper.ExitSymmetric | profiles/files/nrpeplugins/check_zookeeper.py:56-60 | negating values and both thresholds leaves the exit code unchanged |
| ZooKeeper.SilentExactlyWhenEqual | profiles/files/nrpeplugins/check_zookeeper.py:56-60 | the check is silent for every cluster exactly when the thresholds are equal |
| Catalog.Compiler.Declare | hadoop/manifests/roles/nodemanager.pp:9-18 | an unguarded declaration of an existing title aborts |
| Catalog.Compiler.DeclarePackages | hadoop/manifests/roles/nodemanager.pp:14-20 | the guarded package loop grows the catalog by its declarations in order |
| Catalog.Compiler.DeclareFiles | hadoop/manifests/roles/nodemanager.pp:23-31 | the inner file loop merges the explicit and splatted attributes and fails exactly when a first declaration is invalid |
| Catalog.Compiler.DeclareConfiguration | hadoop/manifests/roles/nodemanager.pp:22-32 | the nested file loops grow the catalog in order and fail exactly when a first declaration is invalid |
| Catalog.Compiler.DeclareMounts | hadoop/manifests/roles/nodemanager.pp:34-47 | the nested mount loops grow the catalog by every mount and subdirectory in order |
| Catalog.Compiler.IncludeRole | hadoop/manifests/roles/dfsslave.pp:1-48 | a role is evaluated once, its banner unguarded, its loops in order |
| Catalog.GrowIsFirstWins | hadoop/manifests/roles/nodemanager.pp:14-47 | growth alters nothing, adds the union with first-declared attributes, and fails exactly on an invalid first declaration |
| Catalog.OrderMattersExactlyWhen | hadoop/manifests/roles/nodemanager.pp:14-47 | two declaration lists commute exactly when they agree on the new titles both declare |
| Catalog.AgreeingOrderIrrelevant | hadoop/manifests/roles/nodemanager.pp:14-47 | with agreeing attributes, only the set of declarations matters |
| CatalogRoles.IncludeAllIsFirstWins | hadoop/manifests/roles/dfsslave.pp:14-47 | any sequence of roles compiles without a duplicate, keeps what is there, and the first declarer wins |
| CatalogRoles.IncludeAllIdempotent | hadoop/manifests/roles/dfsslave.pp:14-47 | including roles again changes nothing |
| CatalogRoles.IncludeOrderIrrelevant | hadoop/manifests/roles/dfsslave.pp:14-47 | roles that agree on shared titles may be included in any order |
| CatalogRoles.GuardedExactly | hadoop/manifests/roles/dfsslave.pp:14-47 | a role declares exactly its packages, configuration files and directories, with their attributes |
| CatalogRoles.ResourcesExactly | hadoop/manifests/roles/dfsslave.pp:1-48 | the host gains exactly what the roles' parameters list and their banners, with attributes one of them lists |
| CatalogRoles.PackageDeclared | hadoop/manifests/roles/dfsslave.pp:14-20 | every package of an included role is there, with its own attributes unless another claim differs |
| CatalogRoles.DatanodeInstalled | configuration/hieradata/modules/hadoop.yaml:223-225 | dfsslave installs `hadoop-hdfs-datanode` at the configured version |
| CatalogRoles.RepeatedAttributeAborts | hadoop/manifests/roles/nodemanager.pp:22-32 | a file hash that repeats an explicit attribute aborts the compilation |
| CatalogRoles.ForeignBannerAborts | hadoop/manifests/roles/nodemanager.pp:9 | a banner line from elsewhere aborts the compilation |
| CatalogRoles.ConfigurationFileDeclared | hadoop/manifests/roles/nodemanager.pp:22-32 | a file no other declaration claims is present with its template's text and its own attributes |
| CatalogRoles.ParentsDeclared | hadoop/manifests/roles/dfsslave.pp:34-46 | with a parent-closed list every directory is declared with all those above it |
| CatalogRoles.RoleOrderMattersExactlyWhen | hadoop/manifests/roles/dfsslave.pp:1-48 | two roles may be included in either order exactly when they agree on the titles both declare that the host lacks |
| CatalogRoles.SharedMountOrderMatters | hadoop/manifests/roles/dfsslave.pp:34-46 | a new shared mount with different attributes makes the order of the roles visible |
| CatalogRoles.DatanodeNodemanagerOrderMatters | configuration/hieradata/modules/hadoop.yaml:215-292 | dfsslave and nodemanager with this repository's data give different hosts in the two orders |
| AzkabanCli.RSplitRoundTrip | azkaban/files/azkaban_cli_td:162-164 | path and name are recovered exactly when the name holds no colon |
| AzkabanCli.ParseProject | azkaban/files/azkaban_cli_td:136-215 | the branches return the right resolution of the wanted name in the loaded projects, or the right failure |
| AzkabanCli.ResolutionSound | azkaban/files/azkaban_cli_td:136-215 | returned projects are the loaded ones under the returned name, required ones are there, missing names are errors |
| AzkabanCli.OptionRules | azkaban/files/azkaban_cli_td:145-157 | the documented rules for `path:name`, module and name options |
| AzkabanCli.OtherOptions | azkaban/files/azkaban_cli_td:158-183 | an absent or empty option, and a path without a name |
| AzkabanCli.OutcomesExactly | azkaban/files/azkaban_cli_td:184-215 | when exactly which failure or project is the outcome |
| AzkabanCli.UploadProject | azkaban/files/azkaban_cli_td:345-361 | the loop ends, and its effect on the server and its result are exactly those of one of the stated courses |
| AzkabanCli.BuildUpload | azkaban/files/azkaban_cli_td:394-408 | the same for the build command, which creates only on the missing-project message |
| AzkabanCli.SuccessExactlyWhen | azkaban/files/azkaban_cli_td:348-361 | for which server answers a command succeeds, and that the project then exists |
| AzkabanCli.RequestsExactly | azkaban/files/azkaban_cli_td:345-408 | when exactly a command asks for a creation, and when for a second upload |
| AzkabanCli.SessionSafe | azkaban/files/azkaban_cli_td:348-408 | over any sequence of commands: projects appear only through flagged commands, each success stores exactly one upload, at most two uploads and two creation requests a command |

## Left out

- pipework: Open vSwitch bridges, macvlan and IPoIB modes (beyond their names), the wait loop, DHCP clients, gateway routes, MTU, ARP, the MAC hash, the VLAN device check and the `/var/run/netns` links.
- pipework: finding the container's process id through cgroups or Docker, including its retry loop; the pid and its namespace are inputs.
- pipework: a local interface name given with `-l` that belongs to a physical device, which the kernel refuses to delete.
- Pipework.Machine.Attach: does not model Open vSwitch bridges, macvlan and IPoIB modes and the search for the guest, which the cited lines also hold.
- Pipework.Machine.AttachGuestEnd: does not model the DHCP clients and the default-route commands between the modelled ones.
- pipework: concurrent runs for the same container, and other programs changing links while runs are under way.
- Catalog.Compiler.IncludeRole: does not model `include 'hadoop'` and `require 'hadoop::config'`, of which only the resources already on the host at that point are an input.
- DiskIo.CheckDevices: does not model the timeout signal, which also exits 1.
- hadoop-daemon.sh: the rsync, environment files and the daemon process itself; a failing `mv` is not modelled.
- check_backuppc: the protocol to the server, of which only the outcome of the connection is an input, and the printed messages.
- check_io.py: argument parsing by argparse, device discovery, signals, messages and the verbose exception branch.
- check_zookeeper.py: the `stat` fallback parser, the Cacti and Ganglia handlers, sockets; Python 2's tolerance of a blank between sign and digits.
- Role manifests: the hadoop and hadoop::config classes, and titles that differ only by a trailing slash, which Puppet's file type would take for one path.
- azkaban_cli_td: job listings, logs, workflow submission and scheduling, option files and the progress output.
- Everything else in the repository: Hiera data, templates, SQL, certificates and one-comparison checks.
