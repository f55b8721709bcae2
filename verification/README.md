# Kanea control plane: model and proofs

This project models the parts of Kanea's single-node control plane where a mistake would be quiet: the
job-spec generator that must invert the converter, the boot-time restore that may lose power between any
two writes, the change log that is shipped and replayed, the writers and wake-up channels that run
concurrently over one store, the swappable backup pipeline, the exec socket, the log tailer, certificate
planning, syncing and publication, subnet validation, flag parsing and paged reads.

`dafny verify dfyconfig.toml` checks everything.

## How it is laid out

| files | what they model |
|---|---|
| `wrappers.dfy`, `text.dfy`, `numerals.dfy`, `bytestrings.dfy` | Go's result shapes, string helpers and string order, byte sizes and octal modes, byte strings |
| `jobspec.dfy`, `convert.dfy`, `convert_laws.dfy`, `generate.dfy`, `spec_fields.dfy`, `roundtrip.dfy`, `roundtrip_example.dfy` | the spec and desired-state records, `toDesired`, `toHCL`, and the proof that one inverts the other |
| `restore_boot.dfy`, `restore_laws.dfy`, `restore_safety.dfy` | restore and migration at boot as a list of durable writes, a crash after any of them, and whole runs of boots |
| `store.dfy`, `change_log.dfy`, `replication.dfy`, `recovery.dfy`, `recovery_laws.dfy`, `recovery_limits.dfy` | the store's batches and change log, shipping it in segments, replaying segments over a snapshot, and the runs on which that fails |
| `writers.dfy`, `wakeups.dfy`, `backup_manager.dfy`, `exec.dfy` | concurrent protocols, as steps that any number of parties may interleave |
| `tail.dfy`, `acme_plan.dfy`, `edge_domains.dfy`, `acme_sync.dfy`, `cert_pass.dfy`, `cidr.dfy`, `args.dfy`, `paging.dfy` | algorithms and passes over a collection, as methods with loops proved against a definition |

Where a method is proved against a function, a law beside it says what the function means without naming it.

A protocol is a state, a set of events with an enabling condition and a `Next` function; a run is a list of
events. Everything outside the repository (the CA, the object store, disks, clocks, the network) appears as
parameters that say how each call turned out, and the theorems hold for every choice of them.

## What the proofs found

Some properties the comments promise do not hold of the code on every input. Each has a lemma with an input on
which it fails and, except where a line says what is assumed instead, a theorem that says exactly when it holds.

- **A page boundary inside a batch loses the rest of the batch.** `ShipOnce` moves its cursor to the index of
  the last change it uploaded, so a page that ends in the middle of a batch makes the rest of that batch
  unreachable; a restore then succeeds without it. Input: `RecoveryLimits.CutBatchIsLost`, and at the limit the
  daemon uses `RecoveryLimits.CutBatchIsLostAtTheDefault`. Exactly when: `Recovery.NothingUnshippedIsLostIff`.
- **A snapshot taken while changes wait to be shipped skips them.** They are in that snapshot and in no segment,
  so an older archive that retention still keeps can no longer be replayed forward. Input:
  `RecoveryLimits.SnapshotSkipsTheBacklog`. Exactly when: `Recovery.NothingUnshippedIsLostIff`.
- **A batch that only deletes missing keys spends an index and logs nothing.** If one falls between two
  shipped segments the restore refuses the chain although no change is missing
  (`RecoveryLimits.SilentBatchBreaksTheChain`; exactly when: `Recovery.RecoveryReproduces`); anywhere, it makes
  replayed records carry lower indices than they had (`ChangeLog.SilentBatchShiftsIndices`; exactly when:
  `ChangeLog.SnapshotPlusLogReproduces`), where the comment in internal/backup/restore.go says they land on
  the same numbers.
- **With the default limit one ShipOnce sends one page.** The replicator asks for 2000 changes, the store
  returns at most 1000, and a page shorter than what was asked for ends the loop. Input:
  `RecoveryLimits.OneCallLeavesABacklog`. Exactly when: `Replication.ShipsEverythingIff`.
- **A first-boot auto-restore is not protected by a marker.** A crash during its replay leaves a state file
  that the next boot opens as it is (`RestoreSafety.FirstBootRestoreIsNotGuarded`; exactly when:
  `RestoreSafety.OpensOnlyWholeIff`), and a crash during its fetch leaves a torn one that keeps every later
  boot from restoring (`RestoreSafety.CutFirstFetchIsStuck`).
- **An upload that fails after its object landed can leave two segments with one start**, which a restore refuses
  (`RecoveryLimits.UploadedTwiceIsRefused`). The recovery theorems assume it does not happen.
- **Two restores in the same second share an aside name**: restarted within the second, the daemon moves the
  half-restored file over the database it displaced, which is then nowhere. Input:
  `RestoreSafety.SameSecondLosesTheDatabase`. Exactly when copies are kept: `RestoreSafety.BootKeepsCopiesIff`
  and, over runs, `RestoreSafety.CopiesKeptIff`. Pre-migration copies are safe: a used name is refused.
- **Four kinds of service do not survive regeneration**: a route to a number declared by a udp port first
  (`SpecFields.SharedNumberLosesRoute`), a volume size above 2^62 bytes that is a multiple of 1024
  (`Numerals.ByteSizeInverseFails`), a limit that wrapped to a negative one
  (`RoundTripExample.WrappedMemoryIsLost`) and a service with neither image nor build
  (`RoundTripExample.ImagelessIsLost`). Exactly when: `RoundTrip.GeneratedSpecReproduces`.
- **Overlapping settings calls can leave the stored record and the running pipeline different**, because the
  record is committed outside the mutex. Input: `BackupManager.OverlappingCallsDisagree`. Exactly when:
  `BackupManager.AgreesIffLastCommitIsInstalled`.
- **A certificate that could not be saved is asked for again on the next pass**, although the comment beside the
  failed save says serving it avoids that. Input: `AcmeSync.UnsavedIsAskedForAgain`. Exactly when:
  `AcmeSync.AskedAgainIffNotSaved`.
- **A certificate whose validity ends before it begins is not due at once**, as its comment says, but only when it
  begins. Input: `AcmeSync.BackwardsIsNotAskedFor`. Exactly when: `AcmeSync.ExpiredIsAskedForIff`.
- **Whitespace before the base domain takes routed names out of their wildcard**: routing trims it and planning
  does not. Input: `EdgeDomains.SpacedBaseIsNotCovered`. Exactly when a wildcard covers, for every base domain:
  `EdgeDomains.WildcardCoversRouteIff`; for those that are clean once trimmed this comes down to no whitespace
  in front (`EdgeDomains.AgreesIffNoSpaceBefore`).

internal/jobspec/types.go says an `always` pull policy never reaches the desired state; cmd/kanea/convert.go
copies it, and the model follows the code.

## Model

| member | source | states |
|---|---|---|
| `Text.SortUniqueSpec` | internal/jobspec/parse.go:1055-1072 | the result is strictly ascending and has exactly the input's elements |
| `Text.SortUniqueKeepsAscending` | internal/jobspec/parse.go:1055-1072 | a sorted, duplicate-free list is left alone, so sorting twice changes nothing |
| `Numerals.ByteSizeRoundTrip` | cmd/kanea/generate.go:830-843 | parsing a formatted byte size gives the size back for every size that survives and fails for every other; survival is at most 2^62 or not a multiple of 1024 |
| `Numerals.ByteSizeInverseFails` | internal/jobspec/bytesize.go:16-64 | a size the parser accepts when written plainly is refused when written the way the generator writes it |
| `Numerals.SizeUnitLaw` | internal/jobspec/bytesize.go:16-64 | a count under each unit a size may be written with, against its number of bytes |
| `Numerals.ModeAcceptance` | internal/jobspec/types.go:797-812 | a mode is accepted exactly when it is one to four octal digits of at most 511, and read as their value |
| `Numerals.ModeRoundTrip` | internal/jobspec/types.go:797-812 | an octal mode printed to four digits parses back exactly when it is at most 0777 |
| `Convert.SplitExposes` | cmd/kanea/convert.go:136-150 | the loop's first route and extra routes are the head and tail of the routes that resolve, in block order |
| `ConvertLaws.EdgePortLaw` | internal/jobspec/expose.go:96-140 | the port picked is the first stream port of the name given, else grpc for grpc, else http, else the sole stream port, and none only when those rules pick none |
| `ConvertLaws.VolumeLaw` | internal/jobspec/user.go:38-72 | a volume converts exactly when its storage is declared and its size and mode parse; its ids are its own or its user's where the driver carries ownership, its mode 0700 when it is owned and names none |
| `ConvertLaws.PeersLaw` | internal/jobspec/types.go:612-632 | the peers allowed in are exactly the entries written as two labels with a slash between |
| `ConvertLaws.ScheduleLaw` | internal/jobspec/diagnostics.go:33-56 | a restart schedule parses exactly when each part between commas reads as a positive duration, and to those durations |
| `ConvertLaws.CapabilitiesLaw` | internal/jobspec/capabilities.go:202-221 | the stored capabilities are ascending and exactly the declared ones, trimmed and in upper case but for none |
| `ConvertLaws.ConverterMeansTheBlock` | cmd/kanea/convert.go:33-236 | a block converts exactly when it can, and every field of the record is what the block declares, defaults, inheritance, references and secrets included |
| `ConvertLaws.SpecMeansItsServices` | cmd/kanea/convert.go:33-236 | a spec converts exactly when every service can, to their records in order |
| `Generate.ChooseExposedPort` | cmd/kanea/generate.go:544-599 | the port name written for a route, or the refusal, as the first port with that number and the convention decide |
| `Generate.MatchNumber` | cmd/kanea/generate.go:548-554 | the name of the first declared port with a given number, or nothing |
| `Generate.CollectStreamNames` | cmd/kanea/generate.go:565-571 | the names of all non-udp ports in order |
| `Generate.CollectStorages` | cmd/kanea/generate.go:53-71 | the union of the storages the services mount, each name listed once, or the first disagreement |
| `Generate.UniteIffConsistent` | cmd/kanea/generate.go:53-71 | the union succeeds if and only if no two volumes name one storage with different definitions |
| `Generate.UniteCovers` | cmd/kanea/generate.go:53-71 | every mounted storage is in the union with the definition its volume carries |
| `Generate.ProjectsListed` | cmd/kanea/generate.go:73-86 | the projects are those of the services and the pipelines, once each and in order |
| `Generate.StoragesListed` | cmd/kanea/generate.go:112-116 | the storages are the mounted ones, once each and in the order of their names |
| `Generate.BuildIsThePipelines` | cmd/kanea/generate.go:334-343 | a service's build block is the one its project's last pipeline holds for it, and only then |
| `SpecFields.NormalizeIdempotent` | internal/jobspec/capabilities.go:202-221 | normalising a capability list twice is normalising it once |
| `SpecFields.ResourcesRoundTrip` | cmd/kanea/generate.go:450-475 | limits come back exactly when neither cpu nor memory is negative, as one that wrapped past the top of int64 can be; the pids default is omitted and restored |
| `SpecFields.UserRoundTrip` | cmd/kanea/convert.go:398-418 | a task user survives being written and converted again |
| `SpecFields.BackoffRoundTrip` | internal/jobspec/diagnostics.go:33-56 | a restart policy survives, its delay schedule split and parsed entry by entry |
| `SpecFields.UpdateRoundTrip` | cmd/kanea/generate.go:412-426 | an update policy survives although its defaults are omitted and the pull policy can imply it |
| `SpecFields.PortReselection` | internal/jobspec/expose.go:96-140 | whether the port was omitted or named, the route resolves to the same number exactly when the first port with that number is a stream port, and to nothing otherwise |
| `SpecFields.SharedNumberLosesRoute` | cmd/kanea/generate.go:548-554 | a concrete port list whose exposed route no longer resolves once regenerated |
| `SpecFields.ExposeRoundTrip` | cmd/kanea/convert.go:248-290 | one route, with its middleware and TLS, survives exactly when its port does |
| `SpecFields.ExposesRoundTrip` | cmd/kanea/convert.go:248-290 | all routes survive together exactly when every port does, and otherwise fewer come back |
| `SpecFields.PeersRoundTrip` | internal/jobspec/types.go:612-632 | printed peers parse back to themselves |
| `SpecFields.CheckRoundTrip` | cmd/kanea/convert.go:359-396 | a health check survives, its port found again by name |
| `SpecFields.MetricsRoundTrip` | cmd/kanea/convert.go:342-357 | a scaling policy's metrics survive |
| `SpecFields.FilesRoundTrip` | cmd/kanea/convert.go:498-514 | plain files survive |
| `SpecFields.VolumeRoundTrip` | internal/jobspec/user.go:38-72 | a volume survives exactly when its size does, ownership being inherited again the same way |
| `SpecFields.VolumesRoundTrip` | cmd/kanea/generate.go:802-828 | all volumes survive exactly when every size does |
| `RoundTrip.InitsRoundTrip` | cmd/kanea/generate.go:744-800 | init steps survive exactly when each one's limits do |
| `RoundTrip.NetworkRoundTrip` | cmd/kanea/generate.go:354-383 | ports, published ports and allowed peers come back from the network block or its absence |
| `RoundTrip.ServiceRoundTrip` | cmd/kanea/generate.go:311-442 | one converted record comes back, server-owned fields aside, if and only if it is reproducible |
| `RoundTrip.GeneratorRefusesOnly` | cmd/kanea/generate.go:29-152 | on converted records the generator succeeds if and only if storages agree, no project has notifications and no file carries secrets |
| `RoundTrip.GeneratedSpecReproduces` | cmd/kanea/generate.go:19-152 | for any converted records the generator accepts, converting its output gives them back if and only if all are reproducible |
| `RoundTrip.ConverterEstablishesConverted` | cmd/kanea/convert.go:33-236 | every record the converter produces from a validated block satisfies the invariant the round trip needs |
| `RoundTrip.RegeneratedSpecMeansTheSame` | cmd/kanea/convert.go:33-236 | for every validated spec, converting what is generated from its desired state gives the same desired state if and only if it is reproducible |
| `RoundTripExample.BareIsReproducedIff` | cmd/kanea/generate.go:29-152 | a service that declares only an image, limits or a build is generated without refusal, and without a pipeline comes back exactly when it has an image and no negative limit |
| `RoundTripExample.SmallestIsReproduced` | cmd/kanea/generate.go:29-152 | for any names and image, a service that declares only an image is generated without refusal and comes back |
| `RoundTripExample.WrappedMemoryIsLost` | cmd/kanea/convert.go:78-82 | a memory limit of 2^43 MiB converts to a negative one and does not come back |
| `RoundTripExample.ImagelessIsLost` | cmd/kanea/generate.go:334-343 | a service that was built and has no image does not come back once no pipeline builds it |
| `RestoreBoot.Node.RunRestore` | cmd/kanea/restore_boot.go:47-133 | the restore attempts exactly the specified writes in order and reports success exactly when the specification does |
| `RestoreBoot.Node.RunFetch` | internal/backup/archive.go:441-474 | the snapshot is begun in the state path, finished or discarded, and its later batches replayed until one fails; success exactly when all were and the download closed cleanly |
| `RestoreBoot.Node.Boot` | cmd/kanea/agent.go:292-319 | with power for any number of writes, a boot leaves the disk that prefix of its writes produces |
| `RestoreBoot.RestorePrefix` | cmd/kanea/restore_boot.go:47-133 | marker, copies and state file after every prefix of a restore: in place, moved aside, torn, and restored by so many batches |
| `RestoreLaws.SkipReplayRestoresTheSnapshot` | internal/backup/restore.go:97-102 | skipping the replay, no change is replayed, success depends on the fetch alone and leaves the snapshot as it is |
| `RestoreLaws.ReplayRestoresEveryBatch` | internal/backup/restore.go:104-112 | otherwise it succeeds exactly when every batch could be applied, and each was, once |
| `RestoreLaws.RestoreAtStartSucceedsIff` | cmd/kanea/restore_boot.go:47-133 | when the call returns nil, in terms of the request, the configuration and each call's outcome |
| `RestoreLaws.RestoreAtStartLeaves` | cmd/kanea/restore_boot.go:47-133 | what it then leaves: nothing touched, or the archive in place, the old file aside and no request |
| `RestoreLaws.FailedRestoreStaysStaged` | cmd/kanea/restore_boot.go:112-119 | a request stays staged when anything fails, with nothing written before the restore is reached |
| `RestoreLaws.MigrateSucceedsIff` | cmd/kanea/restore_boot.go:143-172 | a migration succeeds exactly when none is pending or its copy and every step were made, and leaves the schema that many steps on |
| `RestoreLaws.BootOrder` | cmd/kanea/agent.go:292-319 | the store is opened after the restore, migrated next and served only after a migration that succeeded |
| `RestoreSafety.MigratePrefix` | cmd/kanea/restore_boot.go:143-172 | database and copy after every prefix of a migration, which writes nothing when a finished copy has its copy's name |
| `RestoreSafety.UsedCopyNameIsRefused` | internal/store/bbolt.go:447-470 | with a finished copy under its name a migration is refused and nothing is written once the store is open |
| `RestoreSafety.BootKeepsCopiesIff` | cmd/kanea/restore_boot.go:95-106 | wherever a boot stops, it has kept every finished copy if and only if the name it moved the state file to, if it did, was unused or held the same content |
| `RestoreSafety.CopiesOnlyGrow` | cmd/kanea/restore_boot.go:95-106 | a boot in a second no copy is named after never changes a finished copy, wherever it stops |
| `RestoreSafety.BootDatabaseKept` | cmd/kanea/restore_boot.go:95-119 | the state file found at boot is in place until the first write and aside, as it was, after it |
| `RestoreSafety.MigrationHasCopy` | cmd/kanea/restore_boot.go:143-172 | a schema step has been made only if a finished copy of the database before it is on disk |
| `RestoreSafety.MarkerClearedOnlyByRestore` | internal/backup/stage.go:63-94 | a staged request is gone only after its own restore put the whole archive in place in that boot |
| `RestoreSafety.NeverOpensOverAStagedRequest` | cmd/kanea/agent.go:292-304 | whenever a boot opens the store no request is staged |
| `RestoreSafety.CopiesKeptIff` | cmd/kanea/restore_boot.go:95-106 | over any run of boots and crashes no finished copy is lost if and only if no aside name is reused for something else |
| `RestoreSafety.NothingDisplacedIsLost` | cmd/kanea/restore_boot.go:47-133 | over any such run that reuses no aside name, every database ever displaced or migrated is still on disk |
| `RestoreSafety.SameSecondLosesTheDatabase` | cmd/kanea/restore_boot.go:95-106 | a staged restore cut after its fetch and begun again within the second loses the database it displaced |
| `RestoreSafety.RunStaysGuarded` | internal/backup/restore.go:57-113 | without auto-restore, after any run a torn or half-restored state file is behind a staged request |
| `RestoreSafety.FirstBootRestoreIsNotGuarded` | cmd/kanea/restore_boot.go:52-67 | an auto-restore interrupted after its snapshot is opened half-done by the next boot |
| `RestoreSafety.CutFirstFetchIsStuck` | internal/backup/archive.go:457-473 | an auto-restore cut during its fetch leaves a torn file and no request, and no later boot changes that while bbolt refuses the file |
| `RestoreSafety.OpensOnlyWholeIff` | cmd/kanea/restore_boot.go:47-133 | the daemon opens only whole databases over every run if and only if auto-restore cannot act |
| `StateStore.Store.Apply` | internal/store/bbolt.go:298-375 | a batch validates, checks every precondition against the records it found, then writes all or nothing under one new index and logs each effective mutation |
| `StateStore.ApplyKeepsIndexed` | internal/store/bbolt.go:298-375 | every record and change always carries an index already handed out, never zero |
| `StateStore.LastMutationDecides` | internal/store/bbolt.go:330-360 | of a committed batch the last mutation naming a key decides it: a put leaves its value at the new index, a delete leaves nothing, and other keys keep their entries |
| `StateStore.RefusedIff` | internal/store/bbolt.go:298-335 | a batch is refused exactly when a mutation is malformed or a precondition is not met by the records it found |
| `ChangeLog.ApplyChanges` | internal/backup/restore.go:195-230 | the two nested scans apply each run of equal indices as one batch, skip what the snapshot has, and stop at a failure |
| `ChangeLog.GroupHasBatchEffect` | internal/backup/restore.go:195-230 | the logged part of a batch has the effect of the whole batch |
| `ChangeLog.SnapshotPlusLogReproduces` | internal/backup/restore.go:186-230 | after any batches, replaying the log over an earlier snapshot gives every value, and the same index if and only if no batch was silent |
| `ChangeLog.SilentBatchShiftsIndices` | internal/backup/restore.go:186-194 | after a batch that deletes a missing key, a replayed record carries a lower index |
| `Replication.Replicator.ShipOnce` | internal/backup/replicate.go:200-235 | the loop uploads the specified segments, leaves the cursor after the last and reports whether it ended at a short page, however many uploads succeed; pruning drops only what was shipped |
| `Replication.ShippingLosesNothingIff` | internal/backup/replicate.go:200-235 | shipped and remaining changes are together the log, in order, if and only if no uploaded page ends inside a batch |
| `Replication.ShipsEverythingIff` | internal/store/bbolt.go:389-420 | one call empties the log if and only if it asks for at most 1000 changes or at most 1000 are pending |
| `Recovery.ReplayAll` | internal/backup/restore.go:116-184 | segments covered by the snapshot are skipped, the rest must chain and be readable, their changes are applied in order, and the highest index reached is reported |
| `Recovery.SuccessReportsTheEnd` | internal/backup/restore.go:160-184 | a restore that succeeds reports the index its segments end at |
| `RecoveryLaws.RestoreSucceedsIff` | internal/backup/restore.go:133-184 | for any list of segments, a restore succeeds exactly when those past the snapshot start no later than right after it, follow one another without a gap, are readable and hold only changes that name a key |
| `RecoveryLaws.AppliesEachOnce` | internal/backup/restore.go:195-230 | it then applies exactly the changes past the snapshot, also of a segment that straddles it |
| `Recovery.AcceptsIffContiguous` | internal/backup/restore.go:138-160 | the chain check accepts exactly the segment lists without a missing index between neighbours |
| `Recovery.NothingUnshippedIsLostIff` | internal/backup/replicate.go:200-235 | over any rounds of commits, shipping, upload failures and snapshots, nothing is missing from the segments and the backlog if and only if no page was cut inside a batch and no snapshot was taken over waiting changes |
| `Recovery.ContiguousIffNoSilenceBetween` | internal/backup/restore.go:138-160 | when segments hold everything a run logged, they chain if and only if no batch was silent between two of them or before the first |
| `Recovery.RecoveryReproduces` | internal/backup/restore.go:57-184 | for any snapshot of any run, with nothing skipped since and no backlog, restoring it with the sink's whole segment list succeeds if and only if no batch was silent between neighbouring segments; it then has every value of the lost store, and its index if and only if no batch was silent; with a backlog, the same of the store as of the last index shipped |
| `RecoveryLimits.CutBatchIsLost` | internal/backup/replicate.go:200-235 | one batch of two puts shipped one change at a time restores successfully without the second record |
| `RecoveryLimits.CutBatchIsLostAtTheDefault` | internal/backup/replicate.go:35-38 | at the default limit, a batch across the 1000th waiting change restores successfully without its second record |
| `RecoveryLimits.OneCallLeavesABacklog` | internal/backup/replicate.go:229-234 | at the default limit, one call over 1001 waiting changes ships 1000 and leaves one |
| `RecoveryLimits.SilentBatchBreaksTheChain` | internal/backup/restore.go:145-160 | a delete of a missing key between two shipments leaves segments a restore refuses although every change was shipped |
| `RecoveryLimits.SnapshotSkipsTheBacklog` | internal/backup/replicate.go:238-251 | a change waiting when a snapshot is taken is in no segment, and restoring the archive before it is refused |
| `RecoveryLimits.UploadedTwiceIsRefused` | internal/backup/restore.go:145-160 | two segments with the same start, in either order, are refused |
| `Writers.RetargetImage` | internal/reconciler/retarget.go:20-34 | the loop moves the service's image and exactly the init steps that declared the previous one, and names them in order |
| `Writers.RetargetKeepsTheRest` | internal/reconciler/retarget.go:20-34 | nothing but images changes, the count least of all, and a step that shared the service's image still does |
| `Writers.CommitsIffUnchanged` | cmd/kanea/scaling.go:56-86 | a scale or deploy commits if and only if the record is still the version that was read |
| `Writers.StartsIff` | cmd/kanea/pipelines.go:295-306 | a writer has something to do exactly when its service is there and, for a deploy, the image is another |
| `Writers.UndisturbedWriteCommits` | cmd/kanea/scaling.go:56-86 | a writer whose record stays as it read it commits exactly its count and cooldown, or its images |
| `Writers.OvertakenWriteChangesNothing` | cmd/kanea/scaling.go:81-86 | one that was overtaken changes nothing |
| `Writers.NoLostUpdate` | cmd/kanea/pipelines.go:295-330 | over every interleaving each commit is exactly its writer's change to the version immediately before it |
| `Writers.EveryCommitRespectsTheOthers` | cmd/kanea/scaling.go:56-104 | every scale changes only one record's count, every deploy no count, and a cooldown is written exactly by the scale of that service |
| `WakeUps.StepKeepsOwed` | cmd/kanea/agent.go:1399-1413 | every step of writers, fan-out and listeners keeps each sent version read or a read of it coming |
| `WakeUps.NoLostWakeUp` | cmd/kanea/agent.go:1393-1413 | the same after every run from the start, for any number of listeners |
| `WakeUps.QuietMeansCurrent` | cmd/kanea/agent.go:512-517 | when nothing is left to do every listener has read the newest version |
| `WakeUps.EveryListenerCatchesUp` | cmd/kanea/scaling.go:97-103 | from every reachable state, once commits stop, a bounded number of steps in any order reaches that point |
| `WakeUps.UnsentIsNotOwed` | cmd/kanea/pipelines.go:325-328 | before a writer's send a listener can be asleep behind its commit |
| `BackupManager.AlwaysSafe` | cmd/kanea/backup_manager.go:52-139 | over every interleaving at most one replicator is live, it belongs to the installed pipeline, the handles exist together, and an installed pipeline is launched once run has started |
| `BackupManager.LaunchesAfterFinalShip` | cmd/kanea/backup_manager.go:78-102 | a replicator is started only when every earlier one has finished its final ship |
| `BackupManager.ProbedThenCommittedThenInstalled` | cmd/kanea/backup_manager.go:104-139 | in every run a record is stored only after its destination passed the probe, and a pipeline replaced only after that and with the mutex, within one call |
| `BackupManager.RefusedSwapLeavesNoTrace` | cmd/kanea/backup_manager.go:108-124 | a run with a swap whose probe or commit fails ends like the run without it, whatever interleaves |
| `BackupManager.AgreesIffLastCommitIsInstalled` | cmd/kanea/backup_manager.go:122-139 | with no swap in flight, record, source and pipeline agree if and only if the last commit and the last install asked for the same stored settings |
| `BackupManager.AgreesWhenOneAtATime` | cmd/kanea/settings_service.go:86-126 | after any puts and resets made one at a time the three agree |
| `BackupManager.OverlappingCallsDisagree` | cmd/kanea/settings_service.go:86-126 | two overlapping puts after which the stored record is not the running destination |
| `Exec.ExecSession.WriteStream` | internal/api/exec.go:242-261 | a write sends its stream byte and data as one frame, or nothing once closed or refused, and says which |
| `Exec.ExecSession.SendControl` | internal/api/exec.go:264-278 | a control frame is sent unless the session is closed |
| `Exec.ExecSession.Shut` | internal/api/exec.go:351-361 | closes the socket unless it is closed |
| `Exec.OpenWriteIsSent` | internal/api/exec.go:242-261 | an open session whose connection takes the frame sends the data behind byte 1 or 2 and reports success |
| `Exec.DemultiplexingRecoversStreams` | internal/api/exec.go:233-278 | for every interleaving the payloads taken apart by stream are what that stream's successful writes carried, in order |
| `Exec.NothingAfterClose` | internal/api/exec.go:351-361 | after a close nothing changes, every write fails and the socket has been closed once |
| `Exec.ReadExecOutput` | internal/api/exec_client.go:126-165 | the client's loop returns each stream's bytes up to the first control frame it understands and its verdict, or how the connection ended |
| `Exec.SessionReachesClient` | internal/api/exec.go:150-177 | a whole session delivers every successful write of each stream and then the verdict, whatever is written after the close |
| `Tail.SeekToLastLines` | internal/api/tail.go:42-76 | for every content, count and chunk size the scan stops just after the (n+1)-th newline from the end, or at the start, leaving at most n newlines |
| `Tail.StartIsUnique` | internal/api/tail.go:40-76 | only one position has that property |
| `Tail.LinesPartition` | internal/api/tail.go:100-122 | complete lines and the unfinished end take a stream apart without loss, each line ending at its only newline |
| `Tail.LinesGrow` | internal/api/tail.go:100-122 | a longer stream's lines are the earlier ones and those its unfinished end grows into |
| `Tail.Tailer.Write` | internal/api/tail.go:102-122 | each complete line is printed once behind its prefix and the rest is held; on a write error the lines before it were printed; without prefix data passes through |
| `Tail.Tailer.CopyTo` | internal/api/tail.go:80-98 | however the bytes are split into reads, the output is every line of the whole stream prefixed once and the held part is its unfinished line |
| `AcmePlan.PlanRequests` | internal/acme/plan.go:67-132 | the planner returns the specified requests, its two counts add up to their number, and it warns exactly when more than the threshold want one and wildcards are unavailable |
| `AcmePlan.RequestCount` | internal/acme/plan.go:88-129 | one request an exposure without collapsing, never more with it, and then one a project plus the kept ones |
| `AcmePlan.CollapsesIff` | internal/acme/plan.go:67-101 | wildcards are used exactly when available and more exposures have names than the threshold, 20 unless set |
| `AcmePlan.AskedFor` | internal/acme/plan.go:96-129 | the request made for an exposure, names and service spelled out |
| `AcmePlan.NothingElseIsAskedFor` | internal/acme/plan.go:96-129 | every request is made on some exposure's behalf |
| `AcmePlan.WildcardCoversIffOneLabel` | internal/edge/tls.go:74-92 | a project's wildcard covers a generated name if and only if the service is a single label |
| `AcmePlan.ExposureIsServed` | internal/acme/plan.go:96-129 | every exposure has its own request in the plan, or its project's wildcard |
| `AcmePlan.PlanCovers` | internal/acme/plan.go:67-132 | every name of every exposure is covered by some planned request, collapsed names being generated ones |
| `EdgeDomains.WildcardCoversRouteIff` | internal/reconciler/routes.go:376-402 | for every base domain, a project's wildcard covers the name routed for a service of it, both sides normalised, if and only if routing and planning spell the base domain the same way |
| `EdgeDomains.AgreesWithoutSpaces` | internal/acme/plan.go:119-126 | they do for every base domain without whitespace, whatever dots surround it |
| `EdgeDomains.AgreesIffNoSpaceBefore` | internal/acme/plan.go:119-126 | for a base domain that is clean once trimmed, they do if and only if no whitespace comes before it |
| `EdgeDomains.SpacedBaseIsNotCovered` | internal/edge/tls.go:74-92 | one base domain with a leading space, and a routed name outside its project's wildcard |
| `EdgeDomains.EveryRouteIsCovered` | internal/reconciler/routes.go:376-402 | every name the edge routes with an ACME certificate, declared or generated, is covered by the plan made from those routes |
| `EdgeDomains.DeclaredAreRouted` | internal/reconciler/routes.go:376-402 | the routed names of a block with domains are exactly those domains, trimmed and in lower case |
| `EdgeDomains.GeneratedIsRouted` | internal/reconciler/routes.go:389-396 | a block without domains gets one generated name, for the first block and under a base domain only |
| `AcmeSync.Manager.Load` | internal/acme/acme.go:353-370 | the readable certificates by primary name, in whatever order the store lists them |
| `AcmeSync.Manager.Sync` | internal/acme/acme.go:175-241 | what is returned is what each request is to be served, sorted by name, and what is stored is what was obtained and saved; nothing when the store cannot be listed |
| `AcmeSync.AskedWhenDue` | internal/certsource/source.go:94-107 | a matching certificate is asked for again exactly once two thirds of its life have passed, or at its beginning when it has none |
| `AcmeSync.ServedIs` | internal/acme/acme.go:192-226 | a request gets what was newly obtained, else what is stored, else nothing |
| `AcmeSync.ExpiredIsAskedForIff` | internal/certsource/source.go:94-107 | a certificate past its end is asked for exactly when it has begun, and otherwise served only where the CA refused |
| `AcmeSync.BackwardsIsNotAskedFor` | internal/certsource/source.go:94-101 | one whose validity ends before it begins, expired and not asked for |
| `AcmeSync.OnceStoredAlwaysServed` | internal/acme/acme.go:208-226 | after any passes with any failures, a request whose name once had a readable certificate gets one for that name |
| `AcmeSync.IdleAfterCleanPass` | internal/acme/acme.go:186-206 | with distinct primary names, a pass after a fully successful one asks for nothing and serves the same certificates |
| `AcmeSync.AskedAgainIffNotSaved` | internal/acme/acme.go:219-225 | a certificate just obtained is asked for again by the next pass if and only if it was not saved |
| `AcmeSync.UnsavedIsAskedForAgain` | internal/acme/acme.go:219-225 | one certificate obtained, served and not saved, asked for again |
| `CertPass.Certificates.EmitChanges` | cmd/kanea/certs.go:271-296 | what has been said stays exactly what the history of sightings is worth saying |
| `CertPass.IssuedOnce` | cmd/kanea/certs.go:271-296 | over any history a name is reported issued once if it was ever sighted and never otherwise |
| `CertPass.SightingCounts` | cmd/kanea/certs.go:271-296 | a sighting is an issue when the name is new, a renewal exactly when its issue time is later than at the last sighting |
| `CertPass.VerdictLaw` | cmd/kanea/certs.go:271-296 | by position in the history: an issue when the name was never sighted before, a renewal when issued later than at its last sighting, nothing otherwise |
| `CertPass.EachGoesToOnePlace` | cmd/kanea/certs.go:167-182 | every returned certificate goes to exactly one of listener and bundle, by whether it is the listener's |
| `CertPass.Certificates.Sync` | cmd/kanea/certs.go:124-191 | one pass's sightings, failures, deliveries and published sets, up to a refused publication, and whether it succeeded |
| `CertPass.FailureStaysLocal` | cmd/kanea/certs.go:143-160 | a source that cannot run keeps its published set and every other source publishes what it returned |
| `Cidr.ContainsIffHas` | cmd/kanea/agent.go:1169-1171 | agreeing on the leading bits is being in the block |
| `Cidr.OverlapsIffShareAddress` | cmd/kanea/agent.go:1172-1182 | the overlap test holds if and only if some address is in both ranges |
| `Cidr.WithinIff` | cmd/kanea/agent.go:1169-1171 | the containment test holds if and only if every address of one range is in the other |
| `Cidr.CheckFamily` | cmd/kanea/agent.go:1151-1182 | one family is accepted if and only if its flags parse, node lies within cluster and neither meets the service range, address by address |
| `Cidr.ParseAgentCidrs` | cmd/kanea/agent.go:1149-1229 | the whole validation succeeds if and only if that holds for IPv4 and IPv6 is absent or satisfies it too |
| `Cidr.FamilyLaw` | cmd/kanea/agent.go:1151-1168 | IPv4 prefixes have up to 32 bits and IPv6 ones up to 128, and a block has the rest of the address |
| `Cidr.ResolverAddressIff` | cmd/kanea/agent.go:1338-1341 | the resolver's address is in the node range if and only if the range has more than one address |
| `Args.FlagSet.ParseArgs` | cmd/kanea/args.go:23-55 | the repeated parse ends with the assignments, positionals and failure of one left-to-right scan that stops at the first `--` |
| `Args.WithValue` | cmd/kanea/args.go:34-37 | a flag written with `=` and one or two dashes takes the value after it, if declared and taken |
| `Args.WithoutValue` | cmd/kanea/args.go:34-37 | without one a switch is turned on and any other flag takes the next argument |
| `Args.ParseThenScan` | cmd/kanea/args.go:34-41 | one parse is a prefix of the scan, failure included, and leaves a positional at the front |
| `Args.TakePositionals` | cmd/kanea/args.go:40-46 | a run of positionals is what the scan would take one by one |
| `Paging.List` | internal/store/bbolt.go:212-287 | a page is the run of records under the prefix from just past `after`, whether or not that key still exists, cut at the limit, with `more` exactly when the run goes on |
| `Paging.RangeIsMatching` | internal/store/bbolt.go:262-270 | in key order the records under a prefix are one run |
| `Paging.ListAll` | cmd/kanea/certs.go:388-402 | for every page size the loop ends with every record under the prefix, once, in key order |
| `Paging.CountKind` | cmd/kanea/backup.go:188-204 | the paged count is the size of the bucket |
| `Paging.SeedCooldowns` | cmd/kanea/scaling.go:125-169 | the cooldowns applied and the keys marked stale, over all pages and all live services |
| `Paging.LimitLaw` | internal/store/store.go:183-192 | a page holds what was asked for, at most 1000, and 100 when nothing was |
| `Paging.SeedingSplits` | cmd/kanea/scaling.go:144-157 | what is applied is exactly the readable records of live services, what is marked exactly the rest, one of the two for each record |

## Assumptions

- Durations: `Convert.Faithful` says that a duration Go prints parses back to itself; Go's `time` package is not
  part of this model.
- Restore: a rename, a file's creation and a transaction each happen entirely or not at all; a file being written
  is torn until it is flushed.
- Only a scale writes a cooldown record; any writer may delete one (cmd/kanea/scaling.go:108-117).
- An existing torn pre-migration copy is completed or refused, as the outcome of the compaction says; a finished one
  is refused, because its buckets exist.
- An upload reported as failed has left no object (`RecoveryLimits.UploadedTwiceIsRefused` says what one would do).
- A write the connection reports as failed has delivered nothing to the exec client.

## Left out

- HCL text: the generator writes and the converter reads the spec datatype; tokens, expressions, environment groups and diagnostics are not modelled.
- Validation: only the rules the converter's output depends on are stated, as `RoundTrip.Validated`.
- Function blocks: the generator's function form and its lowering are not modelled.
- Project-level fields the generator writes (git, notifications): only their presence, which decides a refusal.
- Case folding and trimming are those of ASCII; nil and empty lists are one value.
- `AcmeSync.Manager.Sync`: the renewal moment is two thirds of the life in integer arithmetic, not in floating point.
- `AcmePlan.WildcardCoversIffOneLabel`: compares names as written; `EdgeDomains` adds the edge's normalisation, without port stripping.
- `RestoreBoot.Node.Boot`: what a daemon serves from a torn file that bbolt accepts is not modelled; the file stays torn.
- `Tail.SeekToLastLines`: read errors and a file that grows during the scan are left out.
- `Exec.ReadExecOutput`: errors writing to the local terminal are left out; so is the client-to-server direction.
- `CertPass.Certificates.Sync`: which requests each source is given is not modelled, and the event sink is always present.
- `EdgeDomains.EveryRouteIsCovered`: which routes ask for an ACME certificate is not modelled.
- `Replication.Replicator.ShipOnce`: an upload that fails after landing, retention of old archives and the cursor's recovery from the sink after a restart are left out.
- `StateStore.Store.Apply`: the index does not wrap at 64 bits.
- `Paging.List`: reverse listing and records that do not decode are left out.
- `Cidr.ParseAgentCidrs`: the text of a prefix is taken as parsed.
- Backup manager: the reads it delegates, and the wait of `run` for the last replicator at shutdown.
- Concurrent protocols are modelled as interleaved steps over values, since Dafny methods run one at a time.
- HTTP handlers, the reconciler, the datapath, the edge proxy, authentication, notifications and the CLI's output.
