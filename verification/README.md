# Crash-safe core of the M5GO presence firmware, in Dafny

The firmware is a set of protocols that have to survive losing power at any
instruction, and of streaming codecs that decide what may be installed, deleted or
sent. This project models both and proves what they are for.

`dafny verify dfyconfig.toml` checks everything.

## What is modelled

**The install transaction** (`ota_*.dfy`). A durable install record, the bootloader's
slot states, the delayed validator of the main loop, the network worker and the mailbox
between the two cores form a two-phase commit. `OtaSystem` is the step system: every step
makes at most one durable change, any interleaving is a run, and `PowerLoss` may come
between any two steps. `OtaInvariant` and `OtaHistory` carry the induction,
`OtaSafety`, `OtaProgress` and `OtaOutcome` hold the results, `OtaWitness` two states that
are reached although one would not expect them. `OtaWorker` and `OtaMainLoop` are the worker,
the mailbox and the main loop's half of the handshake as objects: each method is tied to the
steps it performs and keeps the invariant of the whole system.

**The image stream** (`ota_sha256.dfy`, `ota_update.dfy`, `ota_manifest.dfy`).
Incremental SHA-256 against FIPS 180-4, the streaming updater, the canonical manifest.

**Store and forward** (`telemetry_*.dfy`, `label_*.dfy`, `spool_*.dfy`,
`ingest_ack.dfy`). The ring with slots reserved for transitions, immutable spool files,
acknowledgements, and the two stages of a human label, over a lossy and repeating network.
`telemetry_pipeline.dfy` and `label_pipeline.dfy` say what is never lost or sent too early,
`telemetry_places.dfy` when a record is in one place only, `telemetry_delivery.dfy` and
`label_delivery.dfy` that nothing is ever stuck. `spool_licence.dfy` connects the bytes of a
response with the deletion of a file.

**Durable registers** (`two_slot_store.dfy`, `crash_rotation.dfy`, `durable_records.dfy`,
`command_*.dfy`). Two slots and a marker as one atomic register, the generation-numbered
rotation of boot identities, and the one-shot command journal with the worker around it.

**The presence machine** (`presence.dfy`), with its worst-case screen-off time.

**Codecs** (`base64.dfy`, `core_dump_json.dfy`, `feedback_bundle.dfy`, `json_strings.dfy`,
`wire.dfy`).

Code that changes fields step by step is a class here too (validator, mailbox, worker,
hasher, updater, queue, journal, readers, parsers, `Preferences`, `PresenceLoop`). Each
method is tied to a function of the old state, and the results are about those functions.

## Assumptions about the environment

- An NVS blob or byte write leaves the old or the new value; its result may deny a write
  that happened, never confirm one that did not. In the two-slot stores and the rotation a
  slot write may also be torn into a blob that the decoder refuses. Reads are faithful.
- Selecting a slot makes it NEW, booting NEW makes it PENDING_VERIFY, and a slot that was
  tried without being confirmed, or rejected, gives way to the other one. The slot that is
  written is never the one that runs.
- An image digest fixes the version and the build id embedded in the image.
- The network loses, delays and repeats messages, and delivers only what was sent. The
  server keeps one record under (boot, sequence) and rejects, as a whole, a batch or a label
  that would replace one (`README.md:24-27`, backend/src/presence_api/service.py:270-420 and
  650-713); it also refuses a label whose sample it does not have.
- A file rename happens or does not, and its result may deny one that did. Boot ids do not
  repeat.

## What the proofs found

- A torn first save of a two-slot store turns "not stored" into "invalid stored data",
  although no value was lost. `TwoSlotStore.StatusIsAtomicExceptOnATornFirstSave` shows
  that this is the only case.
- A boot halts exactly when it could not inspect the running image; no crash leaves a
  record and a slot state that the policy cannot resolve
  (`OtaSafety.RecoveryHaltsOnlyWithoutInspection`).
- "A VALID candidate has its accepted and prepared record" is false of an inactive slot that
  keeps a VALID mark from an earlier life: `OtaWitness.StaleValidSlotIsNotPrepared` reaches such
  a state. It is true exactly of the slot selected for boot
  (`OtaSafety.ValidSlotIsPreparedExactlyWhenSelected`).
- `developmentCompletionCheck()` goes on healthy after a failed save
  (src/telemetry_uploader.cpp:1318-1330): the store may then hold an accepted transaction
  that memory does not know of (`OtaWitness.CompletionMayLeaveStoreAhead`), exactly when an
  acceptable upload's save happened and was denied (`OtaWitness.StoreIsAheadExactly`). The
  invariant has a case for it; safety holds nevertheless.
- A rename that happened but was reported as failed leaves the records in the queue as
  well as in the file, so a later, longer batch may overlap it
  (`TelemetryPlaces.BatchesMayOverlap`). That report is the only step that puts a record into
  two places (`TelemetryPlaces.StepKeepsApart`). Nothing is lost, and the idempotent server
  keeps one copy without a conflict (`TelemetryPipeline.NoBatchConflicts`).
- Main misses a snapshot of the worker exactly when whole cycles of the 32-bit version, which
  skips zero, went by since it looked last (`OtaMainLoop.MainLoop.RefreshOtaRuntime`).
- The screen-off bound cannot be lowered by more than a millisecond or two:
  `PresenceMachine.BoundIsTight` gives a run that still cools down two milliseconds before it.

## Model

| member | source | states |
|---|---|---|
| OtaInstallState.ClearPending | src/ota_install_state.cpp:152-165 | turns every record with a valid confirmed part into a valid one without a transaction, and leaves a closed valid record alone |
| OtaInstallState.StagePendingRelease | src/ota_install_state.cpp:247-279 | staged exactly when the record is valid, the counter rises within range and the target and texts are canonical; the confirmed part is kept |
| OtaInstallState.StagePendingDevelopmentImage | src/ota_install_state.cpp:281-297 | staged exactly on a valid record without a transaction; cancelling it gives the record back |
| OtaInstallState.MarkPendingImageAccepted | src/ota_install_state.cpp:299-319 | accepted exactly once, only for the staged address and a digest, after which the record matches that identity |
| OtaInstallState.MarkPendingValidated | src/ota_install_state.cpp:344-361 | prepared exactly for an accepted image, which as a release also has to be of the running build; nothing else changes |
| OtaInstallState.CancelPendingRelease | src/ota_install_state.cpp:332-336 | keeps validity and the confirmed part, closes a production transaction |
| OtaInstallState.CancelPendingDevelopmentImage | src/ota_install_state.cpp:338-342 | keeps validity and the confirmed part, closes a development transaction |
| OtaInstallState.ConfirmPendingDevelopmentImage | src/ota_install_state.cpp:363-377 | only a prepared development image; marks it as running and leaves the counter alone |
| OtaInstallState.ConfirmPendingRelease | src/ota_install_state.cpp:379-406 | only a prepared release of the running build; the counter rises to the staged one, the old release becomes the previous one, and with the running version too the record then describes the running image |
| OtaInstallCodec.InstallStateRoundTrip | src/ota_install_state.cpp:408-520 | every valid record is decoded back from its version-3 blob |
| OtaInstallCodec.LegacyRoundTrip | src/ota_install_state.cpp:453-520 | a version-2 blob gives back the record of the old firmware, its counter included |
| OtaBoot.OtaDelayedBootValidator.Start | src/ota_boot_validation.cpp:71-105 | begin() in place: waits for a rollback-pending image, has nothing to do for a stable one, refuses anything else |
| OtaBoot.OtaDelayedBootValidator.PollOnce | src/ota_boot_validation.cpp:107-142 | poll() in place, with the call into the bootloader that it makes |
| OtaBoot.OtaDelayedBootValidator.Confirm | src/ota_boot_validation.cpp:144-156 | confirmAfterPersistence() in place; confirms only while it awaits persistence |
| OtaBoot.AtMostOneBootCall | src/ota_boot_validation.cpp:107-156 | over any polls and confirmations of a boot the bootloader is called at most once: never twice, never for both a confirmation and a rollback |
| OtaBoot.WindowStaysHonest | src/ota_boot_validation.cpp:124-141 | an open health window began at a poll since which every poll was ready |
| OtaBoot.ConfirmsOnlyAfterUnbrokenHealth | src/ota_boot_validation.cpp:107-156 | an image is offered for confirmation, and confirmed, only after ready polls without interruption over 30 s |
| OtaWorker.OtaRuntimeMailbox.PublishBootValidationNotice | src/ota_runtime_mailbox.cpp:144-161 | a verdict is never overwritten; a request gives way to a verdict only |
| OtaWorker.OtaRuntimeMailbox.TakeBootValidationNotice | src/ota_runtime_mailbox.cpp:163-169 | hands the notice over once |
| OtaWorker.OtaRuntimeMailbox.PublishSnapshot | src/ota_runtime_mailbox.cpp:171-186 | accepts exactly the consistent snapshots, all their fields considered; the version counts the accepted ones and never reads as "none" |
| OtaWorker.OtaRuntimeMailbox.CopySnapshot | src/ota_runtime_mailbox.cpp:188-199 | a reader gets the snapshot that was accepted last, nothing exactly before the first, and what it gets is consistent |
| OtaWorker.Flash.SaveInstallState | src/ota_install_state.cpp:577-613 | stores a valid record or nothing, and reports success only for a record that is stored |
| OtaWorker.UploaderWorker.InitializeOtaRuntime | src/telemetry_uploader.cpp:1481-1636 | worker fields and store after the boot decision, for every record, image state and fate of the save |
| OtaWorker.UploaderWorker.ServiceBootNotice | src/telemetry_uploader.cpp:1660-1714 | preparation and promotion: memory follows the store, and a failed save makes the worker unhealthy |
| OtaWorker.UploaderWorker.FinishRollbackReport | src/telemetry_uploader.cpp:1638-1775 | a report is sent while it is owed, due, the network is up and it has a release id; the transaction is closed exactly when the backend took it, and the report stays owed until that is stored |
| OtaWorker.UploaderWorker.FailProductionRelease | src/telemetry_uploader.cpp:2107-2136 | a failed install cancels a staged record, and touches nothing when none was staged |
| OtaWorker.UploaderWorker.InstallDesiredRelease | src/telemetry_uploader.cpp:2260-2487 | every call is a run of the production steps and keeps the system invariant; it asks for the restart exactly when each gate and each write succeeded, and then the other slot is selected, holds the streamed image and has its accepted record |
| OtaWorker.UploaderWorker.DevelopmentSafetyAbortCheck | src/telemetry_uploader.cpp:1261-1292 | an upload goes on exactly behind a durable staged record for the inactive slot and without a reason to stop; each call is a run of the development steps and keeps the system invariant |
| OtaWorker.UploaderWorker.DevelopmentCompletionCheck | src/telemetry_uploader.cpp:1294-1343 | an upload is accepted exactly when the selected image was read back at the staged address and the acceptance was stored; the system invariant is kept |
| OtaWorker.UploaderWorker.CloseFailedDevelopment | src/telemetry_uploader.cpp:1777-1802 | a failed upload clears its record only while the running slot would boot again; once the candidate is selected nothing durable changes; the system invariant is kept |
| OtaMainLoop.MainLoop.RefreshOtaRuntime | src/main.cpp:1694-1714 | main's copy becomes the latest snapshot, unless whole cycles of the 32-bit version passed since the last look, in which case it stays; the system invariant is kept either way |
| OtaMainLoop.MainLoop.PollOtaBootValidation | src/main.cpp:1716-1770 | one poll of the trial is exactly the poll step, keeps the system invariant, and marks the running image VALID only behind its prepared record; a successful rollback restarts the device |
| OtaSafety.RunKeepsInvariant | src/telemetry_uploader.cpp:1515-1628 | the invariant of the transaction holds in every reachable state, power lost between any two durable writes |
| OtaInvariant.StepInv | src/telemetry_uploader.cpp:1660-1714 | each of the 21 steps, whatever its outcome, keeps the invariant |
| OtaInvariant.PollInv | src/main.cpp:1716-1770 | a validation poll keeps it: a confirmation is requested from the bootloader only behind a prepared record |
| OtaHistory.StepMovesRecord | src/ota_install_state.cpp:247-406 | a step leaves the record alone, keeps its confirmed part, or replaces it by its own completion behind a confirmed image |
| OtaHistory.StepMovesSelection | src/ota_update.cpp:367-391 | a step confirms the selected, prepared image, or confirms nothing and spares the slot that the record speaks about |
| OtaHistory.StepHistory | src/ota_boot_policy.cpp:5-54 | the record stays the confirmed transaction or its completion |
| OtaSafety.OnlyPreparedImagesAreConfirmed | src/main.cpp:1716-1770 | a slot becomes VALID only while it runs, with a durable record that is the accepted and prepared transaction for its exact address and digest |
| OtaSafety.ConfirmedImageHasItsRecord | src/telemetry_uploader.cpp:1550-1592 | from a confirmation on, the record is that transaction or its completed promotion |
| OtaSafety.ValidSlotIsPreparedExactlyWhenSelected | src/ota_boot_policy.cpp:26-42 | after any run, a VALID slot that the open record names has its accepted and prepared record if and only if it is the slot selected for boot, and then that record is the confirmed transaction |
| OtaWitness.StaleValidSlotIsNotPrepared | src/telemetry_uploader.cpp:1261-1292 | on any updated device a run reaches a VALID slot that the open record names without being prepared |
| OtaWitness.CompletionMayLeaveStoreAhead | src/telemetry_uploader.cpp:1294-1343 | on any such device a run ends with an accepted upload in the store that the healthy worker does not know of |
| OtaWitness.StoreIsAheadExactly | src/telemetry_uploader.cpp:1294-1343 | after any run, finishing an upload leaves store and memory different if and only if it was acceptable and its save happened but was reported as failed |
| OtaSafety.RecoveryHaltsOnlyWithoutInspection | src/ota_boot_policy.cpp:5-54 | after any run the boot policy halts if and only if the running image could not be inspected |
| OtaSafety.CounterRisesOnlyByPromotion | src/ota_install_state.cpp:379-406 | the confirmed counter changes only while the selected slot runs, is confirmed, and has the prepared transaction for its digest; it becomes the staged counter, and the record then describes that image |
| OtaSafety.CounterNeverFalls | src/ota_install_state.cpp:247-406 | the confirmed counter never decreases over any run and any number of reboots |
| OtaSafety.RollbackTargetIsUntouched | src/ota_update.cpp:367-391 | while the selected image is on trial the other slot is stable, and no step changes it |
| OtaSafety.AlwaysBootable | src/ota_boot_validation.cpp:10-64 | from every reachable state the next boot runs a stable image or one on trial, and the boot after an interrupted trial a stable one |
| OtaProgress.StepProgress | src/telemetry_uploader.cpp:1515-1628 | no failure-free step raises the rank, and the step that is due lowers it |
| OtaProgress.RunProgress | src/telemetry_uploader.cpp:1660-1714 | a failure-free run lowers the rank by at least its number of due steps |
| OtaProgress.SomethingIsDue | src/main.cpp:1716-1770 | while a transaction is open some step is due: it is never stuck |
| OtaProgress.FailureFreeRunsSettle | src/telemetry_uploader.cpp:1638-1775 | after any history and a power loss, a failure-free run with at most 24 due steps closes the transaction on a stable image |
| OtaOutcome.TrialOutcome | src/ota_boot_policy.cpp:5-54 | after any history that selected a candidate, failure-free boots end with the candidate confirmed and its release promoted if and only if it is the recorded image with the recorded build; otherwise the other slot runs untouched under the release confirmed before |
| Sha256.OtaSha256.Clear | src/ota_crypto.cpp:71-84 | the initial hash value, an empty buffer and an empty message |
| Sha256.OtaSha256.PrepareSchedule | src/ota_crypto.cpp:147-166 | the 64 words of the message schedule of FIPS 180-4 |
| Sha256.OtaSha256.Transform | src/ota_crypto.cpp:147-201 | one compression of FIPS 180-4 |
| Sha256.OtaSha256.Update | src/ota_crypto.cpp:86-115 | appends to the message absorbed so far, unless finished or beyond 64 bits |
| Sha256.OtaSha256.Finish | src/ota_crypto.cpp:117-145 | the one-shot hash of everything absorbed, exactly when the bit length fits 64 bits |
| Sha256.PaddingInTwo | src/ota_crypto.cpp:124-138 | padding over one block or two is the padding of section 5.1.1 |
| Sha256.FoldConcat | src/ota_crypto.cpp:86-115 | folding blocks piece by piece is folding them at once |
| Sha256.HashPieces | src/ota_crypto.cpp:86-145 | however a message is cut into pieces, the digest is that of the whole |
| OtaUpdate.SectorBoundedChunkSize | src/ota_update.cpp:122-134 | the largest chunk that stays in its flash sector, within what is available and missing |
| OtaUpdate.OtaStreamUpdater.Begin | src/ota_update.cpp:171-202 | starts exactly for a verified release, a complete backend and a backend that accepts, never over a running update; each refusal has its own error and leaves the updater failed |
| OtaUpdate.OtaStreamUpdater.Write | src/ota_update.cpp:204-235 | appends to what the backend was handed, exactly when the chunk fits and is written whole |
| OtaUpdate.OtaStreamUpdater.Finish | src/ota_update.cpp:237-263 | ready to reboot if and only if the bytes handed over, in order, have the promised length and SHA-256 |
| OtaUpdate.OtaStreamUpdater.Abort | src/ota_update.cpp:265-273 | aborts a running update once and never undoes a finished one |
| OtaUpdate.OtaStreamUpdater.Fail | src/ota_update.cpp:283-289 | aborts the backend only while writing |
| OtaUpdate.DisciplinedAlways | src/ota_update.cpp:171-289 | at every moment at most one abort since the latest begin, and none after a successful finish |
| OtaManifests.ParseOfSerialize | src/ota_manifest.cpp:114-193 | every manifest in range parses back from its wire form |
| OtaManifests.SerializeOfParse | src/ota_manifest.cpp:114-193 | serialising an accepted parse gives the same bytes |
| OtaManifests.OneSpelling | src/ota_manifest.cpp:114-193 | two byte strings never parse to the same manifest |
| OtaManifests.Reader.ReadTextField | src/ota_manifest.cpp:56-78 | the cursor over a length-prefixed canonical text |
| OtaManifests.Reader.ReadDigestField | src/ota_manifest.cpp:80-94 | the cursor over a length-prefixed digest |
| OtaManifests.ParseOtaManifest | src/ota_manifest.cpp:114-193 | the cursor parser computes that parse, its first error included |
| TelemetryQueues.TelemetryQueue.Push | src/telemetry.cpp:28-47 | appends, or refuses a sample beyond 112 records or in critical mode, or a transition behind at least eight queued transitions; at most 112 samples are ever queued |
| TelemetryQueues.TelemetryQueue.CopyPrefix | src/telemetry.cpp:73-86 | the oldest records, in order, and nothing else of the output |
| TelemetryQueues.TelemetryQueue.CommitPrefix | src/telemetry.cpp:88-115 | removes a prefix if and only if every record of it still is the one that was copied |
| TelemetryQueues.TelemetryQueue.HasCritical | src/telemetry.cpp:124-135 | whether a transition is queued |
| TelemetryQueues.ContiguousRevisionPrefix | src/telemetry.cpp:3-14 | the length of the longest prefix with one configuration revision |
| TelemetryQueues.LongestPrefix | src/telemetry.cpp:3-14 | that prefix has one revision and no longer one does |
| SpoolWorkers.UploaderWorker.FreezeQueueIfNeeded | src/telemetry_uploader.cpp:3116-3221 | freezes exactly when there is room, the applied configuration covers the records and the batch is full, ends at a revision boundary, is forced or has waited 30 s; the prefix is the one the step says, spool bounds and pipeline invariant are kept |
| SpoolWorkers.UploaderWorker.HandleTelemetryResponse | src/telemetry_uploader.cpp:3753-3947 | each status leads to its action; a file leaves the spool only with all its records on the server or unchanged into the dead letters, and every outcome is a run of the pipeline steps |
| SpoolWorkers.UploaderWorker.MoveToDeadLetter | src/telemetry_uploader.cpp:3571-3604 | makes room by removing old dead letters, replaces one of the same name and moves the file, each of which may fail; the file is moved unchanged or stays, within the limit of dead letters |
| TelemetryPipeline.RunKeepsInvariant | src/telemetry_uploader.cpp:3116-3221 | the pipeline invariant over every run |
| TelemetryPipeline.NothingVanishes | src/telemetry_uploader.cpp:3116-3221 | every record the queue stored is in RAM, in a spool file, dead-lettered or evicted from there, acknowledged, or was in RAM at a power loss |
| TelemetryPipeline.PowerLossDropsOnlyRam | src/telemetry_uploader.cpp:3116-3221 | power loss loses exactly the RAM queue |
| TelemetryPipeline.AcknowledgedIsStored | src/telemetry_uploader.cpp:3753-3947 | what was acknowledged is on the server unaltered, and the server holds nothing else |
| TelemetryPipeline.FilesLeaveOnlyAcknowledged | src/telemetry_uploader.cpp:3753-3947 | a file stays unchanged, or leaves to the dead letters, or behind its own acknowledgement with all its records on the server |
| TelemetryPipeline.BatchesAreUniform | src/telemetry.cpp:3-14 | every file holds records of one boot and one revision, within the batch limit, under the name that says which |
| TelemetryPipeline.NameDeterminesContent | src/spool_name.cpp:45-78 | a spool name belongs to one content |
| TelemetryPipeline.NoBatchConflicts | src/telemetry_uploader.cpp:3753-3947 | no batch that the device sends from a reachable state conflicts with what the server has, so none is ever rejected |
| TelemetryPlaces.StepKeepsApart | src/telemetry_uploader.cpp:3116-3221 | a step keeps RAM, files and dead letters disjoint if and only if it is not a freeze whose rename happened and was reported as failed |
| TelemetryPlaces.EveryRecordInOnePlace | src/telemetry_uploader.cpp:3116-3221 | over every run without such a report each record is in one place only |
| TelemetryPlaces.BatchesMayOverlap | src/telemetry_uploader.cpp:3116-3221 | a run with such a report that puts one record into two spool files |
| TelemetryDelivery.EverythingCanBeDelivered | src/telemetry_uploader.cpp:3753-3947 | from every reachable state a schedule of successful operations empties queue and spool, with each of those records unaltered on the server and nothing more dead-lettered or lost |
| LabelWorkers.UploaderWorker.FreezeFeedbackQueueIfNeeded | src/telemetry_uploader.cpp:3223-3343 | the oldest correction gets a bundle in the first stage, unless the stages are full; one that has a bundle is taken off the queue once that bundle proved readable |
| LabelWorkers.UploaderWorker.UploadOneFeedbackWait | src/telemetry_uploader.cpp:3949-4079 | status, conflict probe and state of the bundle decide: it advances only behind the acknowledgement of its own batch, is dead-lettered only when condemned, and stays otherwise; the invariants of the stages are kept |
| LabelWorkers.UploaderWorker.UploadOneFeedbackReady | src/telemetry_uploader.cpp:4081-4195 | status and state of the bundle decide: it is removed only when the answer echoes its record, is dead-lettered only when condemned, and stays otherwise; the invariants of the stages are kept |
| LabelWorkers.HonestLabelsAreEchoed | src/telemetry_uploader.cpp:4081-4195 | a label posted from a reachable state is echoed and never refused, so no honest bundle is condemned by the server |
| LabelPipeline.RunKeepsInvariant | src/telemetry_uploader.cpp:3223-3343 | the invariant of the label stages over every run |
| LabelPipeline.NoDanglingLabels | src/telemetry_uploader.cpp:3949-4195 | a posted label's own sample is on the server, so no label is ever refused, and what is stored is the correction as it was made |
| LabelPipeline.LabelsAreStoredOnce | src/telemetry_uploader.cpp:4081-4195 | lost responses, repeats and re-created bundles included, each key is stored once, and what was acknowledged is stored |
| LabelPipeline.PostedOnlyAfterItsOwnAck | src/telemetry_uploader.cpp:3949-4195 | over every run, each correction that is ready or was posted has had its own one-record batch acknowledged before |
| LabelPipeline.NoLabelVanishes | src/telemetry_uploader.cpp:3606-3643 | every correction is queued, in a stage, stored, dead-lettered, or was in RAM at a power loss |
| LabelDelivery.EveryLabelCanBeDelivered | src/telemetry_uploader.cpp:3949-4195 | from every reachable state a schedule of successful operations brings each held correction to the server under its own identity |
| SpoolNames.ParseFixedHex | src/spool_name.cpp:25-41 | accepts exactly lower-case hex, with its value |
| SpoolNames.HexOrder | src/spool_name.cpp:45-78 | fixed-width hex sorts like the numbers it writes |
| SpoolNames.ParseOfPath | src/spool_name.cpp:80-119 | a built name gives its metadata back from any directory |
| SpoolNames.PathOfParse | src/spool_name.cpp:80-119 | an accepted name is the one that its metadata builds |
| SpoolNames.PathOrder | src/spool_name.cpp:45-78 | byte order of paths is the order of (boot id, first sequence, last sequence, count) |
| SpoolNames.FindNextSpool | src/telemetry_uploader.cpp:3020-3046 | the earliest of the canonical names, and none exactly when there is no such name |
| SpoolNames.ActualOf | src/feedback_spool_name.cpp:73-83 | exactly the two codes, each inverse to its letter |
| SpoolNames.ObservedOf | src/feedback_spool_name.cpp:99-116 | exactly the four codes, each inverse to its letter |
| SpoolNames.FeedbackRoundTrip | src/feedback_spool_name.cpp:118-259 | a correction comes back whole from its file name, in either stage |
| SpoolNames.FeedbackNameOfParse | src/feedback_spool_name.cpp:181-233 | an accepted feedback name is the one that its record builds |
| IngestAcks.AcceptsExactlyTheAcknowledgements | src/ingest_ack.cpp:41-108 | a response is accepted if and only if it is a spelling of an object with the six fields, each once, that names the expected batch and sums up to its count |
| IngestAcks.LicensesOneBatchOnly | src/ingest_ack.cpp:80-108 | no response is accepted under two different expectations |
| IngestAcks.AckParser.ParseProtocolString | src/ingest_ack.cpp:160-184 | the cursor over a plain quoted text |
| IngestAcks.AckParser.ParseUnsignedInteger | src/ingest_ack.cpp:186-223 | the cursor over a canonical decimal; a sign, a leading zero, an overflow and a fraction each have their error |
| IngestAcks.AckParser.ParseMember | src/ingest_ack.cpp:111-158 | one member, with the first error of its key, its field or its value |
| IngestAcks.AckParser.ParseField | src/ingest_ack.cpp:111-158 | unknown and repeated fields are told apart before the value is read, and the value goes into its field |
| IngestAcks.ParseIngestAck | src/ingest_ack.cpp:276-285 | the cursor parser accepts exactly those responses, with their numbers, and gives every other one its first error |
| SpoolLicence.OneResponseOneFile | src/telemetry_uploader.cpp:3753-3947 | no response licenses the removal of two different spool files |
| SpoolLicence.ReaderDecidesTheLicence | src/ingest_ack.cpp:80-108 | whatever acknowledgement a response spells, the reader accepts it for a file if and only if that acknowledgement licenses the name of the file in the pipeline |
| SpoolLicence.DeletedOnlyWhenStored | src/telemetry_uploader.cpp:3753-3947 | over every run, when the bytes of a delivered response are accepted for a spool file, the removal is a step of the pipeline and the server holds every record of the file |
| TwoSlotStore.Selected | src/device_config_storage.cpp:223-243 | a readable slot, and none exactly when no slot is readable |
| TwoSlotStore.SaveIsAtomic | src/device_config_storage.cpp:293-340 | a save cut off anywhere leaves the old or the new record, the new one once it reported success, and refuses without a write |
| TwoSlotStore.SelectedSlotIsNeverWritten | src/command_journal.cpp:460-494 | the slot that holds the current record is not written |
| TwoSlotStore.StatusIsAtomicExceptOnATornFirstSave | src/device_config_storage.cpp:245-291 | the load status is that of the old or the new record if and only if the save was not a torn write into an empty store |
| TwoSlotStore.RunsAreLinearizable | src/command_journal.cpp:401-494 | over any saves a load gives the initial or a saved record, never older than the latest success |
| TwoSlotStore.ConfigRoundTrips | src/device_config_storage.cpp:94-170 | the configuration store meets what the register needs of its codec |
| TwoSlotStore.JournalRoundTrips | src/command_journal.cpp:281-358 | so does the journal store |
| TwoSlotStore.Preferences.SaveRecord | src/device_config_storage.cpp:293-340 | the save in place, with the cut at any point |
| DurableRecords.UnsealOfSeal | src/device_config_storage.cpp:94-170 | an envelope opens to what was sealed |
| DurableRecords.SealOfUnseal | src/device_config_storage.cpp:131-170 | nothing but a sealing opens |
| DurableRecords.CrashContextRoundTrip | src/crash_context.cpp:221-290 | every valid crash context is decoded back |
| DurableRecords.JournalRoundTrip | src/command_journal.cpp:281-358 | every valid journal record is decoded back |
| DurableRecords.ConfigRoundTrip | src/device_config_storage.cpp:94-170 | every valid configuration is decoded back |
| DurableRecords.ConfigIsCanonical | src/device_config_storage.cpp:131-170 | a configuration has one spelling |
| CrashRotation.WriteEffect | src/crash_context.cpp:180-196 | a write and its verification change one slot, and report success only for what is stored |
| CrashRotation.RotationNeverGuesses | src/crash_context.cpp:395-511 | one boot, failing anywhere: the slots track the latest durable identity, whoever is reported is that one, and a success reports it exactly when both slots were readable |
| CrashRotation.RunsTrackTheLatestBoot | src/crash_context.cpp:395-511 | over any boots the slots track the latest boot whose write became durable |
| CrashRotation.AttributionIsExact | src/crash_context.cpp:395-511 | a dump is attributed to that boot or to nobody, and after a success the next boot reports it |
| CrashRotation.SuccessRepairs | src/crash_context.cpp:395-511 | from any content one success leaves readable slots that agree on the newest boot |
| CrashRotation.CrashContextStorage.RotateInPlace | src/crash_context.cpp:395-511 | the rotation on the slots themselves |
| CommandJournals.Consider | src/command_journal.cpp:225-256 | a new command is accepted only over a finished one with another id; a known id is a replay |
| CommandJournals.Transition | src/command_journal.cpp:258-279 | the status moves exactly along accepted, running, final |
| CommandJournals.StatusOnlyMovesForward | src/command_journal.cpp:225-279 | over any calls a record keeps its identity and a final status stays, until a new command is accepted |
| CommandJournals.CommandJournal.ConsiderCommand | src/command_journal.cpp:225-256 | consider() in place |
| CommandJournals.CommandJournal.MakeTransition | src/command_journal.cpp:258-279 | transition() in place |
| CommandProtocol.RunKeepsInvariant | src/telemetry_uploader.cpp:591-638 | worker and store agree on the acceptance, in every reachable state |
| CommandProtocol.EffectsFollowTheJournal | src/telemetry_uploader.cpp:842-908 | a side effect starts only behind a durable RUNNING record of its own acceptance, and each acceptance starts it at most once |
| CommandProtocol.JournalMovesForward | src/telemetry_uploader.cpp:759-798 | the stored record moves forward, or to a later acceptance once it was final |
| CommandProtocol.InterruptedCommandFails | src/command_journal.cpp:171-179 | after a reset an unfinished command is stored as failed and goes on to its final acknowledgement |
| CommandProtocol.InterruptedCommandNeverRunsAgain | src/telemetry_uploader.cpp:591-638 | whatever follows a power loss, no earlier acceptance starts |
| CommandProtocol.AcknowledgementsAreDurable | src/telemetry_uploader.cpp:950-1033 | while storage works, what is acknowledged is the stored record, and the final acknowledgement tells a final status |
| CommandProtocol.NewCommandIsStored | src/telemetry_uploader.cpp:1035-1079 | an idle, healthy worker makes a new command durable, and owes its first acknowledgement |
| CommandProtocol.StoredCommandEnds | src/telemetry_uploader.cpp:842-1033 | a stored command runs once, unless it is refused, and its verdict becomes durable |
| CommandProtocol.CommandRunsToTheEnd | src/telemetry_uploader.cpp:842-1079 | when nothing fails a new command is stored, started exactly once unless refused, finished with its verdict and acknowledged, and the worker is idle again or restarting |
| CommandWorkers.ExecutionOf | src/telemetry_uploader.cpp:842-908 | a command is handed to the main loop exactly when it is one for it, there is a mailbox that takes it, the server time is known and the command has not expired |
| CommandWorkers.VerdictOf | src/telemetry_uploader.cpp:910-948 | a handed command ends when a result comes or its time is up, as succeeded exactly on a success that names it, for the development window once that window opened |
| CommandWorkers.UploaderWorker.InitializeCommandJournal | src/telemetry_uploader.cpp:591-638 | exactly the boot step, with the invariant of the protocol |
| CommandWorkers.UploaderWorker.ExecuteCurrentCommand | src/telemetry_uploader.cpp:842-908 | the execution step with the outcome that command and circumstances fix; the record keeps speaking of the same command |
| CommandWorkers.UploaderWorker.ServiceCommandAcknowledgement | src/telemetry_uploader.cpp:950-1033 | the acknowledgement step, with the invariant of the protocol; what is executed is the command in RAM, which is the one in the journal |
| CommandWorkers.UploaderWorker.HandlePolledCommand | src/telemetry_uploader.cpp:1035-1079 | the poll step, with the invariant of the protocol: an open command is never replaced |
| CommandWorkers.UploaderWorker.ServiceMainControlResult | src/telemetry_uploader.cpp:910-948 | the result step with the verdict that the main loop's answer, or its silence, leads to, and the invariant of the protocol |
| PresenceMachine.PresenceLoop.EnterState | src/main.cpp:696-704 | a state change restarts its clock, re-entry does not |
| PresenceMachine.PresenceLoop.SampleMicrophone | src/main.cpp:876-879 | sound holds presence only within the bridge after motion, and never while idle |
| PresenceMachine.PresenceLoop.ReadUserInput | src/main.cpp:1040-1123 | a press wakes, a correction to absent changes nothing but skips the update |
| PresenceMachine.PresenceLoop.UpdatePresenceState | src/main.cpp:1141-1206 | the state machine in place |
| PresenceMachine.PresenceLoop.LoopOnce | src/main.cpp:2086-2120 | one pass of the loop |
| PresenceMachine.SoundAloneNeverLeavesIdle | src/main.cpp:1158-1166 | sound alone never leaves IDLE |
| PresenceMachine.ScreenOffBound | src/main.cpp:1141-1206 | without motion or buttons after T the machine is IDLE by T + max(pirHold, maxSoundBridge + max(minimumOn, soundHold)) + cooldown + two loop gaps, whatever is heard |
| PresenceMachine.MotionHoldsPresence | src/main.cpp:1141-1206 | after motion or a press the machine is PRESENT for the whole hold time, and not IDLE before the cool-down has passed as well |
| PresenceMachine.BoundIsTight | src/main.cpp:1168-1203 | a run that is still cooling down two milliseconds before that |
| Base64.EncodePaddedConcat | src/core_dump_json.cpp:26-61 | encoding in pieces of three bytes is encoding the whole |
| Base64.EncodeBase64 | src/core_dump_json.cpp:26-61 | the padded encoding in the buffer, or 0 when it does not fit |
| Base64.DecodeIsInverse | src/provisioning_protocol.cpp:163-277 | a text decodes to bytes if and only if it is their encoding |
| Base64.EncodeOfDecode | src/provisioning_protocol.cpp:213-277 | an accepted text is the encoding of its bytes: the zero-trailing-bits rule leaves one spelling |
| Base64.DecodeBase64Url | src/provisioning_protocol.cpp:213-277 | the decoder in place, with every error case |
| CoreDumpJson.CoreDumpJsonReader.FillBase64 | src/core_dump_json.cpp:165-183 | refills the buffer without changing what is left to read |
| CoreDumpJson.CoreDumpJsonReader.Read | src/core_dump_json.cpp:116-156 | hands out the next bytes of the body, as many as asked for or left, and fails only on an unreadable dump |
| CoreDumpJson.CoreDumpJsonReader.Available | src/core_dump_json.cpp:158-163 | the number of bytes left |
| CoreDumpJson.ReadAll | src/core_dump_json.cpp:72-183 | every sequence of read capacities yields a prefix of prefix + padded Base64 + suffix, of the full asked length |
| CoreDumpJson.WriteCoreDumpJson | src/core_dump_json.cpp:185-204 | the write loop ends, and succeeds only with the whole body in the sink |
| FeedbackBundles.FrameCrcIsWhole | src/feedback_bundle.cpp:34-44 | the checksum over pieces is the CRC-32 of the whole |
| FeedbackBundles.ValidateOfFrame | src/feedback_bundle.cpp:93-207 | a frame gives back exactly its two bodies |
| FeedbackBundles.FrameOfValidate | src/feedback_bundle.cpp:140-207 | an accepted file is the frame of its own slices |
| FeedbackBundles.EncodeFeedbackBundle | src/feedback_bundle.cpp:93-138 | the frame in front of the output, or an error and an untouched output |
| FeedbackBundles.ValidateFeedbackBundle | src/feedback_bundle.cpp:186-207 | the validation with its incremental checksum |
| JsonStrings.RawCheckIsExact | src/dashboard_data.cpp:723-767 | the raw-byte check accepts exactly the well-formed encodings of non-ASCII scalars |
| JsonStrings.PairIsUtf16 | src/dashboard_data.cpp:676-703 | a surrogate pair is read as the one scalar that UTF-16 gives it |
| JsonStrings.AcceptsExactlyTheGrammar | src/dashboard_data.cpp:612-674 | a string is accepted if and only if it is a quoted sequence of well-formed characters, and in one way |
| JsonStrings.DecodedString.AppendCodePoint | src/dashboard_data.cpp:769-797 | appends the UTF-8 encoding of the scalar |
| JsonStrings.Parser.ReadUnicodeEscape | src/dashboard_data.cpp:676-703 | one escape, or a pair, in place |
| JsonStrings.Parser.ParseString | src/dashboard_data.cpp:612-674 | what is accepted was decoded to well-formed UTF-8 of the characters the grammar gives |
| JsonStrings.KeepsExactlyTheFittingStrings | src/dashboard_data.cpp:587-603 | a string is kept if and only if the bytes spell one whose characters fit the buffer and are not NUL, and what is kept is their UTF-8 encoding |
| JsonStrings.ParseRetainedString | src/dashboard_data.cpp:587-603 | that string in the destination, terminated, or its error and an untouched destination |
| Wire.GetOfPut | src/crash_context.cpp:92-128 | little-endian integers come back |
| Wire.GetBeOfPut | src/ota_manifest.cpp:22-54 | big-endian integers come back |
| Wire.CrcComposes | src/feedback_bundle.cpp:34-44 | the checksum of a split input is that of the whole |
| Wire.BitByMask | src/feedback_bundle.cpp:34-44 | the branch-free bit step is the reflected CRC step |
| Wire.ComputeCrcUpdate | src/feedback_bundle.cpp:34-44 | the nested loops compute the CRC-32 |

## Left out

- OtaWorker.UploaderWorker.InstallDesiredRelease: fetching and verifying the bundle, reporting, and the checks of queues and health before the transfer are one free input; the signature verifier is opaque.
- OtaWorker.UploaderWorker.FinishRollbackReport: the report itself and its retry schedule are inputs; a failed save leaves it owed until the next boot, as in the source.
- OtaProgress.FailureFreeRunsSettle: assumes that the image inspection succeeds and that the backend acknowledges a rollback report; it counts due steps and says nothing about wall-clock time beyond the 30 s window.
- OtaOutcome.TrialOutcome: holds under the same assumptions; a trial that loses power before the confirmation is given up by the bootloader, whatever the image.
- OtaWorker.UploaderWorker.DevelopmentSafetyAbortCheck: the ArduinoOTA window, the queue guard and the safety measurements are free inputs.
- Sha256.OtaSha256.Finish: the digest bytes are a function of the state words, not the shift loop that writes them.
- OtaUpdate.OtaStreamUpdater.Write: its null-pointer checks have no counterpart.
- OtaManifests.ParseOtaManifest: size_t overflow of lengths is not modelled; lengths are integers.
- TelemetryDelivery.EverythingCanBeDelivered: says that a schedule of successful operations exists from every state, not that the network ever offers it.
- TelemetryQueues.TelemetryQueue.Push: the measured values of a record are one opaque payload, and the lock is taken to exclude the other core.
- SpoolWorkers.UploaderWorker.FreezeQueueIfNeeded: the JSON text of a batch and its clock anchor are not modelled, nor are envelopes that are found empty or too large.
- SpoolWorkers.UploaderWorker.MoveToDeadLetter: the directory decides which dead letter is the oldest, and those of the labels, which share the limit, are counted elsewhere.
- LabelPipeline.NoDanglingLabels: a bundle is the correction it was made from; its frame and its two JSON bodies are modelled in FeedbackBundles and not again here.
- LabelWorkers.UploaderWorker.UploadOneFeedbackWait: back-off times are left out, and the touch queue is a sequence.
- DurableRecords.CrashContextRoundTrip: one direction only; the source does not force canonical padding of the text fields, so a refused inverse would be false. The same holds for the journal and the install record.
- DurableRecords.ConfigRoundTrip: the encoders are functions on values here, not loops over a caller's buffer.
- CommandProtocol.EffectsFollowTheJournal: counts acceptances, not command ids; a finished record may be replaced before its final acknowledgement, so one id may be accepted again later in the device's life.
- PresenceMachine.ScreenOffBound: the configuration is fixed; envelope, noise floor and thresholds are a free `heard` input, and diagnostics mode counts as no button.
- FeedbackBundles.EncodeFeedbackBundle: null pointers and overlapping buffers are not modelled.
- JsonStrings.ParseRetainedString: numbers, objects and arrays of the dashboard documents are not modelled.
- Wi-Fi, HTTP, SNTP, watchdog, LittleFS, NVS and flash drivers are environment steps under the assumptions above.
- Display, serial output, ADC sampling, sensor health, the adaptive sampling interval, retry policies, operational log and the dashboard, health and config mailboxes would add easy members.
- The backend's checks of batch ids, clock anchors and configuration revisions are not part of the server model, which compares records by their key.
- The other acknowledgement parsers and JSON writers are near copies of what is modelled.
