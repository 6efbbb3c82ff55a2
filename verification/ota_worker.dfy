/** The two mutable halves of the handshake as objects: the mailbox between the
  * cores (src/ota_runtime_mailbox.cpp) and the OTA part of the network worker
  * (src/telemetry_uploader.cpp). Every method is tied to the step it performs,
  * so what is proved of the steps holds of the objects.
  */
module OtaWorker {
  import opened Bytes
  import opened OtaInstallState
  import opened OtaBoot
  import opened OtaSystem
  import opened OtaInvariant

  /** OtaRuntimeSnapshot: the flags of the handshake, and what the display shows
    * beside them. A `char` array without a NUL is a text of full capacity. */
  datatype RuntimeSnapshot = RuntimeSnapshot(
    handshake: Snapshot,
    completedBytes: nat, totalBytes: nat, remainingMs: nat, windowOpen: bool,
    invalidWindows: nat, totalWindows: nat, consecutiveInvalidWindows: nat,
    localIp: string, hostname: string, releaseId: string)

  predicate RuntimeSnapshotIsValid(s: RuntimeSnapshot) {
    && |s.localIp| < 16 && |s.hostname| < 33 && |s.releaseId| < RELEASE_ID_CAPACITY
    && s.completedBytes <= s.totalBytes
    && s.invalidWindows <= s.totalWindows && s.consecutiveInvalidWindows <= s.totalWindows
    && SnapshotIsValid(s.handshake)
    && (s.windowOpen ==> s.remainingMs != 0)
  }

  /** The version after n accepted publications: it skips zero when it wraps. */
  function VersionAfter(n: nat): (v: nat)
    ensures v < U32_LIMIT && (v == 0 <==> n == 0)
  {
    if n == 0 then 0 else (n - 1) % (U32_LIMIT - 1) + 1
  }

  lemma NextVersion(n: nat)
    ensures VersionAfter(n + 1) == if VersionAfter(n) + 1 == U32_LIMIT then 1 else VersionAfter(n) + 1
  {
    if n > 0 {
      var q, r := (n - 1) / (U32_LIMIT - 1), (n - 1) % (U32_LIMIT - 1);
      assert n == q * (U32_LIMIT - 1) + (r + 1);
      if r + 1 == U32_LIMIT - 1 {
        assert n == (q + 1) * (U32_LIMIT - 1);
        Remainder(q + 1, 0);
      } else {
        Remainder(q, r + 1);
      }
    }
  }

  lemma Remainder(q: nat, r: nat)
    requires r < U32_LIMIT - 1
    ensures (q * (U32_LIMIT - 1) + r) % (U32_LIMIT - 1) == r
  {
  }

  /** Two publications share a version exactly when a whole cycle lies between them. */
  lemma SameVersion(m: nat, n: nat)
    requires 0 < m <= n
    ensures VersionAfter(m) == VersionAfter(n) <==> (n - m) % (U32_LIMIT - 1) == 0
  {
    var c := U32_LIMIT - 1;
    var p, i := (m - 1) / c, (m - 1) % c;
    var q, j := (n - 1) / c, (n - 1) % c;
    assert n - m == (q - p) * c + (j - i);
    if i == j {
      Remainder(q - p, 0);
    } else if j > i {
      Remainder(q - p, j - i);
    } else {
      assert n - m == (q - p - 1) * c + (c + j - i);
      Remainder(q - p - 1, c + j - i);
    }
  }

  class OtaRuntimeMailbox {
    var bootNotice: Notice
    var snapshot: RuntimeSnapshot
    var version: nat
    var snapshotInitialized: bool
    // Everything that was accepted, in order.
    ghost var published: seq<RuntimeSnapshot>

    ghost predicate Valid()
      reads this`snapshot, this`version, this`snapshotInitialized, this`published
    {
      && (forall i :: 0 <= i < |published| ==> RuntimeSnapshotIsValid(published[i]))
      && (snapshotInitialized <==> published != [])
      && (published != [] ==> snapshot == published[|published| - 1])
      && version == VersionAfter(|published|)
    }

    /** The handshake part of the latest snapshot. */
    ghost function Latest(): Snapshot
      reads this`published
    {
      if published == [] then NO_SNAPSHOT else published[|published| - 1].handshake
    }

    constructor ()
      ensures Valid() && bootNotice == NoNotice && published == []
    {
      bootNotice, version, snapshotInitialized := NoNotice, 0, false;
      snapshot := RuntimeSnapshot(NO_SNAPSHOT, 0, 0, 0, false, 0, 0, 0, "", "", "");
      published := [];
    }

    method PublishBootValidationNotice(notice: Notice) returns (accepted: bool)
      requires Valid()
      modifies this`bootNotice
      ensures Valid()
      ensures var sent := if notice == NoNotice then None else PublishNotice(old(bootNotice), notice);
              accepted == sent.Some? && bootNotice == if accepted then sent.value else old(bootNotice)
      // A verdict is never overwritten by a request, nor by the opposite verdict.
      ensures old(bootNotice) in {NoticeConfirmed, NoticeFailed} ==> bootNotice == old(bootNotice)
    {
      if notice == NoNotice {
        return false;
      }
      accepted := bootNotice == NoNotice || bootNotice == notice ||
                  (bootNotice == PrepareConfirmation && (notice == NoticeConfirmed || notice == NoticeFailed));
      if accepted {
        bootNotice := notice;
      }
    }

    method TakeBootValidationNotice() returns (notice: Notice)
      requires Valid()
      modifies this`bootNotice
      ensures Valid() && notice == old(bootNotice) && bootNotice == NoNotice
    {
      notice := bootNotice;
      bootNotice := NoNotice;
    }

    method PublishSnapshot(next: RuntimeSnapshot) returns (accepted: bool)
      requires Valid()
      modifies this`snapshot, this`version, this`snapshotInitialized, this`published
      ensures Valid() && accepted == RuntimeSnapshotIsValid(next)
      ensures published == if accepted then old(published) + [next] else old(published)
      ensures accepted ==> version != old(version)
    {
      if !RuntimeSnapshotIsValid(next) {
        return false;
      }
      NextVersion(|published|);
      version := (version + 1) % U32_LIMIT;
      if version == 0 {
        version := 1;
      }
      snapshot, snapshotInitialized, published := next, true, published + [next];
      return true;
    }

    /** A reader gets the snapshot that was accepted last, or nothing before the
      * first; what it gets is consistent. */
    method CopySnapshot() returns (output: Option<RuntimeSnapshot>)
      requires Valid()
      ensures output.None? <==> published == []
      ensures output.Some? ==> output.value == published[|published| - 1] && RuntimeSnapshotIsValid(output.value)
      ensures output.Some? ==> SnapshotIsValid(output.value.handshake) && output.value.handshake == Latest()
    {
      return if snapshotInitialized then Some(snapshot) else None;
    }
  }

  /** NVS and the application slots. */
  class Flash {
    var durable: Durable

    constructor (d: Durable)
      ensures durable == d
    {
      durable := d;
    }

    /** saveOtaInstallState(): the state is validated again before it is stored. */
    method SaveInstallState(s: InstallState, o: Outcome) returns (ok: bool)
      modifies this
      ensures (durable.nvs, ok) == Save(old(durable.nvs), s, o)
      ensures durable == old(durable).(nvs := durable.nvs)
    {
      ok := false;
      if IsValid(s) && o != NotDone {
        durable := durable.(nvs := Some(s));
        ok := o == Done;
      }
    }
  }

  /** What the environment contributes to one run of installDesiredRelease(). */
  datatype Attempt = Attempt(
    ready: bool,             // queues drained, reports sent, bundle fetched and verified
    stageSave: Outcome,
    drained: bool,
    contents: Digest,        // what the stream leaves in the inactive slot
    streamed: bool,          // the updater accepted it and the slot was read back
    acceptSave: Outcome,
    safe: bool,
    failSave: Outcome,
    select: Outcome)

  /** Everything behind the staged record went well. */
  predicate CarriedOut(w: World, target: SlotId, e: Attempt) {
    && e.drained && e.streamed && IdentityIsValid(ImageIdentity(w.Address(target), e.contents))
    && e.acceptSave == Done && e.safe && e.select == Done
  }

  /** The attempts that end with a restart into the new image. */
  predicate Succeeds(w: World, k: Worker, target: SlotId, releaseId: string, manifest: Manifest, e: Attempt) {
    && k.healthy && !k.pendingImageRunning && !Open(k.installState) && k.transfer == NoTransfer
    && StagePendingRelease(k.installState, releaseId, manifest, w.Address(target)).Some?
    && e.ready && e.stageSave == Done && CarriedOut(w, target, e)
  }

  /** The record in memory is the staged transaction for this slot. */
  predicate StagedFor(s: InstallState, address: nat) {
    IsValid(s) && s.pending && !s.pendingImageAccepted && s.pendingPartitionAddress == address
  }

  lemma RunNothing(w: World, s: State)
    ensures Run(w, s, []) == s
  {
  }

  lemma PromotionFitsTheKind(s: InstallState, image: RunningImage, running: Build)
    ensures DecideRecovery(s, image, running) == PromoteProduction ==> s.pending
    ensures DecideRecovery(s, image, running) == ClearDevelopment ==> !s.pending
  {
    hide IsValid;
  }

  lemma KeepsInv(w: World, s: State, step: Step)
    ensures Inv(w, s) ==> Inv(w, Next(w, s, step))
  {
    hide Inv;
    if Inv(w, s) {
      StepInv(w, s, step);
    }
  }

  lemma AbortStep(w: World, s: State)
    requires s.on.Some?
    ensures var v := s.on.value;
            Next(w, s, AbortDevelopment)
            == if v.worker.transfer != DevelopmentOpen && v.worker.transfer != DevelopmentStaged then s
               else SetWorker(s, v, v.worker.(transfer := DevelopmentFailed(v.worker.transfer == DevelopmentStaged)))
  {
  }

  class UploaderWorker {
    var installState: InstallState
    var installStateKnown: bool
    var installStateHealthy: bool
    var pendingImageRunning: bool
    var pendingRollbackReport: bool
    var transfer: Transfer
    const flash: Flash

    constructor (flash: Flash)
      ensures this.flash == flash && View() == NewWorker()
    {
      this.flash := flash;
      installState, installStateKnown, installStateHealthy := EmptyState(), false, true;
      pendingImageRunning, pendingRollbackReport, transfer := false, false, NoTransfer;
    }

    ghost function View(): Worker
      reads this
    {
      Worker(installState, installStateKnown, installStateHealthy, pendingImageRunning,
             pendingRollbackReport, transfer)
    }

    /** The step system's state, as seen from this object. */
    ghost function In(v: Volatile, confirmed: Option<InstallState>): State
      reads this, flash
    {
      State(flash.durable, Some(v.(worker := View())), confirmed)
    }

    /** Every change of the record: stored first, adopted only when that worked. */
    method StoreThenAdopt(next: Option<InstallState>, save: Outcome) returns (ok: bool)
      modifies this`installState, this`installStateHealthy, flash
      ensures var r := StoreAndAdopt(old(View()), next, old(flash.durable.nvs), save);
              View() == r.worker && flash.durable == old(flash.durable).(nvs := r.nvs) && ok == r.ok
      ensures ok ==> next.Some? && flash.durable.nvs == next && installState == next.value
    {
      ok := false;
      if next.Some? {
        ok := flash.SaveInstallState(next.value, save);
      }
      if ok {
        installState := next.value;
      } else {
        installStateHealthy := false;
      }
    }

    method InitializeOtaRuntime(loadOk: bool, image: RunningImage, running: Build, save: Outcome)
      requires View() == NewWorker()
      modifies this, flash
      ensures var r := InitializeWorker(if loadOk then Some(old(flash.durable.nvs)) else None, image,
                                        running, old(flash.durable.nvs), save);
              View() == r.worker && flash.durable == old(flash.durable).(nvs := r.nvs)
    {
      hide DecideRecovery, ConfirmPendingRelease, ConfirmPendingDevelopmentImage, CancelPendingDevelopmentImage,
           Checked, IdentityMatches, IsValid, StoreAndAdopt;
      installStateKnown, installStateHealthy := true, loadOk;
      if !loadOk {
        return;
      }
      var stored := flash.durable.nvs;
      installState := if stored.Some? then stored.value else EmptyState();
      var recovery := DecideRecovery(installState, image, running);
      PromotionFitsTheKind(installState, image, running);
      if stored.None? && recovery == Ordinary {
        var ok := StoreThenAdopt(Some(installState), save);
      }
      if recovery == ValidatePendingImage {
        pendingImageRunning := true;
      } else if recovery == PromoteProduction || recovery == ClearDevelopment {
        var production := installState.pending;
        var exactDevelopment := !production && image.state == Valid && IdentityMatches(installState, image.identity);
        var promoted := if production then ConfirmPendingRelease(installState, running)
                        else if exactDevelopment then ConfirmPendingDevelopmentImage(installState)
                        else Checked(CancelPendingDevelopmentImage(installState));
        var ok := StoreThenAdopt(promoted, save);
      } else if recovery == ReportProductionRollback {
        pendingRollbackReport := true;
      } else if recovery == RollbackPendingImage || recovery == Halt {
        installStateHealthy := false;
      }
    }

    /** The notice part of serviceOtaRuntime(). */
    method ServiceBootNotice(notice: Notice, running: Build, save: Outcome)
      modifies this, flash
      ensures var r := HandleNotice(old(View()), notice, running, old(flash.durable.nvs), save);
              View() == r.worker && flash.durable == old(flash.durable).(nvs := r.nvs)
    {
      hide MarkPendingValidated, ConfirmPendingRelease, ConfirmPendingDevelopmentImage, IsValid, StoreAndAdopt;
      if notice == PrepareConfirmation && Open(installState) && pendingImageRunning {
        var prepared := if installState.pendingValidated then Some(installState)
                        else MarkPendingValidated(installState, running);
        var ok := StoreThenAdopt(prepared, save);
      } else if notice == NoticeConfirmed && Open(installState) && pendingImageRunning {
        var promoted := if installState.pending then ConfirmPendingRelease(installState, running)
                        else ConfirmPendingDevelopmentImage(installState);
        var ok := StoreThenAdopt(promoted, save);
        if ok {
          pendingImageRunning := false;
        }
      }
    }

    /** The rollback report of serviceOtaRuntime(): sent while a report is owed, the
      * network is up and the retry is due; `taken` is what the backend made of it.
      * A report without a release id is never sent. */
    method FinishRollbackReport(connected: bool, due: bool, taken: bool, save: Outcome)
      modifies this, flash
      ensures var r := HandleRollbackAck(old(View()), old(flash.durable.nvs), save);
              if connected && due && taken && old(pendingRollbackReport) && old(installState).pendingReleaseId != ""
              then View() == r.worker && flash.durable == old(flash.durable).(nvs := r.nvs)
              else View() == old(View()) && flash.durable == old(flash.durable)
      // The report stays owed until its transaction is closed in the store.
      ensures var sent := connected && due && taken && old(installState).pendingReleaseId != "";
              pendingRollbackReport == (old(pendingRollbackReport) && !(sent && IsValid(installState) && save == Done))
    {
      if !(connected && pendingRollbackReport && due) || installState.pendingReleaseId == "" || !taken {
        return;
      }
      installState := CancelPendingRelease(installState);
      var ok := flash.SaveInstallState(installState, save);
      if ok {
        pendingRollbackReport := false;
      } else {
        installStateHealthy := false;
      }
    }

    method FailProductionRelease(staged: bool, save: Outcome)
      modifies this, flash
      ensures var r := FailRelease(old(View()), old(flash.durable.nvs), save);
              if staged then View() == r.worker && flash.durable == old(flash.durable).(nvs := r.nvs)
              else View() == old(View()).(transfer := NoTransfer) && flash.durable == old(flash.durable)
    {
      transfer := NoTransfer;
      if staged {
        installState := CancelPendingRelease(installState);
        var ok := flash.SaveInstallState(installState, save);
        if !ok {
          installStateHealthy := false;
        }
      }
    }

    /** installDesiredRelease(): whatever its environment does, one call performs
      * a run of the production steps, which `steps` lists, and no other change. */
    method InstallDesiredRelease(w: World, releaseId: string, manifest: Manifest, e: Attempt,
                                 ghost v: Volatile, ghost confirmed: Option<InstallState>,
                                 running: SlotId)
      returns (ghost steps: seq<Step>)
      requires v.running == running && installStateKnown
      modifies this, flash
      ensures In(v, confirmed) == Run(w, old(In(v, confirmed)), steps)
      ensures Inv(w, old(In(v, confirmed))) ==> Inv(w, In(v, confirmed))
      ensures forall i :: 0 <= i < |steps| ==>
                steps[i].StageProduction? || steps[i].StreamProduction? || steps[i].FinishProduction?
                || steps[i].AcceptProduction? || steps[i].SelectProduction? || steps[i].FailProduction?
      ensures transfer == RebootPending <==>
              old(transfer) == RebootPending
              || Succeeds(w, old(View()), Other(running), releaseId, manifest, e)
      ensures transfer == RebootPending && old(transfer) != RebootPending ==>
                flash.durable.boot == Other(running) && flash.durable.At(Other(running)).digest == e.contents
                && flash.durable.nvs == Some(installState)
                && IdentityMatches(installState, w.Identity(flash.durable, Other(running)))
    {
      hide Inv, IsValid, Next, StagedFor, CarriedOut, StagePendingRelease;
      ghost var s0 := In(v, confirmed);
      steps := [];
      if !installStateHealthy || pendingImageRunning || Open(installState) || transfer != NoTransfer {
        return;
      }
      if manifest.releaseCounter <= installState.confirmedReleaseCounter || !e.ready {
        return;
      }
      var target := Other(running);
      RunNothing(w, s0);
      steps := Extended(w, s0, [], StageProduction(releaseId, manifest, e.stageSave));
      var ok := StageTransaction(w, releaseId, manifest, e.stageSave, v, confirmed, target);
      if !ok {
        return;
      }
      steps := Stream(w, e, s0, v, confirmed, steps, target);
    }

    /** The durable staged record of a release. */
    method StageTransaction(w: World, releaseId: string, manifest: Manifest, save: Outcome, ghost v: Volatile,
                            ghost confirmed: Option<InstallState>, target: SlotId)
      returns (ok: bool)
      requires Other(v.running) == target && MayStartTransfer(View())
      requires installState.confirmedReleaseCounter < manifest.releaseCounter
      modifies this, flash
      ensures In(v, confirmed) == Next(w, old(In(v, confirmed)), StageProduction(releaseId, manifest, save))
      ensures ok <==>
              && StagePendingRelease(old(installState), releaseId, manifest, w.Address(target)).Some?
              && save == Done
      ensures transfer == if ok then ProductionStaged else old(transfer)
      ensures ok ==> StagedFor(installState, w.Address(target))
    {
      hide CanonicalText, ReleaseId, ConfirmedPartIsValid, PendingReleaseIsValid;
      var staged := StagePendingRelease(installState, releaseId, manifest, w.Address(target));
      if staged.None? {
        installStateHealthy := false;
        return false;
      }
      installState := staged.value;
      ok := flash.SaveInstallState(installState, save);
      if !ok {
        installState, installStateHealthy := CancelPendingRelease(installState), false;
        return;
      }
      transfer := ProductionStaged;
    }

    /** The part of installDesiredRelease() behind the durable staged record. */
    method Stream(w: World, e: Attempt, ghost s0: State, ghost v: Volatile,
                  ghost confirmed: Option<InstallState>, ghost before: seq<Step>, target: SlotId)
      returns (ghost steps: seq<Step>)
      requires Other(v.running) == target && transfer == ProductionStaged
      requires StagedFor(installState, w.Address(target))
      requires In(v, confirmed) == Run(w, s0, before)
      modifies this, flash
      ensures In(v, confirmed) == Run(w, s0, steps)
      ensures Inv(w, Run(w, s0, before)) ==> Inv(w, In(v, confirmed))
      ensures before <= steps
      ensures transfer == RebootPending <==> CarriedOut(w, target, e)
      ensures forall i :: |before| <= i < |steps| ==>
                steps[i].StreamProduction? || steps[i].FinishProduction?
                || steps[i].AcceptProduction? || steps[i].SelectProduction? || steps[i].FailProduction?
      ensures transfer == RebootPending ==>
                flash.durable.boot == target && flash.durable.At(target).digest == e.contents
                && flash.durable.nvs == Some(installState)
                && IdentityMatches(installState, w.Identity(flash.durable, target))
    {
      hide Inv, IsValid, Run, PartitionAddressIsValid;
      steps := before;
      if !e.drained {
        steps := Abandon(w, e, s0, v, confirmed, steps);
        return;
      }
      steps := Extended(w, s0, steps, StreamProduction(e.contents));
      flash.durable := flash.durable.With(target, flash.durable.At(target).(digest := e.contents));
      assert In(v, confirmed) == Run(w, s0, steps);
      var identity := ImageIdentity(w.Address(target), e.contents);
      if !e.streamed || !IdentityIsValid(identity)
         || identity.partitionAddress != installState.pendingPartitionAddress {
        steps := Abandon(w, e, s0, v, confirmed, steps);
        return;
      }
      steps := Extended(w, s0, steps, FinishProduction);
      transfer := ProductionFinished(identity);
      assert In(v, confirmed) == Run(w, s0, steps);
      steps := Accept(w, e, s0, v, confirmed, steps, target);
    }

    /** The part of installDesiredRelease() behind the verified image. */
    method Accept(w: World, e: Attempt, ghost s0: State, ghost v: Volatile,
                  ghost confirmed: Option<InstallState>, ghost before: seq<Step>, target: SlotId)
      returns (ghost steps: seq<Step>)
      requires Other(v.running) == target
      requires transfer == ProductionFinished(w.Identity(flash.durable, target))
      requires flash.durable.At(target).digest == e.contents && IdentityIsValid(transfer.identity)
      requires StagedFor(installState, w.Address(target))
      requires In(v, confirmed) == Run(w, s0, before)
      modifies this, flash
      ensures In(v, confirmed) == Run(w, s0, steps)
      ensures Inv(w, Run(w, s0, before)) ==> Inv(w, In(v, confirmed))
      ensures before <= steps
      ensures transfer == RebootPending <==> e.acceptSave == Done && e.safe && e.select == Done
      ensures forall i :: |before| <= i < |steps| ==>
                steps[i].AcceptProduction? || steps[i].SelectProduction? || steps[i].FailProduction?
      ensures transfer == RebootPending ==>
                flash.durable.boot == target && flash.durable.At(target).digest == e.contents
                && flash.durable.nvs == Some(installState)
                && IdentityMatches(installState, w.Identity(flash.durable, target))
    {
      hide Inv, IsValid, Run, Next, MarkPendingImageAccepted, StagedFor;
      steps := Extended(w, s0, before, AcceptProduction(e.acceptSave));
      var ok := StoreAcceptance(w, e.acceptSave, v, confirmed, target);
      if !ok {
        return;
      }
      if !e.safe {
        steps := Abandon(w, e, s0, v, confirmed, steps);
        return;
      }
      steps := SelectAccepted(w, e, s0, v, confirmed, steps, target);
    }

    /** The durable acceptance of the verified image. */
    method StoreAcceptance(w: World, save: Outcome, ghost v: Volatile, ghost confirmed: Option<InstallState>,
                           target: SlotId)
      returns (ok: bool)
      requires Other(v.running) == target && transfer == ProductionFinished(w.Identity(flash.durable, target))
      requires IdentityIsValid(transfer.identity) && StagedFor(installState, w.Address(target))
      modifies this, flash
      ensures In(v, confirmed) == Next(w, old(In(v, confirmed)), AcceptProduction(save))
      ensures ok <==> save == Done
      ensures transfer == if ok then ProductionAccepted(old(transfer).identity) else NoTransfer
      ensures flash.durable == old(flash.durable).(nvs := flash.durable.nvs)
      ensures ok ==> flash.durable.nvs == Some(installState)
                     && IdentityMatches(installState, w.Identity(flash.durable, target))
    {
      hide CanonicalText, ReleaseId, ConfirmedPartIsValid, PendingReleaseIsValid, CancelPendingRelease;
      var identity := transfer.identity;
      var accepted := MarkPendingImageAccepted(installState, identity);
      ok := StoreThenAdopt(accepted, save);
      transfer := if ok then ProductionAccepted(identity) else NoTransfer;
    }

    /** The final flash mutation of installDesiredRelease(). */
    method SelectAccepted(w: World, e: Attempt, ghost s0: State, ghost v: Volatile,
                          ghost confirmed: Option<InstallState>, ghost before: seq<Step>, target: SlotId)
      returns (ghost steps: seq<Step>)
      requires Other(v.running) == target && transfer.ProductionAccepted?
      requires In(v, confirmed) == Run(w, s0, before)
      modifies this, flash
      ensures In(v, confirmed) == Run(w, s0, steps) && steps == before + [SelectProduction(e.select)]
      ensures Inv(w, Run(w, s0, before)) ==> Inv(w, In(v, confirmed))
      ensures installState == old(installState) && transfer == if e.select == Done then RebootPending else NoTransfer
      ensures flash.durable == Select(old(flash.durable), target, e.select)
    {
      hide Inv, IsValid, Run;
      steps := Extended(w, s0, before, SelectProduction(e.select));
      flash.durable := Select(flash.durable, target, e.select);
      transfer := if e.select == Done then RebootPending else NoTransfer;
      if e.select != Done {
        installStateHealthy := false;
      }
    }

    /** failProductionRelease() for a transaction that is already durable. */
    method Abandon(w: World, e: Attempt, ghost s0: State, ghost v: Volatile,
                   ghost confirmed: Option<InstallState>, ghost before: seq<Step>)
      returns (ghost steps: seq<Step>)
      requires transfer == ProductionStaged || transfer.ProductionFinished? || transfer.ProductionAccepted?
      requires In(v, confirmed) == Run(w, s0, before)
      modifies this, flash
      ensures In(v, confirmed) == Run(w, s0, steps) && steps == before + [FailProduction(e.failSave)]
      ensures Inv(w, Run(w, s0, before)) ==> Inv(w, In(v, confirmed))
      ensures transfer == NoTransfer
    {
      hide Inv, IsValid, Run;
      steps := Extended(w, s0, before, FailProduction(e.failSave));
      FailProductionRelease(true, e.failSave);
    }

    /** developmentSafetyAbortCheck(): the first callback stages the upload, every
      * callback may stop it. `ready`: the queue guard is armed or can be. */
    method DevelopmentSafetyAbortCheck(w: World, ready: bool, save: Outcome, abort: bool,
                                       ghost v: Volatile, ghost confirmed: Option<InstallState>,
                                       running: SlotId)
      returns (stop: bool, ghost steps: seq<Step>)
      requires v.running == running && (transfer == DevelopmentOpen || transfer == DevelopmentStaged)
      modifies this, flash
      ensures In(v, confirmed) == Run(w, old(In(v, confirmed)), steps)
      ensures Inv(w, old(In(v, confirmed))) ==> Inv(w, In(v, confirmed))
      ensures forall i :: 0 <= i < |steps| ==> steps[i] in {BeginDevelopment(save), AbortDevelopment}
      ensures var staged := StagePendingDevelopmentImage(old(installState), w.Address(Other(running)));
              stop <==> !ready || abort || (old(transfer) == DevelopmentOpen && !(staged.Some? && save == Done))
      ensures if stop then transfer.DevelopmentFailed? else transfer == DevelopmentStaged
      ensures !stop && old(transfer) == DevelopmentOpen ==>
                && flash.durable.nvs == Some(installState) && installState.developmentPending
                && installState.pendingPartitionAddress == w.Address(Other(running))
    {
      hide Inv, Run, Next, IsValid, StagePendingDevelopmentImage, PartitionAddressIsValid;
      ghost var s0 := In(v, confirmed);
      RunNothing(w, s0);
      steps := [];
      if ready && transfer == DevelopmentOpen {
        steps := Extended(w, s0, steps, BeginDevelopment(save));
        var ok := StageUpload(w, save, v, confirmed, running);
        if !ok {
          return true, steps;
        }
      }
      if !ready || abort {
        steps := Extended(w, s0, steps, AbortDevelopment);
        AbortUpload(w, v, confirmed);
      }
      stop := !ready || abort;
    }

    method AbortUpload(w: World, ghost v: Volatile, ghost confirmed: Option<InstallState>)
      requires transfer == DevelopmentOpen || transfer == DevelopmentStaged
      modifies this`transfer
      ensures In(v, confirmed) == Next(w, old(In(v, confirmed)), AbortDevelopment)
      ensures transfer == DevelopmentFailed(old(transfer) == DevelopmentStaged)
    {
      hide Next;
      AbortStep(w, In(v, confirmed));
      transfer := DevelopmentFailed(transfer == DevelopmentStaged);
    }

    /** The durable staged record of an upload. */
    method StageUpload(w: World, save: Outcome, ghost v: Volatile, ghost confirmed: Option<InstallState>,
                       running: SlotId)
      returns (ok: bool)
      requires v.running == running && transfer == DevelopmentOpen
      modifies this, flash
      ensures In(v, confirmed) == Next(w, old(In(v, confirmed)), BeginDevelopment(save))
      ensures ok <==>
              StagePendingDevelopmentImage(old(installState), w.Address(Other(running))).Some? && save == Done
      ensures transfer == if ok then DevelopmentStaged else DevelopmentFailed(false)
      ensures ok ==> && flash.durable.nvs == Some(installState) && installState.developmentPending
                     && installState.pendingPartitionAddress == w.Address(Other(running))
    {
      hide CanonicalText, ReleaseId, ConfirmedPartIsValid, PendingReleaseIsValid;
      var staged := StagePendingDevelopmentImage(installState, w.Address(Other(running)));
      ok := StoreThenAdopt(staged, save);
      transfer := if ok then DevelopmentStaged else DevelopmentFailed(false);
    }

    /** developmentCompletionCheck(): the uploaded image has been selected already;
      * accepting it is one more durable write. */
    method DevelopmentCompletionCheck(w: World, safe: bool, readOk: bool, save: Outcome,
                                      ghost v: Volatile, ghost confirmed: Option<InstallState>)
      returns (accepted: bool)
      requires transfer == DevelopmentSelected
      modifies this, flash
      ensures In(v, confirmed) == Next(w, old(In(v, confirmed)), FinishDevelopment(safe, readOk, save))
      ensures Inv(w, old(In(v, confirmed))) ==> Inv(w, In(v, confirmed))
      ensures accepted <==> transfer == RebootPending
      ensures var boot := w.Identity(flash.durable, flash.durable.boot);
              accepted <==>
                && safe && readOk && IdentityIsValid(boot) && save == Done
                && boot.partitionAddress == old(installState).pendingPartitionAddress
                && MarkPendingImageAccepted(old(installState), boot).Some?
      ensures accepted ==> flash.durable.nvs == Some(installState)
                           && IdentityMatches(installState, w.Identity(flash.durable, flash.durable.boot))
    {
      hide Inv, CanonicalText, ReleaseId, ConfirmedPartIsValid, PendingReleaseIsValid;
      KeepsInv(w, In(v, confirmed), FinishDevelopment(safe, readOk, save));
      var candidate := w.Identity(flash.durable, flash.durable.boot);
      accepted := safe;
      if accepted && (!readOk || !IdentityIsValid(candidate)
                      || candidate.partitionAddress != installState.pendingPartitionAddress) {
        accepted := false;
      }
      if accepted {
        var acceptedState := MarkPendingImageAccepted(installState, candidate);
        accepted := false;
        if acceptedState.Some? {
          accepted := flash.SaveInstallState(acceptedState.value, save);
        }
        if accepted {
          installState := acceptedState.value;
        }
      }
      transfer := if accepted then RebootPending else DevelopmentFailed(true);
    }

    /** The failed branch of serviceDevelopmentOta(): the staged record is cleared
      * only while the running slot would boot again. */
    method CloseFailedDevelopment(w: World, readOk: bool, save: Outcome, running: SlotId,
                                  ghost v: Volatile, ghost confirmed: Option<InstallState>)
      requires w.IsValid() && v.running == running && transfer.DevelopmentFailed?
      modifies this, flash
      ensures In(v, confirmed) == Next(w, old(In(v, confirmed)), CleanUpDevelopment(readOk, save))
      ensures Inv(w, old(In(v, confirmed))) ==> Inv(w, In(v, confirmed))
      ensures transfer == NoTransfer
      ensures flash.durable.boot == Other(running) ==> flash.durable == old(flash.durable)
    {
      hide Inv, IsValid, CancelPendingDevelopmentImage, StoreAndAdopt;
      KeepsInv(w, In(v, confirmed), CleanUpDevelopment(readOk, save));
      var staged := transfer.staged;
      transfer := NoTransfer;
      if staged {
        var d := flash.durable;
        if readOk && w.Identity(d, d.boot) == w.Identity(d, running) {
          var ok := StoreThenAdopt(Some(CancelPendingDevelopmentImage(installState)), save);
        }
      }
    }

    /** The history of a run with one more step. */
    ghost method Extended(w: World, s0: State, steps: seq<Step>, step: Step) returns (more: seq<Step>)
      ensures more == steps + [step] && Run(w, s0, more) == Next(w, Run(w, s0, steps), step)
      ensures Inv(w, Run(w, s0, steps)) ==> Inv(w, Run(w, s0, more))
    {
      hide Inv;
      KeepsInv(w, Run(w, s0, steps), step);
      more := steps + [step];
      assert more[..|steps|] == steps;
    }
  }
}
