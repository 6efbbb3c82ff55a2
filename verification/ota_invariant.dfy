/** What every reachable state of the install transaction keeps. */
module OtaInvariant {
  import opened Bytes
  import opened OtaInstallState
  import opened OtaBoot
  import opened OtaSystem

  /** The durable record holds an accepted transaction for exactly the image in slot i. */
  predicate Matches(w: World, d: Durable, i: SlotId) {
    d.nvs.Some? && IdentityMatches(d.nvs.value, w.Identity(d, i))
  }

  /** ... which was prepared for confirmation and names the build in that image. */
  predicate Prepared(w: World, d: Durable, i: SlotId) {
    && Matches(w, d, i) && d.nvs.value.pendingValidated
    && ReleaseMatches(d.nvs.value, w.BuildIn(d, i))
  }

  predicate OpenFor(w: World, d: Durable, i: SlotId) {
    d.nvs.Some? && Open(d.nvs.value) && d.nvs.value.pendingPartitionAddress == w.Address(i)
  }

  /** The part of the invariant that has to survive a power loss. */
  predicate DurableInv(w: World, d: Durable) {
    && w.IsValid()
    && d.a.state != Unknown && d.b.state != Unknown
    && (d.nvs.Some? ==> IsValid(d.nvs.value))
    // A slot that is not selected may be VALID from an earlier life; the record
    // that is open for it has then not been prepared.
    && (OpenFor(w, d, Other(d.boot)) && d.At(Other(d.boot)).state == Valid ==> !d.nvs.value.pendingValidated)
    && (if Stable(d.At(d.boot).state)
        then d.nvs.Some? && Open(d.nvs.value) ==>
               || OpenFor(w, d, Other(d.boot))
               || (d.At(d.boot).state == Valid && Prepared(w, d, d.boot))
        else
          && Stable(d.At(Other(d.boot)).state)
          && (d.nvs.Some? && Open(d.nvs.value) ==> OpenFor(w, d, d.boot)))
  }

  /** A slot is being tried, or has been rejected, exactly until the next boot. */
  predicate Tried(state: ImageState) {
    state == PendingVerify || state == Valid || state == Invalid
  }

  predicate RunningInv(w: World, d: Durable, v: Volatile) {
    var state := d.At(v.running).state;
    var image := v.validator.image;
    && (d.boot == v.running || (d.At(d.boot).state == New && Stable(state)))
    && (image.state != Unknown ==> image.identity == w.Identity(d, v.running))
    && (match image.state
        case Unknown => v.validator.phase == PlatformError && (Stable(state) || state == PendingVerify)
        case PendingVerify => d.boot == v.running || state == Valid
        case Valid => state == Valid
        case Undefined => state == Undefined
        case _ => false)
    && (image.state == PendingVerify ==> Tried(state) && IdentityIsValid(image.identity))
    && (match v.validator.phase
        case NotStarted => false
        case NotPending => Stable(image.state)
        case Waiting => image.state == PendingVerify && state == PendingVerify
        case AwaitingPersistence => image.state == PendingVerify && state == PendingVerify
        case Confirmed => image.state == PendingVerify && state == Valid
        case RollbackRequested => false
        case PlatformError => true)
    && (v.notice == NoticeConfirmed ==> v.validator.phase == Confirmed && v.noticePublished)
  }

  /** Whoever believes the confirmation is prepared is right about the store. */
  predicate HandshakeInv(w: World, d: Durable, v: Volatile) {
    (v.seen.prepared || v.published.prepared) && d.At(v.running).state == PendingVerify ==>
      Prepared(w, d, v.running)
  }

  /** The store holds the transaction of slot i as the worker knows it, or already
    * prepared by a write that was reported as failed. */
  predicate RecordOf(w: World, d: Durable, i: SlotId, m: InstallState) {
    && Matches(w, d, i) && ReleaseMatches(d.nvs.value, w.BuildIn(d, i))
    && m.(pendingValidated := d.nvs.value.pendingValidated) == d.nvs.value
    && (m.pendingValidated ==> d.nvs.value.pendingValidated)
  }

  /** Until the outcome was announced and consumed, the image on trial has its record. */
  predicate PendingImageInv(w: World, d: Durable, v: Volatile) {
    var m := v.worker.installState;
    v.worker.pendingImageRunning ==>
      && v.worker.known && v.validator.image.state == PendingVerify && d.boot == v.running
      && v.worker.transfer == NoTransfer && !v.worker.pendingRollbackReport
      && ((v.validator.phase == Confirmed && v.noticePublished && v.notice == NoNotice && !v.worker.healthy)
          || RecordOf(w, d, v.running, m))
  }

  /** Memory and store agree, and nothing but the running slot can boot. */
  predicate Synced(w: World, d: Durable, v: Volatile) {
    && d.nvs == Some(v.worker.installState) && d.boot == v.running
    && Stable(d.At(v.running).state)
  }

  /** A transfer into the other slot is recorded, with the given progress. */
  predicate Recorded(w: World, d: Durable, v: Volatile, production: bool, accepted: bool) {
    var m := v.worker.installState;
    && m.pending == production && m.developmentPending == !production
    && m.pendingPartitionAddress == w.Address(Other(v.running))
    && m.pendingImageAccepted == accepted
  }

  predicate OtherSelected(d: Durable, v: Volatile) {
    d.boot == Other(v.running) && d.At(d.boot).state == New && Stable(d.At(v.running).state)
  }

  predicate TransferInv(w: World, d: Durable, v: Volatile) {
    var k := v.worker;
    var m := k.installState;
    && (k.transfer != NoTransfer ==> k.known && !k.pendingImageRunning && !k.pendingRollbackReport)
    && match k.transfer
       case NoTransfer =>
         k.known && k.healthy && !k.pendingImageRunning ==>
           || (Synced(w, d, v) && (Open(m) ==> OpenFor(w, d, Other(v.running))))
           || (OtherSelected(d, v) && m.developmentPending && Recorded(w, d, v, false, false)
               && OpenFor(w, d, Other(v.running)))
       case ProductionStaged => k.healthy && Synced(w, d, v) && Recorded(w, d, v, true, false)
       case ProductionFinished(identity) =>
         && k.healthy && Synced(w, d, v) && Recorded(w, d, v, true, false)
         && identity == w.Identity(d, Other(v.running))
       case ProductionAccepted(identity) =>
         k.healthy && Synced(w, d, v) && Recorded(w, d, v, true, true)
       case DevelopmentOpen => k.healthy && Synced(w, d, v) && !Open(m)
       case DevelopmentStaged => k.healthy && Synced(w, d, v) && Recorded(w, d, v, false, false)
       case DevelopmentSelected =>
         k.healthy && OtherSelected(d, v) && d.nvs == Some(m) && Recorded(w, d, v, false, false)
       case DevelopmentFailed(staged) =>
         if staged then
           && k.healthy && Recorded(w, d, v, false, false)
           && (|| (Synced(w, d, v))
               || (OtherSelected(d, v) && OpenFor(w, d, Other(v.running))))
         else (k.healthy ==> Synced(w, d, v) && !Open(m))
       case RebootPending => OtherSelected(d, v) && d.nvs == Some(m) && OpenFor(w, d, Other(v.running))
  }

  predicate VolatileInv(w: World, d: Durable, v: Volatile) {
    var k := v.worker;
    && IsValid(k.installState)
    && RunningInv(w, d, v)
    && HandshakeInv(w, d, v)
    && PendingImageInv(w, d, v)
    && TransferInv(w, d, v)
    && (!k.known ==> k == NewWorker() && d.boot == v.running && !v.seen.known && !v.published.known
                     && !v.seen.prepared && !v.published.prepared
                     && v.notice != PrepareConfirmation)
    && (k.pendingRollbackReport ==>
          && Stable(v.validator.image.state) && k.transfer == NoTransfer
          && (k.healthy || k.installState.pendingReleaseId != "" ==>
                Synced(w, d, v) && k.installState.pending && OpenFor(w, d, Other(v.running))))
  }

  predicate Inv(w: World, s: State) {
    && DurableInv(w, s.durable)
    && (s.on.Some? ==> VolatileInv(w, s.durable, s.on.value))
  }

  lemma InitialInv(w: World, s: State)
    requires Initial(w, s)
    ensures Inv(w, s)
  {
  }

  lemma BootInv(w: World, s: State, step: Step)
    requires Inv(w, s) && Enabled(w, s, step) && (step.Boot?)
    ensures Inv(w, Next(w, s, step))
  {
    hide CanonicalText, ReleaseId, ConfirmedPartIsValid, PendingReleaseIsValid;
  }

  lemma PowerLossInv(w: World, s: State, step: Step)
    requires Inv(w, s) && Enabled(w, s, step) && (step.PowerLoss?)
    ensures Inv(w, Next(w, s, step))
  {
    hide CanonicalText, ReleaseId, ConfirmedPartIsValid, PendingReleaseIsValid;
  }

  /** What a boot finds: an empty record stands in for an absent one. */
  function Recovery(w: World, s: State): RecoveryAction
    requires s.on.Some?
  {
    DecideRecovery(if s.durable.nvs.Some? then s.durable.nvs.value else EmptyState(),
                   s.on.value.validator.image, w.BuildIn(s.durable, s.on.value.running))
  }

  lemma InitializeWritingInv(w: World, s: State, step: Step)
    requires Inv(w, s) && Enabled(w, s, step) && step.Initialize? && step.loadOk
    requires Recovery(w, s) in {PromoteProduction, ClearDevelopment}
    ensures Inv(w, Next(w, s, step))
  {
    hide CanonicalText, ReleaseId;
  }

  lemma InitializeInv(w: World, s: State, step: Step)
    requires Inv(w, s) && Enabled(w, s, step) && step.Initialize?
    ensures Inv(w, Next(w, s, step))
  {
    hide CanonicalText, ReleaseId, PendingReleaseIsValid;
    if step.loadOk && Recovery(w, s) in {PromoteProduction, ClearDevelopment} {
      InitializeWritingInv(w, s, step);
    }
  }

  lemma PublishInv(w: World, s: State, step: Step)
    requires Inv(w, s) && Enabled(w, s, step) && (step.Publish?)
    ensures Inv(w, Next(w, s, step))
  {
    hide CanonicalText, ReleaseId, ConfirmedPartIsValid, PendingReleaseIsValid, DurableInv,
         MarkPendingValidated;
  }

  lemma RefreshInv(w: World, s: State, step: Step)
    requires Inv(w, s) && Enabled(w, s, step) && (step.Refresh?)
    ensures Inv(w, Next(w, s, step))
  {
    hide CanonicalText, ReleaseId, ConfirmedPartIsValid, PendingReleaseIsValid, DurableInv, IsValid;
  }

  lemma AnnounceInv(w: World, s: State, v: Volatile, validator: ValidatorState)
    requires Inv(w, s.(on := Some(v.(validator := validator)))) && !v.noticePublished
    ensures Inv(w, Announce(s, v, validator))
  {
    hide CanonicalText, ReleaseId, ConfirmedPartIsValid, PendingReleaseIsValid;
  }

  lemma ConfirmInv(w: World, s: State, v: Volatile, polled: ValidatorState, flash: Outcome)
    requires Inv(w, s.(on := Some(v.(validator := polled))))
    requires polled.phase == AwaitingPersistence && v.seen.prepared && flash != NotDone
    ensures Inv(w, State(s.durable.Marked(v.running, Valid),
                         Some(v.(validator := ConfirmAfterPersistence(polled, flash == Done))),
                         s.durable.nvs))
  {
    hide CanonicalText, ReleaseId, ConfirmedPartIsValid, PendingReleaseIsValid;
  }

  lemma RollBackInv(w: World, s: State, v: Volatile, flash: Outcome, failed: ValidatorState)
    requires Inv(w, s) && s.on == Some(v) && !v.noticePublished
    requires v.validator.phase == Waiting || v.validator.phase == AwaitingPersistence
    requires failed == v.validator.(phase := PlatformError)
    ensures var d := if flash == NotDone then s.durable else s.durable.Marked(v.running, Invalid);
            && DurableInv(w, d)
            && (flash != Done ==> Inv(w, s.(durable := d, on := Some(v.(validator := failed)))))
  {
    hide CanonicalText, ReleaseId, ConfirmedPartIsValid, PendingReleaseIsValid;
  }

  lemma PolledInv(w: World, s: State, v: Volatile, now: nat, ready: bool, sent: Notice)
    requires Inv(w, s) && s.on == Some(v) && !v.noticePublished
    requires sent == v.notice || (sent == PrepareConfirmation && v.worker.known)
    ensures Inv(w, s.(on := Some(v.(validator := Poll(v.validator, now, ready, false, true), notice := sent))))
  {
    hide CanonicalText, ReleaseId, ConfirmedPartIsValid, PendingReleaseIsValid;
  }

  lemma PollInv(w: World, s: State, step: Step)
    requires Inv(w, s) && step.PollValidation? && Enabled(w, s, step)
    ensures Inv(w, Next(w, s, step))
  {
    hide IsValid, Matches, Prepared, OpenFor, RunningInv, HandshakeInv, PendingImageInv, TransferInv, DurableInv;
    var v := s.on.value;
    var installReady := v.seen.known && v.seen.healthy;
    var hard := step.localHard || (v.seen.known && !v.seen.healthy);
    var ready := step.localReady && installReady;
    if PollCall(v.validator, hard).CallRollback? {
      var failed := Poll(v.validator, step.now, ready, hard, false);
      RollBackInv(w, s, v, step.flash, failed);
      if step.flash != Done {
        AnnounceInv(w, s.(durable := if step.flash == NotDone then s.durable
                                     else s.durable.Marked(v.running, Invalid)), v, failed);
      }
    } else {
      var polled := Poll(v.validator, step.now, ready, hard, true);
      assert polled == Poll(v.validator, step.now, ready, false, true);
      PolledInv(w, s, v, step.now, ready, v.notice);
      if polled.phase == AwaitingPersistence && installReady {
        var confirmed := ConfirmAfterPersistence(polled, step.flash == Done);
        if !v.seen.prepared {
          var sent := PublishNotice(v.notice, PrepareConfirmation);
          PolledInv(w, s, v, step.now, ready, if sent.Some? then sent.value else v.notice);
        } else if step.flash == NotDone {
          UnconfirmedInv(w, s, v, polled);
          AnnounceInv(w, s, v, confirmed);
        } else {
          ConfirmInv(w, s, v, polled, step.flash);
          AnnounceInv(w, s.(durable := s.durable.Marked(v.running, Valid), confirmed := s.durable.nvs),
                      v, confirmed);
        }
      } else {
        AnnounceInv(w, s, v, polled);
      }
    }
  }

  lemma UnconfirmedInv(w: World, s: State, v: Volatile, polled: ValidatorState)
    requires Inv(w, s.(on := Some(v.(validator := polled)))) && polled.phase == AwaitingPersistence
    ensures Inv(w, s.(on := Some(v.(validator := ConfirmAfterPersistence(polled, false)))))
  {
    hide CanonicalText, ReleaseId, ConfirmedPartIsValid, PendingReleaseIsValid;
  }

  predicate Serves(s: State, step: Step, notice: Notice) {
    && s.on.Some? && step.ServiceNotice? && s.on.value.notice == notice
    && s.on.value.worker.pendingImageRunning && Open(s.on.value.worker.installState)
  }

  /** The worker's record with the preparation, if it was not there already. */
  predicate Rewrites(k: Worker, nvs: Option<InstallState>, worker: Worker, stored: Option<InstallState>) {
    var m := k.installState.(pendingValidated := true);
    && (worker == k.(installState := m) || worker == k.(healthy := false))
    && (stored == nvs || (stored == Some(m) && IsValid(m)))
    && (worker == k.(installState := m) ==> stored == Some(m) && IsValid(m))
  }

  lemma PrepareRewrites(w: World, s: State, step: Step)
    requires Inv(w, s) && Enabled(w, s, step) && Serves(s, step, PrepareConfirmation)
    ensures var n := Next(w, s, step);
            && n.on.Some? && Rewrites(s.on.value.worker, s.durable.nvs, n.on.value.worker, n.durable.nvs)
            && n == s.(durable := s.durable.(nvs := n.durable.nvs),
                       on := Some(s.on.value.(worker := n.on.value.worker, notice := NoNotice)))
  {
    hide CanonicalText, ReleaseId, ConfirmedPartIsValid, PendingReleaseIsValid;
  }

  lemma RewriteInv(w: World, s: State, v: Volatile, worker: Worker, stored: Option<InstallState>)
    requires Inv(w, s) && s.on == Some(v) && v.worker.pendingImageRunning && Open(v.worker.installState)
    requires v.notice == PrepareConfirmation && Rewrites(v.worker, s.durable.nvs, worker, stored)
    ensures Inv(w, s.(durable := s.durable.(nvs := stored),
                      on := Some(v.(worker := worker, notice := NoNotice))))
  {
    hide CanonicalText, ReleaseId, ConfirmedPartIsValid, PendingReleaseIsValid, IsValid;
  }

  lemma PrepareInv(w: World, s: State, step: Step)
    requires Inv(w, s) && Enabled(w, s, step) && Serves(s, step, PrepareConfirmation)
    ensures Inv(w, Next(w, s, step))
  {
    hide DurableInv, VolatileInv, Rewrites, Next;
    PrepareRewrites(w, s, step);
    var n := Next(w, s, step);
    RewriteInv(w, s, s.on.value, n.on.value.worker, n.durable.nvs);
  }

  lemma PromoteInv(w: World, s: State, step: Step)
    requires Inv(w, s) && Enabled(w, s, step) && Serves(s, step, NoticeConfirmed)
    ensures Inv(w, Next(w, s, step))
  {
    hide CanonicalText, ReleaseId, ConfirmedPartIsValid, PendingReleaseIsValid;
  }

  lemma ServiceInv(w: World, s: State, step: Step)
    requires Inv(w, s) && Enabled(w, s, step) && step.ServiceNotice?
    ensures Inv(w, Next(w, s, step))
  {
    hide CanonicalText, ReleaseId, ConfirmedPartIsValid, PendingReleaseIsValid;
    if Serves(s, step, PrepareConfirmation) {
      PrepareInv(w, s, step);
    } else if Serves(s, step, NoticeConfirmed) {
      PromoteInv(w, s, step);
    } else {
      assert Next(w, s, step) == s.(on := Some(s.on.value.(notice := NoNotice)));
    }
  }

  lemma RollbackAckInv(w: World, s: State, step: Step)
    requires Inv(w, s) && Enabled(w, s, step) && (step.RollbackAcknowledged?)
    ensures Inv(w, Next(w, s, step))
  {
    hide CanonicalText, ReleaseId, ConfirmedPartIsValid, PendingReleaseIsValid;
  }

  lemma StageProductionInv(w: World, s: State, step: Step)
    requires Inv(w, s) && Enabled(w, s, step) && (step.StageProduction?)
    ensures Inv(w, Next(w, s, step))
  {
    hide CanonicalText, ReleaseId, ConfirmedPartIsValid, PendingReleaseIsValid;
  }

  lemma StreamProductionInv(w: World, s: State, step: Step)
    requires Inv(w, s) && Enabled(w, s, step) && (step.StreamProduction?)
    ensures Inv(w, Next(w, s, step))
  {
    hide CanonicalText, ReleaseId, ConfirmedPartIsValid, PendingReleaseIsValid;
  }

  lemma FinishProductionInv(w: World, s: State, step: Step)
    requires Inv(w, s) && Enabled(w, s, step) && (step.FinishProduction?)
    ensures Inv(w, Next(w, s, step))
  {
    hide CanonicalText, ReleaseId, ConfirmedPartIsValid, PendingReleaseIsValid;
  }

  lemma AcceptStoredInv(w: World, s: State, step: Step)
    requires Inv(w, s) && Enabled(w, s, step) && step.AcceptProduction? && step.save == Done
    ensures Inv(w, Next(w, s, step))
  {
    hide CanonicalText, ReleaseId, ConfirmedPartIsValid, PendingReleaseIsValid;
  }

  lemma AcceptFailedInv(w: World, s: State, step: Step)
    requires Inv(w, s) && Enabled(w, s, step) && step.AcceptProduction? && step.save != Done
    ensures Inv(w, Next(w, s, step))
  {
    hide CanonicalText, ReleaseId, ConfirmedPartIsValid, PendingReleaseIsValid;
  }

  lemma AcceptProductionInv(w: World, s: State, step: Step)
    requires Inv(w, s) && Enabled(w, s, step) && step.AcceptProduction?
    ensures Inv(w, Next(w, s, step))
  {
    hide Inv, Next, Enabled;
    if step.save == Done {
      AcceptStoredInv(w, s, step);
    } else {
      AcceptFailedInv(w, s, step);
    }
  }

  lemma SelectProductionInv(w: World, s: State, step: Step)
    requires Inv(w, s) && Enabled(w, s, step) && (step.SelectProduction?)
    ensures Inv(w, Next(w, s, step))
  {
    hide CanonicalText, ReleaseId, ConfirmedPartIsValid, PendingReleaseIsValid;
  }

  lemma FailProductionInv(w: World, s: State, step: Step)
    requires Inv(w, s) && Enabled(w, s, step) && (step.FailProduction?)
    ensures Inv(w, Next(w, s, step))
  {
    hide CanonicalText, ReleaseId, ConfirmedPartIsValid, PendingReleaseIsValid, ReleaseMatches;
  }

  lemma OpenDevelopmentInv(w: World, s: State, step: Step)
    requires Inv(w, s) && Enabled(w, s, step) && (step.OpenDevelopment?)
    ensures Inv(w, Next(w, s, step))
  {
    hide CanonicalText, ReleaseId, ConfirmedPartIsValid, PendingReleaseIsValid;
  }

  lemma BeginDevelopmentInv(w: World, s: State, step: Step)
    requires Inv(w, s) && Enabled(w, s, step) && (step.BeginDevelopment?)
    ensures Inv(w, Next(w, s, step))
  {
    hide CanonicalText, ReleaseId, ConfirmedPartIsValid, PendingReleaseIsValid;
  }

  lemma StreamDevelopmentInv(w: World, s: State, step: Step)
    requires Inv(w, s) && Enabled(w, s, step) && (step.StreamDevelopment?)
    ensures Inv(w, Next(w, s, step))
  {
    hide CanonicalText, ReleaseId, ConfirmedPartIsValid, PendingReleaseIsValid;
  }

  lemma EndDevelopmentInv(w: World, s: State, step: Step)
    requires Inv(w, s) && Enabled(w, s, step) && (step.EndDevelopment?)
    ensures Inv(w, Next(w, s, step))
  {
    hide CanonicalText, ReleaseId, ConfirmedPartIsValid, PendingReleaseIsValid, IsValid,
         MarkPendingImageAccepted;
  }

  lemma FinishDevelopmentInv(w: World, s: State, step: Step)
    requires Inv(w, s) && Enabled(w, s, step) && (step.FinishDevelopment?)
    ensures Inv(w, Next(w, s, step))
  {
    hide CanonicalText, ReleaseId, ConfirmedPartIsValid, PendingReleaseIsValid;
  }

  lemma AbortDevelopmentInv(w: World, s: State, step: Step)
    requires Inv(w, s) && Enabled(w, s, step) && (step.AbortDevelopment?)
    ensures Inv(w, Next(w, s, step))
  {
    hide CanonicalText, ReleaseId, ConfirmedPartIsValid, PendingReleaseIsValid;
  }

  /** The failed upload's record is cleared. */
  predicate Clears(s: State, step: Step) {
    && s.on.Some? && step.CleanUpDevelopment? && step.readOk
    && s.on.value.worker.transfer == DevelopmentFailed(true) && s.durable.boot == s.on.value.running
  }

  lemma ClearDevelopmentInv(w: World, s: State, step: Step)
    requires Inv(w, s) && Enabled(w, s, step) && step.CleanUpDevelopment? && Clears(s, step)
    ensures Inv(w, Next(w, s, step))
  {
    hide CanonicalText, ReleaseId, ConfirmedPartIsValid, PendingReleaseIsValid;
  }

  lemma LeaveDevelopmentInv(w: World, s: State, step: Step)
    requires Inv(w, s) && Enabled(w, s, step) && step.CleanUpDevelopment? && !Clears(s, step)
    ensures Inv(w, Next(w, s, step))
  {
    hide CanonicalText, ReleaseId, ConfirmedPartIsValid, PendingReleaseIsValid, DurableInv,
         IsValid;
  }

  lemma CleanUpDevelopmentInv(w: World, s: State, step: Step)
    requires Inv(w, s) && Enabled(w, s, step) && step.CleanUpDevelopment?
    ensures Inv(w, Next(w, s, step))
  {
    hide DurableInv, VolatileInv;
    if Clears(s, step) {
      ClearDevelopmentInv(w, s, step);
    } else {
      LeaveDevelopmentInv(w, s, step);
    }
  }

  lemma StepInv(w: World, s: State, step: Step)
    requires Inv(w, s)
    ensures Inv(w, Next(w, s, step))
  {
    if Enabled(w, s, step) {
      match step
      case Boot(_) => BootInv(w, s, step);
      case PowerLoss => PowerLossInv(w, s, step);
      case Initialize(_, _) => InitializeInv(w, s, step);
      case Publish => PublishInv(w, s, step);
      case Refresh => RefreshInv(w, s, step);
      case PollValidation(_, _, _, _) => PollInv(w, s, step);
      case ServiceNotice(_) => ServiceInv(w, s, step);
      case RollbackAcknowledged(_) => RollbackAckInv(w, s, step);
      case StageProduction(_, _, _) => StageProductionInv(w, s, step);
      case StreamProduction(_) => StreamProductionInv(w, s, step);
      case FinishProduction => FinishProductionInv(w, s, step);
      case AcceptProduction(_) => AcceptProductionInv(w, s, step);
      case SelectProduction(_) => SelectProductionInv(w, s, step);
      case FailProduction(_) => FailProductionInv(w, s, step);
      case OpenDevelopment => OpenDevelopmentInv(w, s, step);
      case BeginDevelopment(_) => BeginDevelopmentInv(w, s, step);
      case StreamDevelopment(_) => StreamDevelopmentInv(w, s, step);
      case EndDevelopment(_) => EndDevelopmentInv(w, s, step);
      case FinishDevelopment(_, _, _) => FinishDevelopmentInv(w, s, step);
      case AbortDevelopment => AbortDevelopmentInv(w, s, step);
      case CleanUpDevelopment(_, _) => CleanUpDevelopmentInv(w, s, step);
    }
  }
}
