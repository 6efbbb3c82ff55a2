/** Progress of the install transaction: once steps stop failing, every open
  * transaction is driven to its end, by a rank that no step increases and that
  * the step which is due decreases.
  */
module OtaProgress {
  import opened Bytes
  import opened OtaInstallState
  import opened OtaBoot
  import opened OtaSystem
  import opened OtaInvariant
  import opened OtaHistory
  import opened OtaSafety

  /** Nothing pending: a stable image is selected and no transaction is open. */
  predicate Settled(s: State) {
    && Stable(s.durable.At(s.durable.boot).state)
    && (s.durable.nvs.Some? ==> !Open(s.durable.nvs.value))
  }

  /** A boot, its handshake, and the backend's answer to a rollback report, with
    * every store and flash operation succeeding and every health gate ready. */
  predicate FailureFree(step: Step) {
    match step
    case Boot(inspected) => inspected
    case Initialize(loadOk, save) => loadOk && save == Done
    case Publish => true
    case Refresh => true
    case PollValidation(_, localReady, localHard, flash) => localReady && !localHard && flash == Done
    case ServiceNotice(save) => save == Done
    case RollbackAcknowledged(save) => save == Done
    case _ => false
  }

  /** The image inspection succeeds for whatever the bootloader starts, and for
    * what it would fall back to. */
  predicate Inspectable(w: World, d: Durable) {
    var first := Bootloader(d);
    var second := Bootloader(first);
    IdentityIsValid(w.Identity(first, first.boot)) && IdentityIsValid(w.Identity(second, second.boot))
  }

  /** The selected image is the recorded one and carries the recorded build. */
  predicate GoodTrial(w: World, d: Durable) {
    Matches(w, d, d.boot) && ReleaseMatches(d.nvs.value, w.BuildIn(d, d.boot))
  }

  predicate Fresh(w: World, d: Durable, v: Volatile) {
    && !v.worker.known && v.notice == NoNotice && !v.noticePublished
    && v.validator.image.state == d.At(d.boot).state
    && (v.validator.phase == NotPending || (v.validator.phase == Waiting && !v.validator.windowStarted))
    && (v.validator.image.state == PendingVerify ==> IdentityIsValid(w.Identity(d, Other(d.boot))))
  }

  predicate Trying(w: World, d: Durable, v: Volatile) {
    var phase := v.validator.phase;
    && v.worker.known && v.worker.healthy && v.worker.pendingImageRunning
    && v.validator.image.state == PendingVerify && GoodTrial(w, d)
    && d.nvs == Some(v.worker.installState)
    && phase in {Waiting, AwaitingPersistence, ValidationPhase.Confirmed}
    && (v.validator.windowStarted ==> v.seen.known)
    && (phase != Waiting ==> v.validator.windowStarted)
    && (v.published.known ==> v.published.healthy) && (v.seen.known ==> v.seen.healthy && v.published.known)
    && (v.seen.prepared ==> v.published.prepared)
    && (v.published.prepared ==> v.published.known && v.worker.installState.pendingValidated)
    && (if phase == ValidationPhase.Confirmed
        then v.notice == NoticeConfirmed && v.worker.installState.pendingValidated && v.seen.prepared
        else v.notice in {NoNotice, PrepareConfirmation} && !v.noticePublished)
  }

  predicate Rejecting(w: World, d: Durable, v: Volatile) {
    && v.worker.known && !v.worker.healthy && !v.worker.pendingImageRunning
    && d.At(d.boot).state == PendingVerify && !GoodTrial(w, d)
    && v.validator.phase == Waiting && !v.validator.windowStarted
    && v.notice == NoNotice && !v.noticePublished
    && (v.published.known ==> !v.published.healthy) && (v.seen.known ==> !v.seen.healthy && v.published.known)
    && IdentityIsValid(w.Identity(d, Other(d.boot)))
  }

  predicate Reporting(d: Durable, v: Volatile) {
    && v.worker.known && v.worker.healthy && v.worker.pendingRollbackReport
    && Stable(d.At(d.boot).state) && v.validator.phase == NotPending && v.notice == NoNotice
    && d.nvs == Some(v.worker.installState) && v.worker.installState.pending
    && (v.published.known ==> v.published.healthy) && (v.seen.known ==> v.seen.healthy)
  }

  predicate AtRest(s: State, v: Volatile) {
    && Settled(s) && v.worker.known && !Open(v.worker.installState)
    && (v.worker.pendingRollbackReport ==> v.worker.installState.pendingReleaseId != "")
    && v.validator.phase in {NotPending, ValidationPhase.Confirmed}
  }

  /** The states of a device that has not failed since it was last powered. */
  predicate Session(w: World, s: State) {
    && Inv(w, s)
    && if s.on.None? then Inspectable(w, s.durable)
       else
         var v := s.on.value;
         && v.running == s.durable.boot && v.validator.image.IsKnown() && v.worker.transfer == NoTransfer
         && (|| Fresh(w, s.durable, v) || Trying(w, s.durable, v) || Rejecting(w, s.durable, v)
             || Reporting(s.durable, v) || AtRest(s, v))
  }

  function One(b: bool): nat {
    if b then 1 else 0
  }

  /** How many steps of the handshake are still missing. */
  function TrialRank(v: Volatile, d: Durable): nat {
    var validated := d.nvs.Some? && d.nvs.value.pendingValidated;
    1 + One(!v.worker.known) + One(!v.published.known) + One(!v.seen.known) +
    One(!v.validator.windowStarted) + One(v.validator.phase == Waiting) +
    One(!validated && v.notice != PrepareConfirmation) + One(!validated) +
    One(!v.published.prepared) + One(!v.seen.prepared) +
    One(v.validator.phase != ValidationPhase.Confirmed)
  }

  /** The rank: the stage of the transaction and what the bootloader makes of it. */
  function Rank(w: World, s: State): nat {
    var d := s.durable;
    if Settled(s) then 0
    else if s.on.None? then
      var booted := Bootloader(d);
      if booted.At(booted.boot).state != PendingVerify then 3
      else if GoodTrial(w, booted) then 12 else 24
    else
      var v := s.on.value;
      if v.validator.image.state != PendingVerify then 1 + One(!v.worker.known)
      else if GoodTrial(w, d) then TrialRank(v, d)
      else 20 + One(!v.worker.known) + One(!v.published.known) + One(!v.seen.known)
  }

  /** The step that is due in an unsettled state. */
  predicate Due(w: World, s: State, step: Step) {
    && !Settled(s) && Enabled(w, s, step) && FailureFree(step)
    && if s.on.None? then step.Boot?
       else
         var v := s.on.value;
         if !v.worker.known then step.Initialize?
         else if v.worker.pendingRollbackReport then step.RollbackAcknowledged?
         else if !v.published.known then step.Publish?
         else if !v.seen.known then step.Refresh?
         else match v.validator.phase
           case Waiting =>
             && step.PollValidation?
             && (v.validator.windowStarted ==>
                   Elapsed(step.now, v.validator.healthySinceMs) >= VALIDATION_DELAY_MS)
           case AwaitingPersistence =>
             if !v.worker.installState.pendingValidated
             then (if v.notice == PrepareConfirmation then step.ServiceNotice? else step.PollValidation?)
             else if !v.published.prepared then step.Publish?
             else if !v.seen.prepared then step.Refresh?
             else step.PollValidation?
           case _ => step.ServiceNotice?
  }

  predicate Progress(w: World, s: State, step: Step) {
    && Session(w, Next(w, s, step))
    && Rank(w, Next(w, s, step)) <= Rank(w, s)
    && (Due(w, s, step) ==> Rank(w, Next(w, s, step)) < Rank(w, s))
  }

  lemma BootProgress(w: World, s: State, step: Step)
    requires Session(w, s) && step.Boot? && FailureFree(step) && Enabled(w, s, step)
    ensures Progress(w, s, step)
  {
    BootInv(w, s, step);
    hide CanonicalText, ReleaseId, ConfirmedPartIsValid, PendingReleaseIsValid;
  }

  lemma TrialInitializeProgress(w: World, s: State, step: Step)
    requires Session(w, s) && step.Initialize? && FailureFree(step) && Enabled(w, s, step)
    requires Recovery(w, s) in {ValidatePendingImage, RollbackPendingImage}
    ensures Progress(w, s, step)
  {
    InitializeInv(w, s, step);
    hide CanonicalText, ReleaseId, ConfirmedPartIsValid, PendingReleaseIsValid;
    hide HandshakeInv, PendingImageInv, TransferInv;
  }

  lemma StableInitializeProgress(w: World, s: State, step: Step)
    requires Session(w, s) && step.Initialize? && FailureFree(step) && Enabled(w, s, step)
    requires Recovery(w, s) !in {ValidatePendingImage, RollbackPendingImage}
    ensures Progress(w, s, step)
  {
    InitializeInv(w, s, step);
    HaltsOnlyWithoutInspection(w, s);
    hide CanonicalText, ReleaseId, ConfirmedPartIsValid, PendingReleaseIsValid;
    hide HandshakeInv, PendingImageInv, TransferInv, TrialRank;
  }

  lemma PublishProgress(w: World, s: State, step: Step)
    requires Session(w, s) && step.Publish? && Enabled(w, s, step)
    ensures Progress(w, s, step)
  {
    hide CanonicalText, ReleaseId, ConfirmedPartIsValid, PendingReleaseIsValid, PartitionAddressIsValid;
    PublishInv(w, s, step);
    hide DurableInv, RunningInv, HandshakeInv, PendingImageInv, TransferInv;
  }

  lemma RefreshProgress(w: World, s: State, step: Step)
    requires Session(w, s) && step.Refresh? && Enabled(w, s, step)
    ensures Progress(w, s, step)
  {
    hide IsValid, IdentityIsValid, RecordOf;
    RefreshInv(w, s, step);
    hide DurableInv, RunningInv, HandshakeInv, PendingImageInv, TransferInv;
  }

  lemma WaitingPollProgress(w: World, s: State, step: Step)
    requires Session(w, s) && step.PollValidation? && FailureFree(step) && Enabled(w, s, step)
    requires Trying(w, s.durable, s.on.value) && s.on.value.validator.phase == Waiting
    requires !s.on.value.seen.prepared
    ensures Progress(w, s, step)
  {
    hide IsValid, DurableInv, HandshakeInv, PendingImageInv, TransferInv, RunningInv;
    PollInv(w, s, step);
  }

  lemma PreparedPollProgress(w: World, s: State, step: Step)
    requires Session(w, s) && step.PollValidation? && FailureFree(step) && Enabled(w, s, step)
    requires Trying(w, s.durable, s.on.value) && s.on.value.validator.phase == Waiting
    requires s.on.value.seen.prepared
    ensures Progress(w, s, step)
  {
    hide IsValid, DurableInv, HandshakeInv, PendingImageInv, TransferInv, RunningInv;
    PollInv(w, s, step);
  }

  lemma AwaitingPollProgress(w: World, s: State, step: Step)
    requires Session(w, s) && step.PollValidation? && FailureFree(step) && Enabled(w, s, step)
    requires Trying(w, s.durable, s.on.value) && s.on.value.validator.phase != Waiting
    ensures Progress(w, s, step)
  {
    PollInv(w, s, step);
    hide CanonicalText, ReleaseId, ConfirmedPartIsValid, PendingReleaseIsValid;
    hide DurableInv, HandshakeInv, PendingImageInv, TransferInv;
  }

  lemma RejectingPollProgress(w: World, s: State, step: Step)
    requires Session(w, s) && step.PollValidation? && FailureFree(step) && Enabled(w, s, step)
    requires Rejecting(w, s.durable, s.on.value)
    ensures Progress(w, s, step)
  {
    PollInv(w, s, step);
    hide IsValid, TrialRank, HandshakeInv, PendingImageInv, TransferInv, Matches;
  }

  lemma PollProgress(w: World, s: State, step: Step)
    requires Session(w, s) && step.PollValidation? && FailureFree(step) && Enabled(w, s, step)
    ensures Progress(w, s, step)
  {
    if Trying(w, s.durable, s.on.value) {
      if s.on.value.validator.phase != Waiting {
        AwaitingPollProgress(w, s, step);
      } else if s.on.value.seen.prepared {
        PreparedPollProgress(w, s, step);
      } else {
        WaitingPollProgress(w, s, step);
      }
    } else if Rejecting(w, s.durable, s.on.value) {
      RejectingPollProgress(w, s, step);
    } else {
      hide IsValid, TrialRank, HandshakeInv, PendingImageInv, TransferInv, Trying, Rejecting;
    }
  }

  lemma PrepareProgress(w: World, s: State, step: Step)
    requires Session(w, s) && FailureFree(step) && Enabled(w, s, step)
    requires Serves(s, step, PrepareConfirmation)
    ensures Progress(w, s, step)
  {
    ServiceInv(w, s, step);
    hide CanonicalText, ReleaseId, ConfirmedPartIsValid, PendingReleaseIsValid;
    hide DurableInv, HandshakeInv, PendingImageInv, TransferInv;
  }

  lemma PromoteProgress(w: World, s: State, step: Step)
    requires Session(w, s) && FailureFree(step) && Enabled(w, s, step)
    requires Serves(s, step, NoticeConfirmed)
    ensures Progress(w, s, step)
  {
    ServiceInv(w, s, step);
    hide CanonicalText, ReleaseId, ConfirmedPartIsValid, PendingReleaseIsValid;
    hide HandshakeInv, PendingImageInv, TransferInv;
  }

  lemma ServiceProgress(w: World, s: State, step: Step)
    requires Session(w, s) && step.ServiceNotice? && FailureFree(step) && Enabled(w, s, step)
    ensures Progress(w, s, step)
  {
    if Serves(s, step, PrepareConfirmation) {
      PrepareProgress(w, s, step);
    } else if Serves(s, step, NoticeConfirmed) {
      PromoteProgress(w, s, step);
    } else {
      ServiceInv(w, s, step);
      hide IsValid, HandshakeInv, PendingImageInv, TransferInv;
    }
  }

  lemma RollbackAckProgress(w: World, s: State, step: Step)
    requires Session(w, s) && step.RollbackAcknowledged? && FailureFree(step) && Enabled(w, s, step)
    ensures Progress(w, s, step)
  {
    RollbackAckInv(w, s, step);
    hide CanonicalText, ReleaseId, ConfirmedPartIsValid, PendingReleaseIsValid;
  }

  lemma StepProgress(w: World, s: State, step: Step)
    requires Session(w, s) && FailureFree(step)
    ensures Progress(w, s, step)
  {
    hide Session, Rank, Due, Settled;
    if Enabled(w, s, step) {
      match step
      case Boot(_) => BootProgress(w, s, step);
      case Initialize(_, _) =>
        if Recovery(w, s) in {ValidatePendingImage, RollbackPendingImage} {
          TrialInitializeProgress(w, s, step);
        } else {
          StableInitializeProgress(w, s, step);
        }
      case Publish => PublishProgress(w, s, step);
      case Refresh => RefreshProgress(w, s, step);
      case PollValidation(_, _, _, _) => PollProgress(w, s, step);
      case ServiceNotice(_) => ServiceProgress(w, s, step);
      case RollbackAcknowledged(_) => RollbackAckProgress(w, s, step);
    } else {
      NotDue(w, s, step);
    }
  }

  lemma NotDue(w: World, s: State, step: Step)
    requires !Enabled(w, s, step)
    ensures Next(w, s, step) == s && !Due(w, s, step)
  {
  }

  /** The due steps taken in a run. */
  function DueTaken(w: World, s: State, steps: seq<Step>): nat {
    if steps == [] then 0
    else
      var init := steps[..|steps| - 1];
      DueTaken(w, s, init) + One(Due(w, Run(w, s, init), steps[|steps| - 1]))
  }

  lemma {:induction false} RunProgress(w: World, s: State, steps: seq<Step>)
    requires Session(w, s)
    requires forall i :: 0 <= i < |steps| ==> FailureFree(steps[i])
    ensures Session(w, Run(w, s, steps))
    ensures Rank(w, Run(w, s, steps)) + DueTaken(w, s, steps) <= Rank(w, s)
  {
    if steps != [] {
      var init := steps[..|steps| - 1];
      RunProgress(w, s, init);
      hide Session, Rank, Due, Next;
      StepProgress(w, Run(w, s, init), steps[|steps| - 1]);
    }
  }

  /** In an unsettled state some step is due: the transaction is never stuck. */
  lemma SomethingIsDue(w: World, s: State)
    requires Session(w, s) && !Settled(s)
    ensures exists step :: Due(w, s, step)
  {
    hide CanonicalText, ConfirmedPartIsValid, HandshakeInv, PendingImageInv, TransferInv;
    if s.on.None? {
      assert Due(w, s, Boot(true));
    } else {
      var v := s.on.value;
      var now := v.validator.healthySinceMs + VALIDATION_DELAY_MS;
      assert Elapsed(now, v.validator.healthySinceMs) == VALIDATION_DELAY_MS;
      var candidates := [Initialize(true, Done), Publish, Refresh, ServiceNotice(Done),
                         RollbackAcknowledged(Done), PollValidation(now, true, false, Done)];
      assert exists i :: 0 <= i < 6 && Due(w, s, candidates[i]) by {
        assert Due(w, s, candidates[0]) || Due(w, s, candidates[1]) || Due(w, s, candidates[2])
            || Due(w, s, candidates[3]) || Due(w, s, candidates[4]) || Due(w, s, candidates[5]);
      }
    }
  }

  /** However a device lost power, failure-free boots end with nothing pending:
    * a run that takes 24 due steps has settled the transaction, and stays so. */
  lemma FailureFreeRunsSettle(w: World, s: State, history: seq<Step>, steps: seq<Step>)
    requires Initial(w, s)
    requires Run(w, s, history).on.None? && Inspectable(w, Run(w, s, history).durable)
    requires forall i :: 0 <= i < |steps| ==> FailureFree(steps[i])
    ensures var r := Run(w, s, history);
            && Rank(w, r) <= 24
            && Rank(w, Run(w, r, steps)) + DueTaken(w, r, steps) <= Rank(w, r)
            && (DueTaken(w, r, steps) >= Rank(w, r) ==> Settled(Run(w, r, steps)))
            && (!Settled(Run(w, r, steps)) ==> exists step :: Due(w, Run(w, r, steps), step))
  {
    RunKeepsInvariant(w, s, history);
    var r := Run(w, s, history);
    RunProgress(w, r, steps);
    if !Settled(Run(w, r, steps)) {
      SomethingIsDue(w, Run(w, r, steps));
    }
    hide Run, IsValid, DurableInv;
    UnsettledHasRank(w, Run(w, r, steps));
  }

  lemma UnsettledHasRank(w: World, s: State)
    ensures Rank(w, s) == 0 <==> Settled(s)
  {
  }
}
