/** How the durable record moves: it is replaced by its own completion, only
  * behind a confirmed image, and otherwise keeps its confirmed part.
  */
module OtaHistory {
  import opened Bytes
  import opened OtaInstallState
  import opened OtaBoot
  import opened OtaSystem
  import opened OtaInvariant

  /** The selected image is confirmed by the bootloader, and the record is its
    * accepted and prepared transaction. */
  predicate ConfirmedAndPrepared(w: World, d: Durable) {
    d.At(d.boot).state == Valid && Prepared(w, d, d.boot)
  }

  /** What a prepared transaction turns into. */
  function Completed(s: InstallState): Option<InstallState> {
    if s.pending
    then ConfirmPendingRelease(s, Build(s.pendingFirmwareVersion, s.pendingBuildId))
    else ConfirmPendingDevelopmentImage(s)
  }

  function ConfirmedPart(nvs: Option<InstallState>): InstallState {
    if nvs.Some? then ClearPending(nvs.value) else EmptyState()
  }

  /** The three ways a step treats the record. */
  predicate RecordMoves(w: World, d: Durable, nvs: Option<InstallState>) {
    || nvs == d.nvs
    || (&& nvs.Some? && ConfirmedPart(nvs) == ConfirmedPart(d.nvs)
        && (d.At(d.boot).state == Valid ==>
              !Prepared(w, d, d.boot) && !OpenFor(w, d.(nvs := nvs), d.boot)))
    || (nvs.Some? && ConfirmedAndPrepared(w, d) && nvs == Completed(d.nvs.value))
  }

  lemma InitializeMoves(w: World, s: State, step: Step)
    requires Inv(w, s) && Enabled(w, s, step) && step.Initialize?
    ensures RecordMoves(w, s.durable, Next(w, s, step).durable.nvs)
  {
    hide CanonicalText, ReleaseId, PendingReleaseIsValid;
  }

  lemma ServiceMoves(w: World, s: State, step: Step)
    requires Inv(w, s) && Enabled(w, s, step) && step.ServiceNotice?
    ensures RecordMoves(w, s.durable, Next(w, s, step).durable.nvs)
  {
    hide CanonicalText, ReleaseId, ConfirmedPartIsValid, PendingReleaseIsValid;
  }

  lemma RollbackAckMoves(w: World, s: State, step: Step)
    requires Inv(w, s) && Enabled(w, s, step) && step.RollbackAcknowledged?
    ensures RecordMoves(w, s.durable, Next(w, s, step).durable.nvs)
  {
    hide CanonicalText, ReleaseId, ConfirmedPartIsValid, PendingReleaseIsValid;
  }

  lemma ProductionMoves(w: World, s: State, step: Step)
    requires Inv(w, s) && Enabled(w, s, step)
    requires step.StageProduction? || step.AcceptProduction? || step.FailProduction?
    ensures RecordMoves(w, s.durable, Next(w, s, step).durable.nvs)
  {
    hide CanonicalText, ReleaseId, ConfirmedPartIsValid, PendingReleaseIsValid;
  }

  lemma BeginMoves(w: World, s: State, step: Step)
    requires Inv(w, s) && Enabled(w, s, step) && step.BeginDevelopment?
    ensures RecordMoves(w, s.durable, Next(w, s, step).durable.nvs)
  {
    hide CanonicalText, ReleaseId, ConfirmedPartIsValid, PendingReleaseIsValid;
  }

  lemma FinishMoves(w: World, s: State, step: Step)
    requires Inv(w, s) && Enabled(w, s, step) && step.FinishDevelopment?
    ensures RecordMoves(w, s.durable, Next(w, s, step).durable.nvs)
  {
    hide CanonicalText, ReleaseId, ConfirmedPartIsValid, PendingReleaseIsValid;
  }

  lemma CleanUpMoves(w: World, s: State, step: Step)
    requires Inv(w, s) && Enabled(w, s, step) && step.CleanUpDevelopment?
    ensures RecordMoves(w, s.durable, Next(w, s, step).durable.nvs)
  {
    hide CanonicalText, ReleaseId, ConfirmedPartIsValid, PendingReleaseIsValid;
  }

  lemma OthersKeepRecord(w: World, s: State, step: Step)
    requires step.Boot? || step.PowerLoss? || step.Publish? || step.Refresh? || step.PollValidation?
             || step.SelectProduction? || step.EndDevelopment? || step.StreamProduction? || step.StreamDevelopment?
             || step.FinishProduction? || step.OpenDevelopment? || step.AbortDevelopment?
    ensures Next(w, s, step).durable.nvs == s.durable.nvs
  {
    hide IsValid;
  }

  /** Every step, from every reachable state. */
  lemma StepMovesRecord(w: World, s: State, step: Step)
    requires Inv(w, s)
    ensures RecordMoves(w, s.durable, Next(w, s, step).durable.nvs)
  {
    hide Inv, Completed, ConfirmedPart, ConfirmedAndPrepared, Prepared, OpenFor, IsValid;
    if Enabled(w, s, step) {
      match step
      case Initialize(_, _) => InitializeMoves(w, s, step);
      case ServiceNotice(_) => ServiceMoves(w, s, step);
      case RollbackAcknowledged(_) => RollbackAckMoves(w, s, step);
      case StageProduction(_, _, _) => ProductionMoves(w, s, step);
      case AcceptProduction(_) => ProductionMoves(w, s, step);
      case FailProduction(_) => ProductionMoves(w, s, step);
      case BeginDevelopment(_) => BeginMoves(w, s, step);
      case FinishDevelopment(_, _, _) => FinishMoves(w, s, step);
      case CleanUpDevelopment(_, _) => CleanUpMoves(w, s, step);
      case _ => OthersKeepRecord(w, s, step);
    }
  }

  /** A step confirms the selected image, or confirms nothing; then the selected
    * slot is left alone wherever the record speaks about it. */
  predicate SelectionMoves(w: World, s: State, after: State) {
    var d, d' := s.durable, after.durable;
    || (after.confirmed == d.nvs == d'.nvs && ConfirmedAndPrepared(w, d'))
    || (&& after.confirmed == s.confirmed
        && (ConfirmedAndPrepared(w, d) || (d'.At(d'.boot).state == Valid && OpenFor(w, d', d'.boot)) ==>
              d'.boot == d.boot && d'.At(d'.boot) == d.At(d.boot)))
  }

  lemma BootSelects(w: World, s: State, step: Step)
    requires Inv(w, s) && Enabled(w, s, step) && (step.Boot? || step.PowerLoss?)
    ensures SelectionMoves(w, s, Next(w, s, step))
  {
    hide IsValid;
  }

  lemma PollSelects(w: World, s: State, step: Step)
    requires Inv(w, s) && Enabled(w, s, step) && step.PollValidation?
    ensures SelectionMoves(w, s, Next(w, s, step))
  {
    hide CanonicalText, ReleaseId, ConfirmedPartIsValid, PendingReleaseIsValid;
  }

  lemma ChoosingSelects(w: World, s: State, step: Step)
    requires Inv(w, s) && Enabled(w, s, step) && (step.SelectProduction? || step.EndDevelopment?)
    ensures SelectionMoves(w, s, Next(w, s, step))
  {
    hide CanonicalText, ReleaseId, ConfirmedPartIsValid, PendingReleaseIsValid;
  }

  lemma StreamSelects(w: World, s: State, step: Step)
    requires Inv(w, s) && Enabled(w, s, step) && (step.StreamProduction? || step.StreamDevelopment?)
    ensures SelectionMoves(w, s, Next(w, s, step))
  {
    hide CanonicalText, ReleaseId, ConfirmedPartIsValid, PendingReleaseIsValid;
  }

  lemma WorkerSelects(w: World, s: State, step: Step)
    requires Inv(w, s) && Enabled(w, s, step)
    requires !step.Boot? && !step.PowerLoss? && !step.PollValidation? && !step.SelectProduction?
    requires !step.EndDevelopment? && !step.StreamProduction? && !step.StreamDevelopment?
    ensures SelectionMoves(w, s, Next(w, s, step))
  {
    var d, d' := s.durable, Next(w, s, step).durable;
    assert d'.boot == d.boot && d'.a == d.a && d'.b == d.b && Next(w, s, step).confirmed == s.confirmed by {
      hide IsValid;
    }
  }

  lemma StepMovesSelection(w: World, s: State, step: Step)
    requires Inv(w, s)
    ensures SelectionMoves(w, s, Next(w, s, step))
  {
    if Enabled(w, s, step) {
      match step
      case Boot(_) => BootSelects(w, s, step);
      case PowerLoss => BootSelects(w, s, step);
      case PollValidation(_, _, _, _) => PollSelects(w, s, step);
      case SelectProduction(_) => ChoosingSelects(w, s, step);
      case EndDevelopment(_) => ChoosingSelects(w, s, step);
      case StreamProduction(_) => StreamSelects(w, s, step);
      case StreamDevelopment(_) => StreamSelects(w, s, step);
      case _ => WorkerSelects(w, s, step);
    }
  }

  /** The record still is the confirmed transaction, or its completion, to which
    * later transactions may have been added. */
  predicate HistoryInv(w: World, s: State) {
    var d := s.durable;
    && (d.At(d.boot).state == Valid && OpenFor(w, d, d.boot) ==> s.confirmed == d.nvs)
    && (s.confirmed.Some? ==>
          || (s.confirmed == d.nvs && ConfirmedAndPrepared(w, d))
          || Completed(s.confirmed.value) == Some(ConfirmedPart(d.nvs)))
  }

  lemma MovesKeepHistory(w: World, s: State, after: State)
    requires DurableInv(w, s.durable) && DurableInv(w, after.durable) && HistoryInv(w, s)
    requires RecordMoves(w, s.durable, after.durable.nvs) && SelectionMoves(w, s, after)
    ensures HistoryInv(w, after)
  {
    hide CanonicalText, ReleaseId, ConfirmedPartIsValid, PendingReleaseIsValid;
  }

  lemma StepHistory(w: World, s: State, step: Step)
    requires Inv(w, s) && HistoryInv(w, s)
    ensures HistoryInv(w, Next(w, s, step))
  {
    StepMovesSelection(w, s, step);
    StepMovesRecord(w, s, step);
    StepInv(w, s, step);
    hide Next, VolatileInv, IsValid, HistoryInv;
    MovesKeepHistory(w, s, Next(w, s, step));
  }
}
