/** How a trial ends when nothing fails: an image that is the recorded one and
  * carries the recorded build is confirmed and promoted, any other one is rolled
  * back with the confirmed release untouched.
  */
module OtaOutcome {
  import opened Bytes
  import opened OtaInstallState
  import opened OtaBoot
  import opened OtaSystem
  import opened OtaInvariant
  import opened OtaHistory
  import opened OtaSafety
  import opened OtaProgress

  function PreparedRecord(s: InstallState): InstallState {
    s.(pendingValidated := true)
  }

  /** Slot i is selected; its record is open and waits for it, or has been
    * completed behind the confirmed image. `m` is the record, once prepared. */
  predicate Winning(w: World, d: Durable, i: SlotId, m: InstallState) {
    && d.boot == i && d.nvs.Some? && d.At(i).digest == m.pendingImageSha256
    && (|| (&& GoodTrial(w, d) && PreparedRecord(d.nvs.value) == m
            && d.At(i).state in {New, PendingVerify, Valid})
        || (&& d.At(i).state == Valid && Some(d.nvs.value) == Completed(m) && !Open(d.nvs.value)))
  }

  lemma WinningBoot(w: World, s: State, step: Step, i: SlotId, m: InstallState)
    requires Session(w, s) && step.Boot? && FailureFree(step) && Enabled(w, s, step)
    requires Winning(w, s.durable, i, m) && s.durable.At(i).state != PendingVerify
    ensures Winning(w, Next(w, s, step).durable, i, m)
  {
    hide CanonicalText, ReleaseId, ConfirmedPartIsValid, PendingReleaseIsValid, Completed;
  }

  lemma WinningInitialize(w: World, s: State, step: Step, i: SlotId, m: InstallState)
    requires Session(w, s) && step.Initialize? && FailureFree(step) && Enabled(w, s, step)
    requires Winning(w, s.durable, i, m)
    ensures Winning(w, Next(w, s, step).durable, i, m)
  {
    HaltsOnlyWithoutInspection(w, s);
    hide CanonicalText, ReleaseId, ConfirmedPartIsValid, PendingReleaseIsValid;
    hide HandshakeInv, PendingImageInv, TransferInv;
  }

  lemma WinningPoll(w: World, s: State, step: Step, i: SlotId, m: InstallState)
    requires Session(w, s) && step.PollValidation? && FailureFree(step) && Enabled(w, s, step)
    requires Winning(w, s.durable, i, m)
    ensures Winning(w, Next(w, s, step).durable, i, m)
  {
    hide CanonicalText, ReleaseId, ConfirmedPartIsValid, PendingReleaseIsValid, Completed;
    hide HandshakeInv, PendingImageInv, TransferInv;
  }

  lemma WinningService(w: World, s: State, step: Step, i: SlotId, m: InstallState)
    requires Session(w, s) && step.ServiceNotice? && FailureFree(step) && Enabled(w, s, step)
    requires Winning(w, s.durable, i, m)
    ensures Winning(w, Next(w, s, step).durable, i, m)
  {
    hide CanonicalText, ReleaseId, ConfirmedPartIsValid, PendingReleaseIsValid;
    hide HandshakeInv, PendingImageInv;
  }

  /** A winning image leaves no rollback to report. */
  lemma NothingToReport(w: World, s: State, save: Outcome, i: SlotId, m: InstallState)
    requires Session(w, s) && Winning(w, s.durable, i, m)
    ensures !Enabled(w, s, RollbackAcknowledged(save))
  {
    hide CanonicalText, ReleaseId, ConfirmedPartIsValid, PendingReleaseIsValid, Completed;
  }

  lemma StepKeepsWinning(w: World, s: State, step: Step, i: SlotId, m: InstallState)
    requires Session(w, s) && FailureFree(step)
    requires Winning(w, s.durable, i, m) && (s.on.None? ==> s.durable.At(i).state != PendingVerify)
    ensures Winning(w, Next(w, s, step).durable, i, m)
  {
    hide Session, Winning;
    if step.RollbackAcknowledged? {
      NothingToReport(w, s, step.save, i, m);
    }
    if Enabled(w, s, step) {
      match step
      case Boot(_) => WinningBoot(w, s, step, i, m);
      case Initialize(_, _) => WinningInitialize(w, s, step, i, m);
      case Publish => TellingKeeps(w, s, step);
      case Refresh => TellingKeeps(w, s, step);
      case PollValidation(_, _, _, _) => WinningPoll(w, s, step, i, m);
      case ServiceNotice(_) => WinningService(w, s, step, i, m);
    }
  }

  /** Only a rollback switches the device off, and a winning image has none. */
  lemma StaysOn(w: World, s: State, step: Step, i: SlotId, m: InstallState)
    requires Session(w, s) && FailureFree(step) && s.on.Some?
    requires Winning(w, s.durable, i, m)
    ensures Next(w, s, step).on.Some?
  {
    hide IsValid, Completed, HandshakeInv, PendingImageInv, TransferInv, DurableInv;
  }

  lemma {:induction false} WinningRun(w: World, s: State, steps: seq<Step>, i: SlotId, m: InstallState)
    requires Session(w, s) && forall k :: 0 <= k < |steps| ==> FailureFree(steps[k])
    requires Winning(w, s.durable, i, m) && (s.on.None? ==> s.durable.At(i).state != PendingVerify)
    ensures var t := Run(w, s, steps);
            && Session(w, t) && Winning(w, t.durable, i, m)
            && (t.on.None? ==> t.durable.At(i).state != PendingVerify)
  {
    if steps != [] {
      var init, last := steps[..|steps| - 1], steps[|steps| - 1];
      var before := Run(w, s, init);
      WinningRun(w, s, init, i, m);
      hide Session, Winning, FailureFree;
      RunProgress(w, s, steps);
      StepKeepsWinning(w, before, last, i, m);
      if before.on.Some? {
        StaysOn(w, before, last, i, m);
      } else {
        OffUntilBooted(w, before, last);
      }
    }
  }

  lemma OffUntilBooted(w: World, s: State, step: Step)
    requires s.on.None?
    ensures Next(w, s, step) == s || Next(w, s, step).on.Some?
  {
    hide IsValid;
  }

  // ------------------------------------------------------------ the losing side

  /** Slot i was selected with an image that must not win: the other slot and the
    * confirmed release stay what they were. */
  predicate Losing(w: World, d: Durable, i: SlotId, fallback: Slot, release: InstallState) {
    && ConfirmedPart(d.nvs) == release && d.At(Other(i)) == fallback && Stable(fallback.state)
    && (d.nvs.Some? && Open(d.nvs.value) ==> OpenFor(w, d, i))
    && (d.boot == i ==> d.At(i).state in {New, PendingVerify, Invalid, Aborted} && !GoodTrial(w, d))
  }

  lemma LosingBoot(w: World, s: State, step: Step, i: SlotId, fallback: Slot, release: InstallState)
    requires Session(w, s) && step.Boot? && FailureFree(step) && Enabled(w, s, step)
    requires Losing(w, s.durable, i, fallback, release)
    ensures Losing(w, Next(w, s, step).durable, i, fallback, release)
  {
    hide IsValid, ConfirmedPart;
  }

  lemma LosingInitialize(w: World, s: State, step: Step, i: SlotId, fallback: Slot, release: InstallState)
    requires Session(w, s) && step.Initialize? && FailureFree(step) && Enabled(w, s, step)
    requires Losing(w, s.durable, i, fallback, release)
    ensures Losing(w, Next(w, s, step).durable, i, fallback, release)
  {
    HaltsOnlyWithoutInspection(w, s);
    hide CanonicalText, ReleaseId, PendingReleaseIsValid;
    hide HandshakeInv, PendingImageInv, TransferInv;
  }

  lemma LosingPoll(w: World, s: State, step: Step, i: SlotId, fallback: Slot, release: InstallState)
    requires Session(w, s) && step.PollValidation? && FailureFree(step) && Enabled(w, s, step)
    requires Losing(w, s.durable, i, fallback, release)
    ensures Losing(w, Next(w, s, step).durable, i, fallback, release)
  {
    hide IsValid, ConfirmedPart, HandshakeInv, PendingImageInv, TransferInv;
  }

  lemma LosingService(w: World, s: State, step: Step, i: SlotId, fallback: Slot, release: InstallState)
    requires Session(w, s) && step.ServiceNotice? && FailureFree(step) && Enabled(w, s, step)
    requires Losing(w, s.durable, i, fallback, release)
    ensures Losing(w, Next(w, s, step).durable, i, fallback, release)
  {
    hide CanonicalText, ReleaseId, ConfirmedPartIsValid, PendingReleaseIsValid;
  }

  lemma LosingReport(w: World, s: State, step: Step, i: SlotId, fallback: Slot, release: InstallState)
    requires Session(w, s) && step.RollbackAcknowledged? && FailureFree(step) && Enabled(w, s, step)
    requires Losing(w, s.durable, i, fallback, release)
    ensures Losing(w, Next(w, s, step).durable, i, fallback, release)
  {
    hide CanonicalText, ReleaseId, ConfirmedPartIsValid, PendingReleaseIsValid;
  }

  lemma TellingKeeps(w: World, s: State, step: Step)
    requires step.Publish? || step.Refresh?
    ensures Next(w, s, step).durable == s.durable
  {
    hide IsValid;
  }

  lemma StepKeepsLosing(w: World, s: State, step: Step, i: SlotId, fallback: Slot, release: InstallState)
    requires Session(w, s) && FailureFree(step)
    requires Losing(w, s.durable, i, fallback, release)
    ensures Losing(w, Next(w, s, step).durable, i, fallback, release)
  {
    hide Session, Losing;
    if Enabled(w, s, step) {
      match step
      case Boot(_) => LosingBoot(w, s, step, i, fallback, release);
      case Initialize(_, _) => LosingInitialize(w, s, step, i, fallback, release);
      case Publish => TellingKeeps(w, s, step);
      case Refresh => TellingKeeps(w, s, step);
      case PollValidation(_, _, _, _) => LosingPoll(w, s, step, i, fallback, release);
      case ServiceNotice(_) => LosingService(w, s, step, i, fallback, release);
      case RollbackAcknowledged(_) => LosingReport(w, s, step, i, fallback, release);
    }
  }

  lemma {:induction false} LosingRun(w: World, s: State, steps: seq<Step>, i: SlotId, fallback: Slot,
                                     release: InstallState)
    requires Session(w, s) && forall k :: 0 <= k < |steps| ==> FailureFree(steps[k])
    requires Losing(w, s.durable, i, fallback, release)
    ensures Losing(w, Run(w, s, steps).durable, i, fallback, release)
  {
    if steps != [] {
      var init, last := steps[..|steps| - 1], steps[|steps| - 1];
      LosingRun(w, s, init, i, fallback, release);
      hide Session, Losing, FailureFree;
      RunProgress(w, s, init);
      StepKeepsLosing(w, Run(w, s, init), last, i, fallback, release);
    }
  }

  // ---------------------------------------------------------------- theorem

  /** A candidate is selected: for the first time, or confirmed by its bootloader
    * before power was lost. */
  predicate CandidateSelected(w: World, d: Durable) {
    var state := d.At(d.boot).state;
    state == New || (state == Valid && GoodTrial(w, d))
  }

  lemma CandidateWinsOrLoses(w: World, s: State)
    requires Inv(w, s) && CandidateSelected(w, s.durable)
    ensures var d := s.durable;
            if GoodTrial(w, d) then Winning(w, d, d.boot, PreparedRecord(d.nvs.value))
            else Losing(w, d, d.boot, d.At(Other(d.boot)), ConfirmedPart(d.nvs))
  {
    hide CanonicalText, ReleaseId, ConfirmedPartIsValid, PendingReleaseIsValid, VolatileInv;
  }

  /** What the completion of a good record says. */
  lemma GoodRecordCompletes(w: World, d: Durable)
    requires GoodTrial(w, d)
    ensures var m := PreparedRecord(d.nvs.value);
            && Completed(m).Some?
            && (d.nvs.value.pending ==>
                  && Completed(m).value.confirmedReleaseCounter == d.nvs.value.pendingReleaseCounter
                  && ConfirmedProductionMatchesRunningImage(Completed(m).value, w.BuildIn(d, d.boot)))
  {
    hide CanonicalText, ReleaseId;
  }

  /** After any history that ends with a selected candidate and no power, a
    * failure-free run that settles has confirmed and promoted the candidate if
    * and only if it is the recorded image with the recorded build; otherwise the
    * other slot runs as before, under the release that was confirmed before. */
  lemma TrialOutcome(w: World, s: State, history: seq<Step>, steps: seq<Step>)
    requires Initial(w, s)
    requires Run(w, s, history).on.None? && Inspectable(w, Run(w, s, history).durable)
    requires CandidateSelected(w, Run(w, s, history).durable)
    requires forall k :: 0 <= k < |steps| ==> FailureFree(steps[k])
    requires Settled(Run(w, Run(w, s, history), steps))
    ensures var d := Run(w, s, history).durable;
            var t := Run(w, Run(w, s, history), steps).durable;
            var i := d.boot;
            && (t.boot == i <==> GoodTrial(w, d))
            && (GoodTrial(w, d) ==>
                  && t.At(i) == Slot(Valid, d.At(i).digest) && t.nvs.Some?
                  && t.nvs == Completed(PreparedRecord(d.nvs.value))
                  && (d.nvs.value.pending ==>
                        && t.nvs.value.confirmedReleaseCounter == d.nvs.value.pendingReleaseCounter
                        && ConfirmedProductionMatchesRunningImage(t.nvs.value, w.BuildIn(t, i))))
            && (!GoodTrial(w, d) ==>
                  t.At(Other(i)) == d.At(Other(i)) && ConfirmedPart(t.nvs) == ConfirmedPart(d.nvs))
  {
    RunKeepsInvariant(w, s, history);
    var r := Run(w, s, history);
    var d := r.durable;
    CandidateWinsOrLoses(w, r);
    if GoodTrial(w, d) {
      WinningRun(w, r, steps, d.boot, PreparedRecord(d.nvs.value));
      GoodRecordCompletes(w, d);
    } else {
      LosingRun(w, r, steps, d.boot, d.At(Other(d.boot)), ConfirmedPart(d.nvs));
    }
    hide Run, Inv, Completed, ConfirmedPart, IsValid, ConfirmedProductionMatchesRunningImage;
  }
}
