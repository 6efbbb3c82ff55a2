/** The main loop's half of the handshake as an object (src/main.cpp): it owns the
  * delayed validator and reads and writes the mailbox.
  */
module OtaMainLoop {
  import opened Bytes
  import opened OtaInstallState
  import opened OtaBoot
  import opened OtaSystem
  import opened OtaInvariant
  import opened OtaWorker
  import OtaSafety

  lemma PollStep(w: World, s: State, now: nat, localReady: bool, localHard: bool, result: Outcome)
    requires s.on.Some?
    ensures var v := s.on.value;
            Next(w, s, PollValidation(now, localReady, localHard, result))
            == if v.validator.phase == NotStarted || v.noticePublished then s
               else PollBoot(s, v, now, localReady, localHard, result)
  {
  }

  lemma PollKeeps(w: World, s: State, step: Step, running: SlotId)
    ensures Inv(w, s) ==> Inv(w, Next(w, s, step))
    ensures Inv(w, s) && s.durable.At(running).state != Valid && Next(w, s, step).durable.At(running).state == Valid ==>
              Prepared(w, s.durable, running) && Next(w, s, step).confirmed == s.durable.nvs
  {
    hide Inv, Next, Prepared;
    if Inv(w, s) {
      StepInv(w, s, step);
      OtaSafety.MarkedValid(w, s, step, running);
    }
  }

  lemma RefreshStep(w: World, s: State)
    requires s.on.Some?
    ensures Next(w, s, Refresh) == s.(on := Some(s.on.value.(seen := s.on.value.published)))
  {
  }

  /** Announcing speaks about the validator that it is given, and about nothing
    * while the trial goes on. */
  lemma AnnounceOnce(s: State, v: Volatile, x: ValidatorState)
    ensures Announce(s.(on := Some(v.(validator := x))), v.(validator := x), x) == Announce(s, v, x)
    ensures x.phase == AwaitingPersistence ==> Announce(s, v, x) == s.(on := Some(v.(validator := x)))
  {
  }

  /** The result of a rollback matters only when there is one. */
  lemma NoRollback(v: ValidatorState, now: nat, ready: bool, hard: bool)
    ensures PollCall(v, hard).NoCall? ==> Poll(v, now, ready, hard, true) == Poll(v, now, ready, hard, false)
    ensures PollCall(v, hard).CallRollback? ==> Poll(v, now, ready, hard, false).phase == PlatformError
  {
  }

  class MainLoop {
    const validator: OtaDelayedBootValidator
    const mailbox: OtaRuntimeMailbox
    const flash: Flash
    var otaRuntimeSnapshot: Snapshot
    var snapshotVersion: nat
    var otaBootNoticePublished: bool
    // How many publications there were when a snapshot was taken last.
    ghost var taken: nat

    ghost predicate Valid()
      reads this, mailbox
    {
      && mailbox.Valid() && taken <= |mailbox.published|
      && snapshotVersion == VersionAfter(taken)
      && otaRuntimeSnapshot == (if taken == 0 then NO_SNAPSHOT else mailbox.published[taken - 1].handshake)
    }

    /** The step system's state; the worker's fields come from `v`. */
    ghost function In(v: Volatile, confirmed: Option<InstallState>): State
      reads this, validator, mailbox, flash
    {
      State(flash.durable,
            Some(v.(validator := validator.View(), noticePublished := otaBootNoticePublished,
                    seen := otaRuntimeSnapshot, notice := mailbox.bootNotice, published := mailbox.Latest())),
            confirmed)
    }

    constructor (validator: OtaDelayedBootValidator, mailbox: OtaRuntimeMailbox, flash: Flash)
      requires mailbox.Valid()
      ensures Valid() && this.validator == validator && this.mailbox == mailbox && this.flash == flash
      ensures otaRuntimeSnapshot == NO_SNAPSHOT && !otaBootNoticePublished && taken == 0
    {
      taken := 0;
      this.validator, this.mailbox, this.flash := validator, mailbox, flash;
      otaRuntimeSnapshot, snapshotVersion, otaBootNoticePublished := NO_SNAPSHOT, 0, false;
    }

    /** refreshOtaRuntime(): a snapshot is taken over when its version is a new one.
      * That misses an update exactly when whole cycles of the 32-bit version went
      * by since the last look. */
    method RefreshOtaRuntime(w: World, ghost v: Volatile, ghost confirmed: Option<InstallState>)
      requires Valid()
      modifies this`otaRuntimeSnapshot, this`snapshotVersion, this`taken
      ensures Valid()
      ensures var missed := |mailbox.published| - old(taken);
              if missed > 0 && old(taken) > 0 && missed % (U32_LIMIT - 1) == 0
              then In(v, confirmed) == old(In(v, confirmed)) && taken == old(taken)
              else In(v, confirmed) == Next(w, old(In(v, confirmed)), Refresh)
                   && otaRuntimeSnapshot == mailbox.Latest() && taken == |mailbox.published|
      ensures Inv(w, old(In(v, confirmed))) ==> Inv(w, In(v, confirmed))
    {
      hide Inv, Next;
      KeepsInv(w, In(v, confirmed), Refresh);
      RefreshStep(w, In(v, confirmed));
      var latest := mailbox.CopySnapshot();
      if taken > 0 {
        SameVersion(taken, |mailbox.published|);
      }
      if latest.None? || mailbox.version == snapshotVersion {
        return;
      }
      otaRuntimeSnapshot, snapshotVersion := latest.value.handshake, mailbox.version;
      taken := |mailbox.published|;
    }

    /** pollOtaBootValidation(). `result` is what the bootloader makes of the one
      * call that it may get; a rollback that succeeds restarts the device. */
    method PollOtaBootValidation(now: nat, localReady: bool, localHard: bool, result: Outcome,
                                 w: World, running: SlotId, ghost v: Volatile,
                                 ghost confirmed: Option<InstallState>)
      returns (rebooted: bool, ghost lastConfirmed: Option<InstallState>)
      requires Valid() && v.running == running
      modifies this`otaBootNoticePublished, validator, mailbox`bootNotice, flash
      ensures Valid()
      ensures var after := Next(w, old(In(v, confirmed)), PollValidation(now, localReady, localHard, result));
              if rebooted then after.on.None? && flash.durable == after.durable && lastConfirmed == after.confirmed
              else In(v, lastConfirmed) == after
      ensures Inv(w, old(In(v, confirmed))) && !rebooted ==> Inv(w, In(v, lastConfirmed))
      // The bootloader is asked to confirm only behind the prepared record of this image.
      ensures Inv(w, old(In(v, confirmed))) && !rebooted && old(flash.durable).At(running).state != ImageState.Valid
              && flash.durable.At(running).state == ImageState.Valid ==>
                Prepared(w, old(flash.durable), running) && lastConfirmed == old(flash.durable).nvs
    {
      hide Inv, Prepared, Next, Announce, Poll, PublishNotice, ConfirmAfterPersistence;
      hide OtaRuntimeMailbox.Valid, OtaRuntimeMailbox.Latest, VersionAfter;
      PollStep(w, In(v, confirmed), now, localReady, localHard, result);
      PollKeeps(w, In(v, confirmed), PollValidation(now, localReady, localHard, result), running);
      ghost var v0 := In(v, confirmed).on.value;
      lastConfirmed, rebooted := confirmed, false;
      if validator.phase == NotStarted || otaBootNoticePublished {
        return;
      }
      var installReady := otaRuntimeSnapshot.known && otaRuntimeSnapshot.healthy;
      var hardFailure := localHard || (otaRuntimeSnapshot.known && !otaRuntimeSnapshot.healthy);
      if (validator.phase == Waiting || validator.phase == AwaitingPersistence) && hardFailure && result != NotDone {
        flash.durable := flash.durable.Marked(running, Invalid);
        if result == Done {
          return true, lastConfirmed;
        }
      }
      NoRollback(validator.View(), now, localReady && installReady, hardFailure);
      var _ := validator.PollOnce(now, localReady && installReady, hardFailure, false);
      if validator.phase == AwaitingPersistence && installReady {
        lastConfirmed := ConfirmOrRequest(result, running, confirmed);
      }
      AnnounceOnce(State(flash.durable, Some(v0), lastConfirmed), v0.(notice := mailbox.bootNotice), validator.View());
      AnnounceOutcome(v, lastConfirmed);
    }

    /** Behind a prepared record the bootloader is asked to confirm; before that
      * the worker is asked to prepare it. */
    method ConfirmOrRequest(result: Outcome, running: SlotId, ghost confirmed: Option<InstallState>)
      returns (ghost lastConfirmed: Option<InstallState>)
      requires Valid() && validator.phase == AwaitingPersistence
      modifies validator, mailbox`bootNotice, flash
      ensures Valid()
      ensures if otaRuntimeSnapshot.prepared
              then && validator.View() == ConfirmAfterPersistence(old(validator.View()), result == Done)
                   && mailbox.bootNotice == old(mailbox.bootNotice)
              else && validator.View() == old(validator.View())
                   && var sent := PublishNotice(old(mailbox.bootNotice), PrepareConfirmation);
                      mailbox.bootNotice == if sent.Some? then sent.value else old(mailbox.bootNotice)
      ensures if otaRuntimeSnapshot.prepared && result != NotDone
              then && flash.durable == old(flash.durable).Marked(running, ImageState.Valid)
                   && lastConfirmed == old(flash.durable.nvs)
              else flash.durable == old(flash.durable) && lastConfirmed == confirmed
    {
      lastConfirmed := confirmed;
      if otaRuntimeSnapshot.prepared {
        if result != NotDone {
          lastConfirmed := flash.durable.nvs;
          flash.durable := flash.durable.Marked(running, ImageState.Valid);
        }
        var _ := validator.Confirm(result == Done);
      } else {
        var _ := mailbox.PublishBootValidationNotice(PrepareConfirmation);
      }
    }

    /** The closing part: tell the worker how the trial ended, once. */
    method AnnounceOutcome(ghost v: Volatile, ghost confirmed: Option<InstallState>)
      requires Valid()
      modifies this`otaBootNoticePublished, mailbox`bootNotice
      ensures Valid()
      ensures var s := old(In(v, confirmed));
              In(v, confirmed) == Announce(s, s.on.value, s.on.value.validator)
    {
      hide OtaRuntimeMailbox.Valid, OtaRuntimeMailbox.Latest, VersionAfter;
      var accepted := false;
      if validator.phase == Confirmed {
        accepted := mailbox.PublishBootValidationNotice(NoticeConfirmed);
      } else if validator.phase == RollbackRequested || validator.phase == PlatformError {
        accepted := mailbox.PublishBootValidationNotice(NoticeFailed);
      }
      otaBootNoticePublished := otaBootNoticePublished || accepted;
    }
  }
}
