/** What a boot does with the durable record: the startup decision
  * (src/ota_boot_policy.cpp) and the delayed validator of a rollback-pending
  * image (src/ota_boot_validation.cpp).
  */
module OtaBoot {
  import opened Bytes
  import opened OtaInstallState

  datatype ImageState = Unknown | Undefined | New | PendingVerify | Valid | Invalid | Aborted

  datatype RunningImage = RunningImage(state: ImageState, identity: ImageIdentity) {
    predicate IsKnown() {
      state != Unknown && IdentityIsValid(identity)
    }
  }

  function NoImage(): RunningImage {
    RunningImage(Unknown, ImageIdentity(0, ZeroDigest()))
  }

  predicate Stable(state: ImageState) {
    state == Valid || state == Undefined
  }

  datatype RecoveryAction =
    | Ordinary
    | ValidatePendingImage
    | PromoteProduction
    | ClearDevelopment
    | ReportProductionRollback
    | RollbackPendingImage
    | Halt

  function DecideRecovery(s: InstallState, image: RunningImage, running: Build): RecoveryAction {
    if !IsValid(s) || !image.IsKnown() then Halt
    else if !Open(s) then
      if image.state == PendingVerify then RollbackPendingImage
      else if Stable(image.state) then Ordinary
      else Halt
    else
      var identityMatches := IdentityMatches(s, image.identity);
      var releaseMatches := ReleaseMatches(s, running);
      if image.state == PendingVerify then
        if identityMatches && releaseMatches && s.pendingImageAccepted then ValidatePendingImage
        else RollbackPendingImage
      else if image.state == Valid && identityMatches then
        if !releaseMatches || !s.pendingImageAccepted || !s.pendingValidated then Halt
        else if s.pending then PromoteProduction else ClearDevelopment
      else if Stable(image.state) && !identityMatches then
        if s.pending then ReportProductionRollback else ClearDevelopment
      else Halt
  }

  const VALIDATION_DELAY_MS := 30_000

  datatype ValidationPhase =
    | NotStarted | NotPending | Waiting | AwaitingPersistence
    | Confirmed | RollbackRequested | PlatformError

  /** `healthySinceMs` means something only while `windowStarted`. */
  datatype ValidatorState = ValidatorState(
    phase: ValidationPhase,
    image: RunningImage,
    healthySinceMs: nat,
    windowStarted: bool)

  /** The only two calls the validator ever makes into the bootloader. */
  datatype BootCall = NoCall | CallConfirm | CallRollback

  /** Subtraction of two uint64_t clocks. */
  function Elapsed(now: nat, since: nat): nat {
    (now - since) % U64_LIMIT
  }

  function Begin(image: RunningImage): ValidatorState {
    if !image.IsKnown() then ValidatorState(PlatformError, NoImage(), 0, false)
    else if image.state == PendingVerify then ValidatorState(Waiting, image, 0, false)
    else if Stable(image.state) then ValidatorState(NotPending, image, 0, false)
    else ValidatorState(PlatformError, image, 0, false)
  }

  function PollCall(v: ValidatorState, hardFailure: bool): BootCall {
    if (v.phase == Waiting || v.phase == AwaitingPersistence) && hardFailure
    then CallRollback else NoCall
  }

  function Poll(v: ValidatorState, now: nat, ready: bool, hardFailure: bool,
                rollbackOk: bool): ValidatorState {
    if v.phase != Waiting && v.phase != AwaitingPersistence then v
    else if hardFailure then
      v.(phase := if rollbackOk then RollbackRequested else PlatformError)
    else if v.phase == AwaitingPersistence then v
    else if !ready then v.(healthySinceMs := 0, windowStarted := false)
    else
      var since := if v.windowStarted then v.healthySinceMs else now;
      if Elapsed(now, since) < VALIDATION_DELAY_MS
      then v.(healthySinceMs := since, windowStarted := true)
      else v.(phase := AwaitingPersistence, healthySinceMs := since, windowStarted := true)
  }

  function ConfirmCall(v: ValidatorState): BootCall {
    if v.phase == AwaitingPersistence then CallConfirm else NoCall
  }

  function ConfirmAfterPersistence(v: ValidatorState, confirmOk: bool): ValidatorState {
    if v.phase != AwaitingPersistence then v
    else v.(phase := if confirmOk then Confirmed else PlatformError)
  }

  /** The validator itself: fields changed in place by the hardware loop. */
  class OtaDelayedBootValidator {
    var phase: ValidationPhase
    var image: RunningImage
    var healthySinceMs: nat
    var windowStarted: bool
    // Every call made into the bootloader since begin(), in order.
    ghost var calls: seq<BootCall>

    ghost function View(): ValidatorState
      reads this
    {
      ValidatorState(phase, image, healthySinceMs, windowStarted)
    }

    constructor ()
      ensures phase == NotStarted && calls == []
    {
      phase, image, healthySinceMs, windowStarted := NotStarted, NoImage(), 0, false;
      calls := [];
    }

    /** `inspected` is what inspectRunningImage() produced, None if it failed. */
    method Start(inspected: Option<RunningImage>) returns (ok: bool)
      modifies this
      ensures View() == Begin(if inspected.Some? then inspected.value else NoImage())
      ensures ok == (phase == Waiting || phase == NotPending)
      ensures calls == []
    {
      calls := [];
      healthySinceMs, windowStarted := 0, false;
      if inspected.None? || !inspected.value.IsKnown() {
        phase, image := PlatformError, NoImage();
        return false;
      }
      image := inspected.value;
      if image.state == PendingVerify {
        phase := Waiting;
      } else if Stable(image.state) {
        phase := NotPending;
      } else {
        phase := PlatformError;
        return false;
      }
      return true;
    }

    method PollOnce(now: nat, ready: bool, hardFailure: bool, rollbackOk: bool) returns (ok: bool)
      modifies this
      ensures View() == Poll(old(View()), now, ready, hardFailure, rollbackOk)
      ensures ok == (phase in {NotPending, Confirmed, Waiting, AwaitingPersistence})
      ensures var call := PollCall(old(View()), hardFailure);
              calls == if call.NoCall? then old(calls) else old(calls) + [call]
    {
      if phase != Waiting && phase != AwaitingPersistence {
        return phase == NotPending || phase == Confirmed;
      }
      if hardFailure {
        calls := calls + [CallRollback];
        phase := if rollbackOk then RollbackRequested else PlatformError;
        return false;
      }
      if phase == AwaitingPersistence {
        return true;
      }
      if !ready {
        healthySinceMs, windowStarted := 0, false;
        return true;
      }
      if !windowStarted {
        healthySinceMs, windowStarted := now, true;
      }
      if Elapsed(now, healthySinceMs) < VALIDATION_DELAY_MS {
        return true;
      }
      phase := AwaitingPersistence;
      return true;
    }

    method Confirm(confirmOk: bool) returns (ok: bool)
      modifies this
      ensures View() == ConfirmAfterPersistence(old(View()), confirmOk)
      ensures ok == (phase == Confirmed)
      ensures var call := ConfirmCall(old(View()));
              calls == if call.NoCall? then old(calls) else old(calls) + [call]
    {
      if phase != AwaitingPersistence {
        return phase == Confirmed;
      }
      calls := calls + [CallConfirm];
      if !confirmOk {
        phase := PlatformError;
        return false;
      }
      phase := Confirmed;
      return true;
    }
  }

  /** One visit of the hardware loop: a poll, or the confirmation that follows it. */
  datatype Visit =
    | PollVisit(now: nat, ready: bool, hardFailure: bool, rollbackOk: bool)
    | ConfirmVisit(confirmOk: bool)

  function Visited(v: ValidatorState, visit: Visit): ValidatorState {
    match visit
    case PollVisit(now, ready, hard, rollbackOk) => Poll(v, now, ready, hard, rollbackOk)
    case ConfirmVisit(ok) => ConfirmAfterPersistence(v, ok)
  }

  function CallOf(v: ValidatorState, visit: Visit): BootCall {
    match visit
    case PollVisit(_, _, hard, _) => PollCall(v, hard)
    case ConfirmVisit(_) => ConfirmCall(v)
  }

  function AfterVisits(v: ValidatorState, visits: seq<Visit>): ValidatorState {
    if visits == [] then v
    else Visited(AfterVisits(v, visits[..|visits| - 1]), visits[|visits| - 1])
  }

  function CallsOf(v: ValidatorState, visits: seq<Visit>): seq<BootCall> {
    if visits == [] then []
    else
      var call := CallOf(AfterVisits(v, visits[..|visits| - 1]), visits[|visits| - 1]);
      CallsOf(v, visits[..|visits| - 1]) + (if call.NoCall? then [] else [call])
  }

  /** One boot asks the bootloader for at most one thing, ever: never a second
    * attempt, never both a confirmation and a rollback. */
  lemma {:induction false} AtMostOneBootCall(image: RunningImage, visits: seq<Visit>)
    ensures |CallsOf(Begin(image), visits)| <= 1
    ensures CallsOf(Begin(image), visits) != [] ==>
              AfterVisits(Begin(image), visits).phase in {Confirmed, RollbackRequested, PlatformError}
  {
    if visits != [] {
      AtMostOneBootCall(image, visits[..|visits| - 1]);
    }
  }

  ghost predicate ClockIsMonotone(visits: seq<Visit>) {
    forall i, j :: 0 <= i <= j < |visits| && visits[i].PollVisit? && visits[j].PollVisit? ==>
      visits[i].now <= visits[j].now < U64_LIMIT
  }

  /** Every poll from `from` on found all gates ready and no hard failure. */
  ghost predicate ReadySince(visits: seq<Visit>, from: nat) {
    && from < |visits| && visits[from].PollVisit?
    && forall i :: from <= i < |visits| && visits[i].PollVisit? ==>
         visits[i].ready && !visits[i].hardFailure
  }

  ghost predicate WindowIsHonest(image: RunningImage, visits: seq<Visit>) {
    var v := AfterVisits(Begin(image), visits);
    v.phase == Waiting && v.windowStarted ==>
      exists from: nat :: ReadySince(visits, from) && visits[from].now == v.healthySinceMs
  }

  lemma {:induction false} WindowStaysHonest(image: RunningImage, visits: seq<Visit>)
    ensures WindowIsHonest(image, visits)
  {
    if visits != [] {
      var init, last := visits[..|visits| - 1], visits[|visits| - 1];
      WindowStaysHonest(image, init);
      var before, after := AfterVisits(Begin(image), init), AfterVisits(Begin(image), visits);
      if after.phase == Waiting && after.windowStarted {
        if before.windowStarted {
          var from: nat :| ReadySince(init, from) && init[from].now == before.healthySinceMs;
          assert ReadySince(visits, from) && visits[from].now == after.healthySinceMs;
        } else {
          assert ReadySince(visits, |visits| - 1);
        }
      }
    }
  }

  /** There were ready polls without a gap spanning the full delay. */
  ghost predicate HealthyForTheDelay(visits: seq<Visit>) {
    exists from, to :: 0 <= from <= to < |visits| && ReadySince(visits[..to + 1], from)
                       && visits[to].PollVisit?
                       && visits[to].now - visits[from].now >= VALIDATION_DELAY_MS
  }

  lemma OpenWindowIsHealth(visits: seq<Visit>, from: nat)
    requires visits != [] && ReadySince(visits[..|visits| - 1], from)
    requires var last := visits[|visits| - 1];
             && last.PollVisit? && last.ready && !last.hardFailure
             && last.now - visits[from].now >= VALIDATION_DELAY_MS
    ensures HealthyForTheDelay(visits)
  {
    var to := |visits| - 1;
    assert visits[..to + 1] == visits;
    assert ReadySince(visits[..to + 1], from);
  }

  lemma HealthyForTheDelayGrows(visits: seq<Visit>)
    requires visits != [] && HealthyForTheDelay(visits[..|visits| - 1])
    ensures HealthyForTheDelay(visits)
  {
    var init := visits[..|visits| - 1];
    var from, to :| 0 <= from <= to < |init| && ReadySince(init[..to + 1], from)
                    && init[to].PollVisit? && init[to].now - init[from].now >= VALIDATION_DELAY_MS;
    assert init[..to + 1] == visits[..to + 1];
  }

  /** The poll that closes the window had the whole delay behind it. */
  lemma WindowCloses(v: ValidatorState, visit: Visit)
    requires v.phase == Waiting && Visited(v, visit).phase == AwaitingPersistence
    ensures visit.PollVisit? && visit.ready && !visit.hardFailure && v.windowStarted
    ensures v.healthySinceMs <= visit.now < U64_LIMIT ==> visit.now - v.healthySinceMs >= VALIDATION_DELAY_MS
  {
  }

  /** An image is offered for confirmation, and so confirmed, only after ready
    * polls without interruption for the full thirty seconds. */
  lemma {:induction false} ConfirmsOnlyAfterUnbrokenHealth(image: RunningImage, visits: seq<Visit>)
    requires ClockIsMonotone(visits)
    requires AfterVisits(Begin(image), visits).phase in {AwaitingPersistence, Confirmed}
             || CallConfirm in CallsOf(Begin(image), visits)
    ensures HealthyForTheDelay(visits)
  {
    hide HealthyForTheDelay;
    var init := visits[..|visits| - 1];
    var before := AfterVisits(Begin(image), init);
    if before.phase in {AwaitingPersistence, Confirmed} || CallConfirm in CallsOf(Begin(image), init) {
      ConfirmsOnlyAfterUnbrokenHealth(image, init);
      HealthyForTheDelayGrows(visits);
    } else {
      var last := |visits| - 1;
      assert before.phase == Waiting;
      WindowCloses(before, visits[last]);
      WindowStaysHonest(image, init);
      var from: nat :| ReadySince(init, from) && init[from].now == before.healthySinceMs;
      assert visits[from].now <= visits[last].now;
      OpenWindowIsHealth(visits, from);
    }
  }
}
