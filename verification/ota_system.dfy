/** The whole install transaction as a step system: the durable record, the two
  * application slots with their bootloader states, the worker, the main loop's
  * validator and the mailbox between them. Power may be lost between any two
  * steps, and each step makes at most one durable change.
  */
module OtaSystem {
  import opened Bytes
  import opened OtaInstallState
  import opened OtaBoot

  // ---------------------------------------------------------------- durable

  datatype SlotId = A | B

  function Other(i: SlotId): SlotId {
    if i == A then B else A
  }

  datatype Slot = Slot(state: ImageState, digest: Digest)

  datatype Durable = Durable(nvs: Option<InstallState>, boot: SlotId, a: Slot, b: Slot) {
    function At(i: SlotId): Slot {
      if i == A then a else b
    }

    function With(i: SlotId, slot: Slot): Durable {
      if i == A then this.(a := slot) else this.(b := slot)
    }

    function Marked(i: SlotId, state: ImageState): Durable {
      With(i, At(i).(state := state))
    }
  }

  /** The partition table, and what the image with a given digest says about
    * itself: a digest fixes the version and build embedded in the image. */
  datatype World = World(addressA: nat, addressB: nat, embedded: Digest -> Build) {
    predicate IsValid() {
      PartitionAddressIsValid(addressA) && PartitionAddressIsValid(addressB) && addressA != addressB
    }

    function Address(i: SlotId): nat {
      if i == A then addressA else addressB
    }

    function Identity(d: Durable, i: SlotId): ImageIdentity {
      ImageIdentity(Address(i), d.At(i).digest)
    }

    function BuildIn(d: Durable, i: SlotId): Build {
      embedded(d.At(i).digest)
    }
  }

  function Save(nvs: Option<InstallState>, s: InstallState, o: Outcome): (Option<InstallState>, bool) {
    if !IsValid(s) || o == NotDone then (nvs, false)
    else (Some(s), o == Done)
  }

  /** The bootloader: NEW becomes PENDING_VERIFY; a slot that was already tried,
    * or rejected, gives way to the other one. */
  function Bootloader(d: Durable): Durable {
    match d.At(d.boot).state
    case New => d.Marked(d.boot, PendingVerify)
    case PendingVerify => d.Marked(d.boot, Aborted).(boot := Other(d.boot))
    case Invalid => d.(boot := Other(d.boot))
    case Aborted => d.(boot := Other(d.boot))
    case _ => d
  }

  // --------------------------------------------------------------- volatile

  datatype Notice = NoNotice | PrepareConfirmation | NoticeConfirmed | NoticeFailed

  /** The worker-to-main half of the handshake (OtaRuntimeSnapshot). */
  datatype Snapshot = Snapshot(
    known: bool, healthy: bool, productionPending: bool, developmentPending: bool, prepared: bool)

  const NO_SNAPSHOT := Snapshot(false, false, false, false, false)

  predicate SnapshotIsValid(s: Snapshot) {
    && (s.healthy ==> s.known)
    && (s.productionPending || s.developmentPending ==> s.known)
    && !(s.productionPending && s.developmentPending)
    && (s.prepared ==> (s.productionPending || s.developmentPending) && s.healthy)
  }

  /** How far the worker's image transfer has come. The source keeps this in
    * productionOtaActive_, developmentServiceStarted_, acceptedRebootPending_
    * and the position inside the transfer routines. */
  datatype Transfer =
    | NoTransfer
    | ProductionStaged
    | ProductionFinished(identity: ImageIdentity)
    | ProductionAccepted(identity: ImageIdentity)
    | DevelopmentOpen
    | DevelopmentStaged
    | DevelopmentSelected
    | DevelopmentFailed(staged: bool)
    | RebootPending

  datatype Worker = Worker(
    installState: InstallState,
    known: bool,
    healthy: bool,
    pendingImageRunning: bool,
    pendingRollbackReport: bool,
    transfer: Transfer)

  function NewWorker(): Worker {
    Worker(EmptyState(), false, true, false, false, NoTransfer)
  }

  function SnapshotOf(k: Worker): Snapshot {
    Snapshot(k.known, k.healthy, k.installState.pending, k.installState.developmentPending,
             k.healthy && k.pendingImageRunning && k.installState.pendingValidated)
  }

  datatype Volatile = Volatile(
    running: SlotId,
    worker: Worker,
    validator: ValidatorState,
    noticePublished: bool,
    seen: Snapshot,          // main's copy of the last snapshot it took
    notice: Notice,          // mailbox
    published: Snapshot)     // mailbox

  /** `confirmed` is history, not device state: the durable record at the moment
    * of the latest bootloader confirmation. */
  datatype State = State(durable: Durable, on: Option<Volatile>, confirmed: Option<InstallState>)

  // ------------------------------------------------ worker: one durable write

  datatype Written = Written(worker: Worker, nvs: Option<InstallState>, ok: bool)

  /** Store `next`, and adopt it only if the store reports success. */
  function StoreAndAdopt(k: Worker, next: Option<InstallState>, nvs: Option<InstallState>,
                         save: Outcome): Written
  {
    if next.None? then Written(k.(healthy := false), nvs, false)
    else
      var (stored, ok) := Save(nvs, next.value, save);
      Written(if ok then k.(installState := next.value) else k.(healthy := false), stored, ok)
  }

  /** initializeOtaRuntime(); `loaded` is None after a read failure, and a device
    * without a record goes through the same policy with an empty one. */
  function InitializeWorker(loaded: Option<Option<InstallState>>, image: RunningImage, running: Build,
                            nvs: Option<InstallState>, save: Outcome): Written
  {
    if loaded.None? then Written(NewWorker().(known := true, healthy := false), nvs, false)
    else
      var s := if loaded.value.Some? then loaded.value.value else EmptyState();
      var k := NewWorker().(known := true, installState := s);
      match DecideRecovery(s, image, running)
      case Ordinary =>
        if loaded.value.Some? then Written(k, nvs, true) else StoreAndAdopt(k, Some(s), nvs, save)
      case ValidatePendingImage => Written(k.(pendingImageRunning := true), nvs, true)
      case PromoteProduction => StoreAndAdopt(k, ConfirmPendingRelease(s, running), nvs, save)
      case ClearDevelopment =>
        StoreAndAdopt(k,
                      if image.state == Valid && IdentityMatches(s, image.identity)
                      then ConfirmPendingDevelopmentImage(s)
                      else Checked(CancelPendingDevelopmentImage(s)),
                      nvs, save)
      case ReportProductionRollback => Written(k.(pendingRollbackReport := true), nvs, true)
      case RollbackPendingImage => Written(k.(healthy := false), nvs, true)
      case Halt => Written(k.(healthy := false), nvs, true)
  }

  /** serviceOtaRuntime(), the boot validation notice. */
  function HandleNotice(k: Worker, notice: Notice, running: Build, nvs: Option<InstallState>,
                        save: Outcome): Written
  {
    if notice == PrepareConfirmation && Open(k.installState) && k.pendingImageRunning then
      StoreAndAdopt(k,
                    if k.installState.pendingValidated then Some(k.installState)
                    else MarkPendingValidated(k.installState, running),
                    nvs, save)
    else if notice == NoticeConfirmed && Open(k.installState) && k.pendingImageRunning then
      var r := StoreAndAdopt(k,
                             if k.installState.pending
                             then ConfirmPendingRelease(k.installState, running)
                             else ConfirmPendingDevelopmentImage(k.installState),
                             nvs, save);
      if r.ok then r.(worker := r.worker.(pendingImageRunning := false)) else r
    else Written(k, nvs, true)
  }

  /** serviceOtaRuntime(), once the backend acknowledged the rollback report. */
  function HandleRollbackAck(k: Worker, nvs: Option<InstallState>, save: Outcome): Written {
    var cancelled := k.(installState := CancelPendingRelease(k.installState));
    var (stored, ok) := Save(nvs, cancelled.installState, save);
    Written(if ok then cancelled.(pendingRollbackReport := false) else cancelled.(healthy := false),
            stored, ok)
  }

  /** installDesiredRelease() up to the durable staged record. */
  function StageRelease(k: Worker, releaseId: string, manifest: Manifest, target: nat,
                        nvs: Option<InstallState>, save: Outcome): Written
  {
    var staged := StagePendingRelease(k.installState, releaseId, manifest, target);
    if staged.None? then Written(k.(healthy := false), nvs, false)
    else
      var (stored, ok) := Save(nvs, staged.value, save);
      Written(if ok then k.(installState := staged.value, transfer := ProductionStaged)
              else k.(installState := CancelPendingRelease(staged.value), healthy := false),
              stored, ok)
  }

  /** installDesiredRelease(), after the image was streamed, hashed and read back. */
  function AcceptRelease(k: Worker, identity: ImageIdentity, nvs: Option<InstallState>,
                         save: Outcome): Written
  {
    var r := StoreAndAdopt(k, MarkPendingImageAccepted(k.installState, identity), nvs, save);
    r.(worker := r.worker.(transfer := if r.ok then ProductionAccepted(identity) else NoTransfer))
  }

  /** failProductionRelease(staged = true). */
  function FailRelease(k: Worker, nvs: Option<InstallState>, save: Outcome): Written {
    var cancelled := k.(installState := CancelPendingRelease(k.installState), transfer := NoTransfer);
    var (stored, ok) := Save(nvs, cancelled.installState, save);
    Written(if ok then cancelled else cancelled.(healthy := false), stored, ok)
  }

  /** developmentSafetyAbortCheck(): the first callback of an upload. */
  function StageDevelopment(k: Worker, target: nat, nvs: Option<InstallState>, save: Outcome): Written {
    var r := StoreAndAdopt(k, StagePendingDevelopmentImage(k.installState, target), nvs, save);
    r.(worker := r.worker.(transfer := if r.ok then DevelopmentStaged else DevelopmentFailed(false)))
  }

  /** developmentCompletionCheck(): `candidate` is the boot partition's identity,
    * None when a safety gate or the read failed. A failed store leaves the
    * worker healthy. */
  function CompleteDevelopment(k: Worker, candidate: Option<ImageIdentity>, nvs: Option<InstallState>,
                               save: Outcome): Written
  {
    var accepted :=
      if candidate.Some? && candidate.value.partitionAddress == k.installState.pendingPartitionAddress
      then MarkPendingImageAccepted(k.installState, candidate.value) else None;
    if accepted.None? then Written(k.(transfer := DevelopmentFailed(true)), nvs, false)
    else
      var (stored, ok) := Save(nvs, accepted.value, save);
      Written(if ok then k.(installState := accepted.value, transfer := RebootPending)
              else k.(transfer := DevelopmentFailed(true)),
              stored, ok)
  }

  /** serviceDevelopmentOta() after a failed upload: the staged record is cleared
    * only when the running slot is still the boot slot. */
  function CloseDevelopment(k: Worker, bootIsRunning: bool, nvs: Option<InstallState>,
                            save: Outcome): Written
  {
    var closed := k.(transfer := NoTransfer);
    if !(k.transfer.DevelopmentFailed? && k.transfer.staged && bootIsRunning) then Written(closed, nvs, true)
    else StoreAndAdopt(closed, Some(CancelPendingDevelopmentImage(k.installState)), nvs, save)
  }

  // --------------------------------------------------------------- the steps

  datatype Step =
    | Boot(inspected: bool)
    | PowerLoss
    | Initialize(loadOk: bool, save: Outcome)
    | Publish
    | Refresh
    | PollValidation(now: nat, localReady: bool, localHard: bool, flash: Outcome)
    | ServiceNotice(save: Outcome)
    | RollbackAcknowledged(save: Outcome)
    | StageProduction(releaseId: string, manifest: Manifest, save: Outcome)
    | StreamProduction(contents: Digest)
    | FinishProduction
    | AcceptProduction(save: Outcome)
    | SelectProduction(flash: Outcome)
    | FailProduction(save: Outcome)
    | OpenDevelopment
    | BeginDevelopment(save: Outcome)
    | StreamDevelopment(contents: Digest)
    | EndDevelopment(flash: Outcome)
    | FinishDevelopment(safe: bool, readOk: bool, save: Outcome)
    | AbortDevelopment
    | CleanUpDevelopment(readOk: bool, save: Outcome)

  predicate MayStartTransfer(k: Worker) {
    && k.known && k.healthy && !k.pendingImageRunning && !Open(k.installState)
    && k.transfer == NoTransfer
  }

  /** Whether the code can take the step in this state. */
  predicate Enabled(w: World, s: State, step: Step) {
    if s.on.None? then step.Boot?
    else
      var v := s.on.value;
      var k := v.worker;
      match step
      case Boot(_) => false
      case PowerLoss => true
      case Initialize(_, _) => !k.known
      case Publish => k.known
      case Refresh => true
      case PollValidation(_, _, _, _) => v.validator.phase != NotStarted && !v.noticePublished
      case ServiceNotice(_) => k.known && k.transfer != RebootPending
      case RollbackAcknowledged(_) =>
        k.known && k.transfer != RebootPending && k.pendingRollbackReport && k.installState.pendingReleaseId != ""
      case StageProduction(_, _, _) => MayStartTransfer(k)
      case StreamProduction(_) => k.transfer == ProductionStaged
      case FinishProduction =>
        && k.transfer == ProductionStaged
        && IdentityIsValid(w.Identity(s.durable, Other(v.running)))
        && w.Address(Other(v.running)) == k.installState.pendingPartitionAddress
      case AcceptProduction(_) => k.transfer.ProductionFinished?
      case SelectProduction(_) => k.transfer.ProductionAccepted?
      case FailProduction(_) =>
        k.transfer == ProductionStaged || k.transfer.ProductionFinished? || k.transfer.ProductionAccepted?
      case OpenDevelopment => MayStartTransfer(k)
      case BeginDevelopment(_) => k.transfer == DevelopmentOpen
      case StreamDevelopment(_) => k.transfer == DevelopmentStaged
      case EndDevelopment(_) => k.transfer == DevelopmentStaged
      case FinishDevelopment(_, _, _) => k.transfer == DevelopmentSelected
      case AbortDevelopment => k.transfer == DevelopmentOpen || k.transfer == DevelopmentStaged
      case CleanUpDevelopment(_, _) => k.transfer.DevelopmentFailed?
  }

  function WriteBack(s: State, v: Volatile, r: Written): State {
    s.(durable := s.durable.(nvs := r.nvs), on := Some(v.(worker := r.worker)))
  }

  function SetWorker(s: State, v: Volatile, k: Worker): State {
    s.(on := Some(v.(worker := k)))
  }

  /** Selecting a slot for boot makes it NEW. */
  function Select(d: Durable, i: SlotId, flash: Outcome): Durable {
    if flash == NotDone then d else d.Marked(i, New).(boot := i)
  }

  function BootUp(w: World, s: State, inspected: bool): State {
    var d := Bootloader(s.durable);
    var image := RunningImage(d.At(d.boot).state, w.Identity(d, d.boot));
    var validator := Begin(if inspected then image else NoImage());
    s.(durable := d,
       on := Some(Volatile(d.boot, NewWorker(), validator, false, NO_SNAPSHOT, NoNotice, NO_SNAPSHOT)))
  }

  function PublishNotice(current: Notice, notice: Notice): Option<Notice> {
    if current == NoNotice || current == notice ||
       (current == PrepareConfirmation && notice != PrepareConfirmation && notice != NoNotice)
    then Some(notice) else None
  }

  /** pollOtaBootValidation(). A rollback that succeeds does not return: the
    * device reboots with the running slot INVALID. */
  function PollBoot(s: State, v: Volatile, now: nat, localReady: bool, localHard: bool,
                    flash: Outcome): State
  {
    var installReady := v.seen.known && v.seen.healthy;
    var hard := localHard || (v.seen.known && !v.seen.healthy);
    if PollCall(v.validator, hard).CallRollback? then
      var d := if flash == NotDone then s.durable else s.durable.Marked(v.running, Invalid);
      if flash == Done then s.(durable := d, on := None)
      else Announce(s.(durable := d), v, Poll(v.validator, now, localReady && installReady, hard, false))
    else
      var polled := Poll(v.validator, now, localReady && installReady, hard, true);
      if polled.phase == AwaitingPersistence && installReady then
        if v.seen.prepared then
          var confirmed := ConfirmAfterPersistence(polled, flash == Done);
          if flash == NotDone then Announce(s, v, confirmed)
          else Announce(s.(durable := s.durable.Marked(v.running, Valid), confirmed := s.durable.nvs),
                        v, confirmed)
        else
          var sent := PublishNotice(v.notice, PrepareConfirmation);
          s.(on := Some(v.(validator := polled,
                           notice := if sent.Some? then sent.value else v.notice)))
      else Announce(s, v, polled)
  }

  /** The closing part of pollOtaBootValidation(): tell the worker how it ended. */
  function Announce(s: State, v: Volatile, validator: ValidatorState): State {
    var news := if validator.phase == Confirmed then NoticeConfirmed
                else if validator.phase == RollbackRequested || validator.phase == PlatformError
                then NoticeFailed else NoNotice;
    var sent := if news == NoNotice then None else PublishNotice(v.notice, news);
    s.(on := Some(if sent.Some? then v.(validator := validator, notice := sent.value, noticePublished := true)
                  else v.(validator := validator)))
  }

  function Next(w: World, s: State, step: Step): State {
    if !Enabled(w, s, step) then s
    else if step.Boot? then BootUp(w, s, step.inspected)
    else
      var v := s.on.value;
      var k := v.worker;
      var d := s.durable;
      var running := w.BuildIn(d, v.running);
      var target := Other(v.running);
      match step
      case PowerLoss => s.(on := None)
      case Initialize(loadOk, save) =>
        WriteBack(s, v, InitializeWorker(if loadOk then Some(d.nvs) else None,
                                         v.validator.image, running, d.nvs, save))
      case Publish =>
        if SnapshotIsValid(SnapshotOf(k)) then s.(on := Some(v.(published := SnapshotOf(k)))) else s
      case Refresh => s.(on := Some(v.(seen := v.published)))
      case PollValidation(now, localReady, localHard, flash) =>
        PollBoot(s, v, now, localReady, localHard, flash)
      case ServiceNotice(save) =>
        WriteBack(s, v.(notice := NoNotice), HandleNotice(k, v.notice, running, d.nvs, save))
      case RollbackAcknowledged(save) => WriteBack(s, v, HandleRollbackAck(k, d.nvs, save))
      case StageProduction(releaseId, manifest, save) =>
        if manifest.releaseCounter <= k.installState.confirmedReleaseCounter then s
        else WriteBack(s, v, StageRelease(k, releaseId, manifest, w.Address(target), d.nvs, save))
      case StreamProduction(contents) => s.(durable := d.With(target, d.At(target).(digest := contents)))
      case FinishProduction => SetWorker(s, v, k.(transfer := ProductionFinished(w.Identity(d, target))))
      case AcceptProduction(save) => WriteBack(s, v, AcceptRelease(k, k.transfer.identity, d.nvs, save))
      case SelectProduction(flash) =>
        SetWorker(s.(durable := Select(d, target, flash)), v,
                  if flash == Done then k.(transfer := RebootPending)
                  else k.(healthy := false, transfer := NoTransfer))
      case FailProduction(save) => WriteBack(s, v, FailRelease(k, d.nvs, save))
      case OpenDevelopment => SetWorker(s, v, k.(transfer := DevelopmentOpen))
      case BeginDevelopment(save) => WriteBack(s, v, StageDevelopment(k, w.Address(target), d.nvs, save))
      case StreamDevelopment(contents) => s.(durable := d.With(target, d.At(target).(digest := contents)))
      case EndDevelopment(flash) =>
        SetWorker(s.(durable := Select(d, target, flash)), v,
                  k.(transfer := if flash == Done then DevelopmentSelected else DevelopmentFailed(true)))
      case FinishDevelopment(safe, readOk, save) =>
        var boot := w.Identity(d, d.boot);
        WriteBack(s, v, CompleteDevelopment(k, if safe && readOk && IdentityIsValid(boot) then Some(boot) else None,
                                            d.nvs, save))
      case AbortDevelopment =>
        SetWorker(s, v, k.(transfer := DevelopmentFailed(k.transfer == DevelopmentStaged)))
      case CleanUpDevelopment(readOk, save) =>
        WriteBack(s, v, CloseDevelopment(k, readOk && d.boot == v.running, d.nvs, save))
  }

  function Run(w: World, s: State, steps: seq<Step>): State {
    if steps == [] then s
    else Next(w, Run(w, s, steps[..|steps| - 1]), steps[|steps| - 1])
  }

  /** A device as it leaves the bench or any completed transaction: powered off,
    * no open transaction, a stable image selected; the other slot holds anything. */
  predicate Initial(w: World, s: State) {
    && w.IsValid()
    && s.on.None? && s.confirmed.None?
    && s.durable.a.state != Unknown && s.durable.b.state != Unknown
    && Stable(s.durable.At(s.durable.boot).state)
    && (s.durable.nvs.Some? ==> IsValid(s.durable.nvs.value) && !Open(s.durable.nvs.value))
  }
}
