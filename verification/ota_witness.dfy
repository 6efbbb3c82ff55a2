/** Two states that the install transaction really reaches: a VALID slot whose
  * record is not prepared, and a store that is ahead of the worker's memory; and
  * when exactly they arise.
  */
module OtaWitness {
  import opened Bytes
  import opened OtaInstallState
  import opened OtaBoot
  import opened OtaSystem
  import opened OtaInvariant
  import opened OtaHistory
  import opened OtaSafety

  /** A device that was updated before: both slots are VALID, nothing is pending. */
  function Updated(a: Digest, b: Digest): State {
    State(Durable(Some(EmptyState()), A, Slot(Valid, a), Slot(Valid, b)), None, None)
  }

  function Upload(contents: Digest): seq<Step> {
    [Boot(true), Initialize(true, Done), OpenDevelopment, BeginDevelopment(Done),
     StreamDevelopment(contents), EndDevelopment(Done), FinishDevelopment(true, true, DoneButReportedFailed)]
  }

  /** The record of an upload into slot B. */
  function StagedRecord(w: World): InstallState {
    EmptyState().(developmentPending := true, pendingPartitionAddress := w.Address(B))
  }

  function AcceptedRecord(w: World, contents: Digest): InstallState {
    StagedRecord(w).(pendingImageAccepted := true, pendingImageSha256 := contents)
  }

  function Running(w: World, a: Digest, known: bool, m: InstallState, transfer: Transfer): Option<Volatile> {
    var image := RunningImage(Valid, ImageIdentity(w.Address(A), a));
    Some(Volatile(A, NewWorker().(known := known, installState := m, transfer := transfer), Begin(image),
                  false, NO_SNAPSHOT, NoNotice, NO_SNAPSHOT))
  }

  /** The state before step k of the upload. */
  function UploadState(w: World, a: Digest, b: Digest, contents: Digest, k: nat): State {
    var s := Updated(a, b);
    if k == 0 then s
    else if k == 1 then s.(on := Running(w, a, false, EmptyState(), NoTransfer))
    else if k == 2 then s.(on := Running(w, a, true, EmptyState(), NoTransfer))
    else if k == 3 then s.(on := Running(w, a, true, EmptyState(), DevelopmentOpen))
    else
      var d := s.durable.(nvs := Some(StagedRecord(w)));
      if k == 4 then s.(durable := d, on := Running(w, a, true, StagedRecord(w), DevelopmentStaged))
      else if k == 5 then
        s.(durable := d.(b := Slot(Valid, contents)), on := Running(w, a, true, StagedRecord(w), DevelopmentStaged))
      else
        var selected := d.(b := Slot(New, contents), boot := B);
        if k == 6 then s.(durable := selected, on := Running(w, a, true, StagedRecord(w), DevelopmentSelected))
        else s.(durable := selected.(nvs := Some(AcceptedRecord(w, contents))),
                on := Running(w, a, true, StagedRecord(w), DevelopmentFailed(true)))
  }

  predicate Proper(w: World, a: Digest, contents: Digest) {
    w.IsValid() && !DigestIsZero(a) && !DigestIsZero(contents)
  }

  lemma StartStep(w: World, a: Digest, b: Digest, contents: Digest, k: nat)
    requires Proper(w, a, contents) && k < 4
    ensures Next(w, UploadState(w, a, b, contents, k), Upload(contents)[k]) == UploadState(w, a, b, contents, k + 1)
  {
  }

  lemma FinishStep(w: World, a: Digest, b: Digest, contents: Digest, k: nat)
    requires Proper(w, a, contents) && 4 <= k < 7
    ensures Next(w, UploadState(w, a, b, contents, k), Upload(contents)[k]) == UploadState(w, a, b, contents, k + 1)
  {
  }

  lemma {:induction false} UploadRun(w: World, a: Digest, b: Digest, contents: Digest, k: nat)
    requires Proper(w, a, contents) && k <= 7
    ensures Run(w, Updated(a, b), Upload(contents)[..k]) == UploadState(w, a, b, contents, k)
  {
    hide Next;
    if k > 0 {
      UploadRun(w, a, b, contents, k - 1);
      if k <= 4 {
        StartStep(w, a, b, contents, k - 1);
      } else {
        FinishStep(w, a, b, contents, k - 1);
      }
      assert Upload(contents)[..k][..k - 1] == Upload(contents)[..k - 1];
    }
  }

  lemma UpdatedIsInitial(w: World, a: Digest, b: Digest)
    requires w.IsValid()
    ensures Initial(w, Updated(a, b))
  {
  }

  /** In every world: a VALID slot that the open record names, not prepared. It is
    * the slot that is not selected, with a mark from an earlier life. */
  lemma StaleValidSlotIsNotPrepared(w: World, a: Digest, b: Digest, contents: Digest)
    requires Proper(w, a, contents)
    ensures Initial(w, Updated(a, b))
    ensures var d := Run(w, Updated(a, b), Upload(contents)[..4]).durable;
            d.At(B).state == Valid && OpenFor(w, d, B) && !Prepared(w, d, B) && d.boot == A
  {
    hide Run;
    UpdatedIsInitial(w, a, b);
    UploadRun(w, a, b, contents, 4);
  }

  /** In every world: the store holds an accepted upload, the worker's memory does
    * not, and the worker goes on as healthy. */
  lemma CompletionMayLeaveStoreAhead(w: World, a: Digest, b: Digest, contents: Digest)
    requires Proper(w, a, contents)
    ensures Initial(w, Updated(a, b))
    ensures var r := Run(w, Updated(a, b), Upload(contents));
            && r.on.Some? && r.on.value.worker.healthy && !r.on.value.worker.installState.pendingImageAccepted
            && r.durable.nvs.Some? && r.durable.nvs.value.pendingImageAccepted
  {
    hide Run;
    UpdatedIsInitial(w, a, b);
    UploadRun(w, a, b, contents, 7);
    assert Upload(contents)[..7] == Upload(contents);
  }

  /** That happens exactly when an acceptable upload's save happened and was
    * reported as failed. */
  lemma StoreIsAheadExactly(w: World, s: State, steps: seq<Step>, safe: bool, readOk: bool, save: Outcome)
    requires Initial(w, s)
    requires var r := Run(w, s, steps); r.on.Some? && r.on.value.worker.transfer == DevelopmentSelected
    ensures var r := Run(w, s, steps);
            var boot := w.Identity(r.durable, r.durable.boot);
            var after := Next(w, r, FinishDevelopment(safe, readOk, save));
            && after.on.Some? && after.on.value.worker.healthy
            && (after.durable.nvs != Some(after.on.value.worker.installState) <==>
                  safe && readOk && !DigestIsZero(boot.sha256) && save == DoneButReportedFailed)
  {
    RunKeepsInvariant(w, s, steps);
    AheadAfterCompletion(w, Run(w, s, steps), safe, readOk, save);
  }

  lemma AheadAfterCompletion(w: World, r: State, safe: bool, readOk: bool, save: Outcome)
    requires Inv(w, r) && r.on.Some? && r.on.value.worker.transfer == DevelopmentSelected
    ensures var boot := w.Identity(r.durable, r.durable.boot);
            var after := Next(w, r, FinishDevelopment(safe, readOk, save));
            && after.on.Some? && after.on.value.worker.healthy
            && (after.durable.nvs != Some(after.on.value.worker.installState) <==>
                  safe && readOk && !DigestIsZero(boot.sha256) && save == DoneButReportedFailed)
  {
    hide CanonicalText, ReleaseId, ConfirmedPartIsValid, PendingReleaseIsValid, HandshakeInv, PendingImageInv;
  }
}
