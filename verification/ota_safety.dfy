/** Safety of the install transaction over every run: any interleaving of the
  * worker and the main loop, and power lost between any two steps.
  */
module OtaSafety {
  import opened Bytes
  import opened OtaInstallState
  import opened OtaBoot
  import opened OtaSystem
  import opened OtaInvariant
  import opened OtaHistory

  lemma {:induction false} RunKeepsInvariant(w: World, s: State, steps: seq<Step>)
    requires Initial(w, s)
    ensures Inv(w, Run(w, s, steps)) && HistoryInv(w, Run(w, s, steps))
  {
    if steps == [] {
      InitialInv(w, s);
    } else {
      RunKeepsInvariant(w, s, steps[..|steps| - 1]);
      var before, last := Run(w, s, steps[..|steps| - 1]), steps[|steps| - 1];
      assert Run(w, s, steps) == Next(w, before, last);
      hide *;
      StepInv(w, before, last);
      StepHistory(w, before, last);
    }
  }

  /** A slot becomes VALID only while it runs, and only if the durable record is
    * the accepted and prepared transaction for its exact address and digest. */
  lemma OnlyPreparedImagesAreConfirmed(w: World, s: State, steps: seq<Step>, step: Step, i: SlotId)
    requires Initial(w, s)
    requires Run(w, s, steps).durable.At(i).state != Valid
    requires Run(w, s, steps + [step]).durable.At(i).state == Valid
    ensures var before := Run(w, s, steps);
            && before.on.Some? && before.on.value.running == i == before.durable.boot
            && Prepared(w, before.durable, i)
            && Run(w, s, steps + [step]).confirmed == before.durable.nvs
  {
    RunKeepsInvariant(w, s, steps);
    assert (steps + [step])[..|steps|] == steps;
    MarkedValid(w, Run(w, s, steps), step, i);
  }

  lemma MarkedValid(w: World, s: State, step: Step, i: SlotId)
    requires Inv(w, s)
    ensures s.durable.At(i).state != Valid && Next(w, s, step).durable.At(i).state == Valid ==>
              && s.on.Some? && s.on.value.running == i == s.durable.boot
              && Prepared(w, s.durable, i) && Next(w, s, step).confirmed == s.durable.nvs
  {
    hide IsValid, TransferInv, PendingImageInv;
  }

  /** From the confirmation on, the record is that very transaction or its
    * completed promotion (under a later transaction, if one was opened). */
  lemma ConfirmedImageHasItsRecord(w: World, s: State, steps: seq<Step>)
    requires Initial(w, s) && Run(w, s, steps).confirmed.Some?
    ensures var r := Run(w, s, steps);
            || (r.durable.nvs == r.confirmed && ConfirmedAndPrepared(w, r.durable))
            || Completed(r.confirmed.value) == Some(ConfirmedPart(r.durable.nvs))
  {
    RunKeepsInvariant(w, s, steps);
  }

  /** A VALID slot that the open record names: it has its accepted and prepared
    * record if and only if it is the slot selected for boot. */
  lemma ValidSlotIsPreparedExactlyWhenSelected(w: World, s: State, steps: seq<Step>, i: SlotId)
    requires Initial(w, s)
    ensures var d := Run(w, s, steps).durable;
            && (d.At(i).state == Valid && OpenFor(w, d, i) ==> (Prepared(w, d, i) <==> d.boot == i))
            && (d.At(i).state == Valid && OpenFor(w, d, i) && d.boot == i ==> Run(w, s, steps).confirmed == d.nvs)
  {
    RunKeepsInvariant(w, s, steps);
    hide Run, VolatileInv, IsValid;
  }

  /** The startup policy halts exactly when it was not shown a proper image: no
    * crash can leave a record and a slot that it cannot resolve. */
  lemma RecoveryHaltsOnlyWithoutInspection(w: World, s: State, steps: seq<Step>)
    requires Initial(w, s)
    requires Run(w, s, steps).on.Some? && !Run(w, s, steps).on.value.worker.known
    ensures Recovery(w, Run(w, s, steps)) == Halt <==>
            !Run(w, s, steps).on.value.validator.image.IsKnown()
  {
    RunKeepsInvariant(w, s, steps);
    hide Run;
    HaltsOnlyWithoutInspection(w, Run(w, s, steps));
  }

  lemma HaltsOnlyWithoutInspection(w: World, s: State)
    requires Inv(w, s) && s.on.Some? && !s.on.value.worker.known
    ensures Recovery(w, s) == Halt <==> !s.on.value.validator.image.IsKnown()
  {
    hide CanonicalText, ReleaseId, ConfirmedPartIsValid, PendingReleaseIsValid;
  }

  // ------------------------------------------------------------- the counter

  function Counter(s: State): nat {
    ConfirmedPart(s.durable.nvs).confirmedReleaseCounter
  }

  /** The counter moves in one way only: up, to the counter of the transaction
    * whose slot and digest are those of the confirmed image. */
  lemma CounterRisesOnlyByPromotion(w: World, s: State, steps: seq<Step>, step: Step)
    requires Initial(w, s)
    ensures var before, after := Run(w, s, steps), Run(w, s, steps + [step]);
            && Counter(before) <= Counter(after)
            && (Counter(before) != Counter(after) ==>
                  && before.on.Some? && before.on.value.running == before.durable.boot
                  && ConfirmedAndPrepared(w, before.durable)
                  && before.durable.nvs.value.pending
                  && Counter(after) == before.durable.nvs.value.pendingReleaseCounter
                  && after.durable.nvs.Some?
                  && ConfirmedProductionMatchesRunningImage(
                       after.durable.nvs.value, w.BuildIn(before.durable, before.durable.boot)))
  {
    RunKeepsInvariant(w, s, steps);
    var before := Run(w, s, steps);
    assert (steps + [step])[..|steps|] == steps;
    assert Run(w, s, steps + [step]) == Next(w, before, step);
    StepMovesRecord(w, before, step);
    hide Run, Next, VolatileInv;
    MovesRaiseCounter(w, before.durable, Next(w, before, step).durable.nvs);
  }

  lemma MovesRaiseCounter(w: World, d: Durable, nvs: Option<InstallState>)
    requires DurableInv(w, d) && RecordMoves(w, d, nvs)
    ensures var was, now := ConfirmedPart(d.nvs).confirmedReleaseCounter, ConfirmedPart(nvs).confirmedReleaseCounter;
            && was <= now
            && (was != now ==>
                  && ConfirmedAndPrepared(w, d) && d.nvs.value.pending && nvs.Some?
                  && now == d.nvs.value.pendingReleaseCounter
                  && ConfirmedProductionMatchesRunningImage(nvs.value, w.BuildIn(d, d.boot)))
  {
    hide CanonicalText, ReleaseId;
  }

  lemma {:induction false} CounterNeverFalls(w: World, s: State, steps: seq<Step>, n: nat)
    requires Initial(w, s) && n <= |steps|
    ensures Counter(Run(w, s, steps[..n])) <= Counter(Run(w, s, steps))
  {
    if n == |steps| {
      assert steps[..n] == steps;
    } else {
      var init := steps[..|steps| - 1];
      CounterNeverFalls(w, s, init, n);
      assert init[..n] == steps[..n];
      assert init + [steps[|steps| - 1]] == steps;
      CounterRisesOnlyByPromotion(w, s, init, steps[|steps| - 1]);
    }
  }

  // ------------------------------------------------------ the way back

  /** While the selected image is on trial or rejected, the other slot is stable
    * and no step touches it: the rollback target stays what it was. */
  lemma RollbackTargetIsUntouched(w: World, s: State, steps: seq<Step>, step: Step)
    requires Initial(w, s)
    requires var d := Run(w, s, steps).durable; !Stable(d.At(d.boot).state)
    ensures var d := Run(w, s, steps).durable;
            && Stable(d.At(Other(d.boot)).state)
            && Run(w, s, steps + [step]).durable.At(Other(d.boot)) == d.At(Other(d.boot))
  {
    RunKeepsInvariant(w, s, steps);
    assert (steps + [step])[..|steps|] == steps;
    StepSparesFallback(w, Run(w, s, steps), step);
  }

  lemma StepSparesFallback(w: World, s: State, step: Step)
    requires Inv(w, s) && !Stable(s.durable.At(s.durable.boot).state)
    ensures var d := s.durable;
            Next(w, s, step).durable.At(Other(d.boot)) == d.At(Other(d.boot))
  {
    hide IsValid, Matches, Prepared, OpenFor;
  }

  /** Whatever happened before, the next boot runs an image that is stable or on
    * trial, and if that trial is cut short the boot after it runs a stable one. */
  lemma AlwaysBootable(w: World, s: State, steps: seq<Step>)
    requires Initial(w, s)
    ensures var d := Bootloader(Run(w, s, steps).durable);
            && (Stable(d.At(d.boot).state) || d.At(d.boot).state == PendingVerify)
            && Stable(Bootloader(d).At(Bootloader(d).boot).state)
  {
    RunKeepsInvariant(w, s, steps);
    hide Run, IsValid, Matches, Prepared, OpenFor, VolatileInv;
  }
}
