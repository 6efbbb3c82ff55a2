/** Labels are never stuck: from every reachable state, operations that succeed
  * bring every correction that the device still holds to the server.
  */
module LabelDelivery {
  import opened Bytes
  import Pipe = TelemetryPipeline
  import opened LabelPipeline

  /** What the worker does when flash and network work. */
  predicate Succeeds(step: Step) {
    match step
    case Freeze(rename) => rename == Done
    case PostTelemetry(_) => true
    case Advance(_, _, rename) => rename == Done
    case PostLabel(_) => true
    case RemoveReady(_, _, removed) => removed
    case _ => false
  }

  /** Nothing is given up on the way from `s` to `t`. */
  predicate GivesNothingUp(s: State, t: State) {
    t.made == s.made && t.dead == s.dead && t.lost == s.lost && s.acked <= t.acked
  }

  ghost predicate Held(s: State, l: Label) {
    Queued(s.queue, l) || l in s.wait || l in s.ready
  }

  ghost predicate Delivered(s: State, t: State) {
    && t.queue == [] && t.wait == map[] && t.ready == map[] && GivesNothingUp(s, t)
    && forall l :: Held(s, l) ==> l in t.acked
  }

  lemma {:induction false} RunFrom(s: State, first: Step, more: seq<Step>)
    ensures Run(s, [first] + more) == Run(Next(s, first), more)
  {
    if more == [] {
      assert ([first] + more)[..0] == [];
    } else {
      RunFrom(s, first, more[..|more| - 1]);
      assert ([first] + more)[..|more|] == [first] + more[..|more| - 1];
    }
  }

  lemma RunFromTwo(s: State, first: Step, second: Step, more: seq<Step>)
    ensures Run(s, [first] + ([second] + more)) == Run(Next(Next(s, first), second), more)
  {
    hide Next;
    RunFrom(s, first, [second] + more);
    RunFrom(Next(s, first), second, more);
  }

  lemma {:induction false} RunConcat(s: State, a: seq<Step>, b: seq<Step>)
    ensures Run(s, a + b) == Run(Run(s, a), b)
  {
    if b == [] {
      assert a + b == a;
    } else {
      RunConcat(s, a, b[..|b| - 1]);
      assert (a + b)[..|a + b| - 1] == a + b[..|b| - 1];
    }
  }

  /** One step of the schedule: what is held stays held, or is acknowledged. */
  ghost predicate Onward(s: State, t: State) {
    && Inv(t) && GivesNothingUp(s, t)
    && forall l :: Held(s, l) ==> Held(t, l) || l in t.acked
  }

  /** The batch of a waiting bundle is acknowledged under the bundle's own name. */
  lemma PostingIsAnswered(s: State, l: Label)
    requires Inv(s) && l in s.wait
    ensures var t := Next(s, PostTelemetry(l));
            && t == s.(telemetry := t.telemetry, telemetryAcks := t.telemetryAcks)
            && OwnAck(l) in t.telemetryAcks && l !in s.ready
  {
    hide Pipe.Ingest, Pipe.Conflicts, MadeInv, QueueInv, TelemetryInv, AcksInv, AllStored, StoreInv, EchoInv, OnceInv;
    assert s.wait[l].feedback == l && Genuine(s.made, s.wait[l]);
    SampleAgrees(s, s.wait[l]);
    assert l in s.wait.Keys;
  }

  lemma AdvanceOne(s: State, l: Label)
    requires Inv(s) && l in s.wait
    ensures var t := Next(Next(s, PostTelemetry(l)), Advance(l, OwnAck(l), Done));
            && Onward(s, t) && t.queue == s.queue && t.wait == s.wait - {l}
  {
    hide Inv, Pipe.Ingest, Queued;
    PostingIsAnswered(s, l);
    StepInv(s, PostTelemetry(l));
    StepInv(Next(s, PostTelemetry(l)), Advance(l, OwnAck(l), Done));
  }

  /** A posted label is echoed: its sample is there, and its key is its own. */
  lemma LabelIsEchoed(s: State, l: Label)
    requires Inv(s) && l in s.ready
    ensures var t := Next(s, PostLabel(l));
            && l in t.labelAcks
            && t == s.(posted := t.posted, labels := t.labels, labelAcks := t.labelAcks, stored := t.stored)
  {
    hide MadeInv, QueueInv, TelemetryInv, AcksInv, StageInv, EchoInv, OnceInv;
    assert l in s.ready.Keys;
    assert SampleStored(s.made, s.telemetry, LabelKey(l)) && s.made[LabelKey(l)].feedback == l;
  }

  lemma RemoveOne(s: State, l: Label)
    requires Inv(s) && l in s.ready
    ensures var t := Next(Next(s, PostLabel(l)), RemoveReady(l, l, true));
            && Onward(s, t) && t.queue == s.queue && t.wait == s.wait && t.ready == s.ready - {l}
  {
    hide Inv, Queued;
    LabelIsEchoed(s, l);
    StepInv(s, PostLabel(l));
    StepInv(Next(s, PostLabel(l)), RemoveReady(l, l, true));
  }

  /** Freezing moves the head of the queue into the first stage. */
  lemma FreezeHolds(s: State, l: Label)
    requires s.queue != [] && Held(s, l)
    ensures Held(Next(s, Freeze(Done)), l)
  {
    var t := Next(s, Freeze(Done));
    assert s.queue == [s.queue[0]] + s.queue[1..];
    if Queued(s.queue, l) && !Queued(t.queue, l) {
      assert s.queue[0].feedback == l;
    }
  }

  lemma FreezeGivesNothingUp(s: State)
    requires s.queue != []
    ensures var t := Next(s, Freeze(Done));
            GivesNothingUp(s, t) && t.queue == s.queue[1..]
  {
  }

  lemma FreezeOne(s: State)
    requires Inv(s) && s.queue != []
    ensures var t := Next(s, Freeze(Done));
            Onward(s, t) && |t.queue| < |s.queue|
  {
    hide Inv, Next, Held, GivesNothingUp;
    StepInv(s, Freeze(Done));
    FreezeGivesNothingUp(s);
    forall l | Held(s, l) ensures Held(Next(s, Freeze(Done)), l) {
      FreezeHolds(s, l);
    }
  }

  lemma Shrinks(files: map<Label, Evidence>, l: Label)
    requires l in files
    ensures |files - {l}| < |files|
  {
    assert (files - {l}).Keys == files.Keys - {l};
    assert |files.Keys - {l}| < |files.Keys|;
  }

  /** A post and what its answer allows. */
  lemma NextPair(s: State) returns (first: Step, second: Step)
    requires Inv(s) && s.queue == [] && (s.wait != map[] || s.ready != map[])
    ensures Succeeds(first) && Succeeds(second)
    ensures var t := Next(Next(s, first), second);
            && Onward(s, t) && t.queue == []
            && (|t.wait| < |s.wait| || (t.wait == s.wait && |t.ready| < |s.ready|))
  {
    hide Inv, Next, Onward;
    if s.wait != map[] {
      var l :| l in s.wait;
      AdvanceOne(s, l);
      Shrinks(s.wait, l);
      first, second := PostTelemetry(l), Advance(l, OwnAck(l), Done);
    } else {
      var l :| l in s.ready;
      RemoveOne(s, l);
      Shrinks(s.ready, l);
      first, second := PostLabel(l), RemoveReady(l, l, true);
    }
  }

  lemma {:induction false} Drain(s: State) returns (steps: seq<Step>)
    requires Inv(s)
    ensures Delivered(s, Run(s, steps)) && forall i :: 0 <= i < |steps| ==> Succeeds(steps[i])
    decreases |s.queue|, |s.wait|, |s.ready|
  {
    hide Inv, Next, Onward, Delivered, Succeeds;
    if s.queue != [] {
      var freeze := Freeze(Done);
      FreezeOne(s);
      OnwardInv(s, Next(s, freeze));
      var more := Drain(Next(s, freeze));
      steps := [freeze] + more;
      RunFrom(s, freeze, more);
      DeliveredVia(s, Next(s, freeze), Run(s, steps));
      DoneSucceeds();
    } else if s.wait != map[] || s.ready != map[] {
      var first, second := NextPair(s);
      var t := Next(Next(s, first), second);
      OnwardInv(s, t);
      var more := Drain(t);
      steps := [first] + ([second] + more);
      RunFromTwo(s, first, second, more);
      DeliveredVia(s, t, Run(s, steps));
    } else {
      steps := [];
      NothingHeld(s);
    }
  }

  lemma NothingHeld(s: State)
    requires s.queue == [] && s.wait == map[] && s.ready == map[]
    ensures Delivered(s, Run(s, []))
  {
  }

  lemma DoneSucceeds()
    ensures Succeeds(Freeze(Done))
  {
  }

  lemma OnwardInv(s: State, t: State)
    requires Onward(s, t)
    ensures Inv(t)
  {
  }

  lemma DeliveredVia(s: State, t: State, u: State)
    requires Onward(s, t) && Delivered(t, u)
    ensures Delivered(s, u)
  {
    hide Inv, Held;
  }

  /** From every reachable state every correction that the device holds can be
    * brought to the server, under its own identity, and nothing is given up. */
  lemma EveryLabelCanBeDelivered(history: seq<Step>)
    ensures exists steps ::
              && (forall i :: 0 <= i < |steps| ==> Succeeds(steps[i]))
              && var s, t := Run(InitialState(), history),
                             Run(InitialState(), history + steps);
                 && Delivered(s, t)
                 && forall l :: Held(s, l) ==> LabelKey(l) in t.labels && t.labels[LabelKey(l)] == l
  {
    RunKeepsInvariant(history);
    var s := Run(InitialState(), history);
    var steps := Drain(s);
    RunConcat(InitialState(), history, steps);
    LabelsAreStoredOnce(history + steps);
    hide Run, Inv, Held;
    var t := Run(s, steps);
    assert forall l :: Held(s, l) ==> LabelKey(l) in t.labels && t.labels[LabelKey(l)] == l;
  }
}
