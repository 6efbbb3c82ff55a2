/** Human labels: a touch correction travels with the sample it corrects, in two
  * stages (src/telemetry_uploader.cpp, src/feedback_spool_name.cpp). The bundle
  * waits until its own one-record telemetry batch is acknowledged; only then is
  * the label posted. Network and server are as in module TelemetryPipeline; the
  * server refuses a label whose sample it does not have, and one whose key it
  * knows under another content.
  */
module LabelPipeline {
  import opened Bytes
  import SpoolNames
  import opened TelemetryQueues
  import opened TelemetryPipeline

  /** FeedbackRecord: all of it is spelled out in the bundle's file name. */
  datatype Label = Label(
    boot: nat, sequence: nat, uptimeMs: nat,
    actual: SpoolNames.ActualPresence, observed: SpoolNames.ObservedState)

  datatype Evidence = Evidence(feedback: Label, sample: Record)

  function LabelKey(l: Label): Key {
    Key(l.boot, l.sequence)
  }

  function SampleOf(e: Evidence): Entry {
    Entry(e.feedback.boot, e.sample)
  }

  /** touchFeedbackEvidenceIsValid(): label and sample are about one record. */
  predicate Matching(e: Evidence) {
    e.sample.kind == Sample && e.sample.sequence == e.feedback.sequence && e.sample.uptimeMs == e.feedback.uptimeMs
  }

  /** The name of the one-record batch inside a bundle, and its acknowledgement. */
  function OwnName(l: Label): Name {
    Name(l.boot, l.sequence, l.sequence, 1)
  }

  function OwnAck(l: Label): Ack {
    Ack(OwnName(l), 1, l.sequence)
  }

  datatype State = State(
    boot: nat, nextSequence: nat, queue: seq<Evidence>,           // RAM
    wait: map<Label, Evidence>, ready: map<Label, Evidence>,      // flash
    telemetry: map<Key, Record>, labels: map<Key, Label>,         // server
    telemetryAcks: set<Ack>, labelAcks: set<Label>,               // sent by the server
    made: map<Key, Evidence>,                                     // history: every correction made
    posted: set<Label>, refused: set<Label>, stored: seq<Label>,  // history: label requests
    acked: set<Label>, dead: set<Label>, lost: set<Label>)        // history: how labels left

  datatype Step =
    | Touch(uptimeMs: nat, revision: nat, payload: bytes, actual: SpoolNames.ActualPresence,
            observed: SpoolNames.ObservedState)
    | OrdinaryUpload(key: Key)
    | Freeze(rename: Outcome)
    | PostTelemetry(feedback: Label)
    | Advance(feedback: Label, ack: Ack, rename: Outcome)
    | PostLabel(feedback: Label)
    | RemoveReady(feedback: Label, echoed: Label, removed: bool)
    | DeadLetterWait(feedback: Label)
    | DeadLetterReady(feedback: Label)
    | PowerLoss

  predicate Enabled(s: State, step: Step) {
    match step
    case Touch(_, _, _, _, _) => true
    case OrdinaryUpload(key) => key in s.made
    case Freeze(_) => s.queue != []
    case PostTelemetry(l) => l in s.wait
    case Advance(l, ack, _) =>
      && l in s.wait && ack in s.telemetryAcks
      && Licenses(ack, OwnName(l))
    case PostLabel(l) => l in s.ready
    case RemoveReady(l, ack, _) => l in s.ready && ack in s.labelAcks && ack == l
    case DeadLetterWait(l) => l in s.wait
    case DeadLetterReady(l) => l in s.ready
    case PowerLoss => true
  }

  /** freezeFeedbackQueueIfNeeded(): a bundle that exists in either stage is kept. */
  function FreezeFeedback(s: State, rename: Outcome): State
    requires s.queue != []
  {
    var e := s.queue[0];
    if e.feedback in s.wait || e.feedback in s.ready then s.(queue := s.queue[1..])
    else if rename == NotDone then s
    else
      var waiting := s.(wait := s.wait[e.feedback := e]);
      if rename == Done then waiting.(queue := s.queue[1..]) else waiting
  }

  function Next(s: State, step: Step): State {
    if !Enabled(s, step) then s
    else
      match step
      case Touch(uptime, revision, payload, actual, observed) =>
        var r := Record(Sample, s.nextSequence, uptime, revision, payload);
        var e := Evidence(Label(s.boot, s.nextSequence, uptime, actual, observed), r);
        s.(nextSequence := s.nextSequence + 1, queue := s.queue + [e], made := s.made[LabelKey(e.feedback) := e])
      case OrdinaryUpload(key) =>
        var c := [SampleOf(s.made[key])];
        if Conflicts(s.telemetry, c) then s else s.(telemetry := Ingest(s.telemetry, c))
      case Freeze(rename) => FreezeFeedback(s, rename)
      case PostTelemetry(l) =>
        var c := [SampleOf(s.wait[l])];
        if Conflicts(s.telemetry, c) then s
        else s.(telemetry := Ingest(s.telemetry, c), telemetryAcks := s.telemetryAcks + {AckOf(c)})
      case Advance(l, _, rename) =>
        if l in s.ready || rename == NotDone then s
        else s.(wait := s.wait - {l}, ready := s.ready[l := s.wait[l]])
      case PostLabel(l) =>
        var sent := s.(posted := s.posted + {l});
        if LabelKey(l) !in s.telemetry then sent.(refused := s.refused + {l})
        else if LabelKey(l) in s.labels then
          if s.labels[LabelKey(l)] == l then sent.(labelAcks := s.labelAcks + {l})
          else sent.(refused := s.refused + {l})
        else sent.(labels := s.labels[LabelKey(l) := l], labelAcks := s.labelAcks + {l}, stored := s.stored + [l])
      case RemoveReady(l, _, removed) =>
        var noted := s.(acked := s.acked + {l});
        if removed then noted.(ready := s.ready - {l}) else noted
      case DeadLetterWait(l) => s.(wait := s.wait - {l}, dead := s.dead + {l})
      case DeadLetterReady(l) => s.(ready := s.ready - {l}, dead := s.dead + {l})
      case PowerLoss =>
        s.(queue := [], boot := s.boot + 1, nextSequence := 0,
           lost := s.lost + set e | e in s.queue :: e.feedback)
  }

  function Run(s: State, steps: seq<Step>): State {
    if steps == [] then s else Next(Run(s, steps[..|steps| - 1]), steps[|steps| - 1])
  }

  function InitialState(): State {
    State.State(0, 0, [], map[], map[], map[], map[], {}, {}, map[], {}, {}, [], {}, {}, {})
  }

  // -------------------------------------------------------------- invariant

  /** `e` is the correction that was made under its key. */
  predicate Genuine(made: map<Key, Evidence>, e: Evidence) {
    LabelKey(e.feedback) in made && made[LabelKey(e.feedback)] == e && Matching(e)
  }

  ghost predicate MadeInv(made: map<Key, Evidence>, boot: nat, nextSequence: nat) {
    forall k :: k in made ==>
      && LabelKey(made[k].feedback) == k && Matching(made[k])
      && (k.boot < boot || (k.boot == boot && k.sequence < nextSequence))
  }

  ghost predicate QueueInv(made: map<Key, Evidence>, queue: seq<Evidence>) {
    forall e :: e in queue ==> Genuine(made, e)
  }

  ghost predicate StageInv(made: map<Key, Evidence>, files: map<Label, Evidence>) {
    forall l :: l in files ==> files[l].feedback == l && Genuine(made, files[l])
  }

  /** The server has the sample that was made under this key. */
  predicate SampleStored(made: map<Key, Evidence>, telemetry: map<Key, Record>, k: Key) {
    k in made && k in telemetry && telemetry[k] == made[k].sample
  }

  ghost predicate TelemetryInv(made: map<Key, Evidence>, telemetry: map<Key, Record>) {
    forall k :: k in telemetry ==> SampleStored(made, telemetry, k)
  }

  ghost predicate AcksInv(made: map<Key, Evidence>, telemetry: map<Key, Record>, acks: set<Ack>) {
    forall a :: a in acks ==> SampleStored(made, telemetry, Key(a.batch.boot, a.batch.first))
  }

  ghost predicate AllStored(made: map<Key, Evidence>, telemetry: map<Key, Record>, labels: set<Label>) {
    forall l :: l in labels ==>
      SampleStored(made, telemetry, LabelKey(l)) && made[LabelKey(l)].feedback == l
  }

  ghost predicate StoreInv(made: map<Key, Evidence>, labels: map<Key, Label>, posted: set<Label>) {
    forall k :: k in labels ==> k in made && labels[k] == made[k].feedback && labels[k] in posted
  }

  ghost predicate EchoInv(labels: map<Key, Label>, echoed: set<Label>) {
    forall l :: l in echoed ==> LabelKey(l) in labels && labels[LabelKey(l)] == l
  }

  ghost predicate OnceInv(labels: map<Key, Label>, stored: seq<Label>) {
    && (forall i :: 0 <= i < |stored| ==> LabelKey(stored[i]) in labels)
    && (forall i, j :: 0 <= i < j < |stored| ==> LabelKey(stored[i]) != LabelKey(stored[j]))
  }

  ghost predicate Inv(s: State) {
    && MadeInv(s.made, s.boot, s.nextSequence)
    && QueueInv(s.made, s.queue) && StageInv(s.made, s.wait) && StageInv(s.made, s.ready)
    && s.wait.Keys !! s.ready.Keys
    && TelemetryInv(s.made, s.telemetry) && AcksInv(s.made, s.telemetry, s.telemetryAcks)
    && AllStored(s.made, s.telemetry, s.ready.Keys) && AllStored(s.made, s.telemetry, s.posted)
    && s.refused == {} && StoreInv(s.made, s.labels, s.posted)
    && EchoInv(s.labels, s.labelAcks) && EchoInv(s.labels, s.acked) && OnceInv(s.labels, s.stored)
  }

  // ------------------------------------------------------------- a new touch

  lemma NewKeyKeepsRest(s: State, e: Evidence)
    requires Inv(s) && LabelKey(e.feedback) !in s.made
    ensures var made := s.made[LabelKey(e.feedback) := e];
            && QueueInv(made, s.queue) && StageInv(made, s.wait) && StageInv(made, s.ready)
            && TelemetryInv(made, s.telemetry) && AcksInv(made, s.telemetry, s.telemetryAcks)
            && AllStored(made, s.telemetry, s.ready.Keys) && AllStored(made, s.telemetry, s.posted)
            && StoreInv(made, s.labels, s.posted)
  {
    hide EchoInv, OnceInv;
  }

  lemma TouchInv(s: State, step: Step)
    requires Inv(s) && step.Touch?
    ensures Inv(Next(s, step))
  {
    var after := Next(s, step);
    var e := after.queue[|s.queue|];
    NewKeyKeepsRest(s, e);
    hide StageInv, TelemetryInv, AcksInv, AllStored, StoreInv, EchoInv, OnceInv;
  }

  // --------------------------------------------------------------- the server

  lemma IngestOne(s: State, e: Evidence)
    requires Inv(s) && Genuine(s.made, e)
    ensures var after := Ingest(s.telemetry, [SampleOf(e)]);
            && TelemetryInv(s.made, after) && SampleStored(s.made, after, LabelKey(e.feedback))
            && AcksInv(s.made, after, s.telemetryAcks)
            && AllStored(s.made, after, s.ready.Keys) && AllStored(s.made, after, s.posted)
  {
    hide MadeInv, QueueInv, StageInv, StoreInv, EchoInv, OnceInv;
    var after := Ingest(s.telemetry, [SampleOf(e)]);
    assert SampleOf(e) in [SampleOf(e)];
    forall k | k in after ensures SampleStored(s.made, after, k) {
      assert k in s.telemetry ==> SampleStored(s.made, s.telemetry, k);
    }
  }

  /** A correction's sample never conflicts with what the server has. */
  lemma SampleAgrees(s: State, e: Evidence)
    requires Inv(s) && Genuine(s.made, e)
    ensures !Conflicts(s.telemetry, [SampleOf(e)])
  {
    hide MadeInv, QueueInv, StageInv, AcksInv, AllStored, StoreInv, EchoInv, OnceInv;
    assert LabelKey(e.feedback) in s.telemetry ==> SampleStored(s.made, s.telemetry, LabelKey(e.feedback));
  }

  lemma UploadInv(s: State, step: Step)
    requires Inv(s) && Enabled(s, step) && (step.OrdinaryUpload? || step.PostTelemetry?)
    ensures Inv(Next(s, step))
  {
    hide Ingest, Conflicts, QueueInv, AllStored, StoreInv, EchoInv, OnceInv, TelemetryInv;
    var e := if step.OrdinaryUpload? then s.made[step.key] else s.wait[step.feedback];
    assert Genuine(s.made, e) by {
      assert step.PostTelemetry? ==> s.wait[step.feedback] == e;
    }
    SampleAgrees(s, e);
    IngestOne(s, e);
  }

  lemma PostLabelInv(s: State, l: Label)
    requires Inv(s) && l in s.ready
    ensures Inv(Next(s, PostLabel(l)))
  {
    hide MadeInv, QueueInv, TelemetryInv, AcksInv;
    assert l in s.ready.Keys;
    var after := Next(s, PostLabel(l));
    assert AllStored(s.made, s.telemetry, after.posted);
    hide StageInv;
    if LabelKey(l) !in s.labels {
      assert after.stored[..|s.stored|] == s.stored;
    }
  }

  // ---------------------------------------------------------------- the flash

  lemma FrozenStage(s: State, rename: Outcome)
    requires QueueInv(s.made, s.queue) && StageInv(s.made, s.wait) && s.queue != [] && s.wait.Keys !! s.ready.Keys
    ensures var after := FreezeFeedback(s, rename);
            && StageInv(s.made, after.wait) && QueueInv(s.made, after.queue) && after.wait.Keys !! s.ready.Keys
            && after == s.(wait := after.wait, queue := after.queue)
  {
    hide Genuine, StageInv, QueueInv;
    QueueHead(s.made, s.queue);
    StageInsert(s.made, s.wait, s.queue[0]);
  }

  lemma QueueHead(made: map<Key, Evidence>, queue: seq<Evidence>)
    requires QueueInv(made, queue) && queue != []
    ensures Genuine(made, queue[0]) && QueueInv(made, queue[1..])
  {
    hide Genuine;
    assert queue[0] in queue;
    assert forall e :: e in queue[1..] ==> e in queue;
  }

  lemma StageInsert(made: map<Key, Evidence>, files: map<Label, Evidence>, e: Evidence)
    requires StageInv(made, files) && Genuine(made, e)
    ensures StageInv(made, files[e.feedback := e])
  {
    hide Genuine;
  }

  lemma FreezeInv(s: State, rename: Outcome)
    requires Inv(s) && s.queue != []
    ensures Inv(Next(s, Step.Freeze(rename)))
  {
    hide MadeInv, TelemetryInv, AcksInv, AllStored, StoreInv, EchoInv, OnceInv, StageInv, QueueInv, FreezeFeedback;
    FrozenStage(s, rename);
  }

  lemma AdvanceInv(s: State, step: Step)
    requires Inv(s) && step.Advance? && Enabled(s, step)
    ensures Inv(Next(s, step))
  {
    hide MadeInv, TelemetryInv, QueueInv, StoreInv, EchoInv, OnceInv;
    var l, after := step.feedback, Next(s, step);
    assert SampleStored(s.made, s.telemetry, LabelKey(l));
    assert Genuine(s.made, s.wait[l]) && s.wait[l].feedback == l;
    assert AllStored(s.made, s.telemetry, after.ready.Keys);
    hide AllStored, AcksInv, Genuine;
  }

  lemma LeaveInv(s: State, step: Step)
    requires Inv(s) && Enabled(s, step)
    requires step.RemoveReady? || step.DeadLetterWait? || step.DeadLetterReady?
    ensures Inv(Next(s, step))
  {
    hide MadeInv, QueueInv, TelemetryInv, AcksInv, StoreInv, OnceInv, Genuine, SampleStored;
  }

  lemma PowerLossInv(s: State)
    requires Inv(s)
    ensures Inv(Next(s, Step.PowerLoss))
  {
    hide StageInv, AllStored, EchoInv, TelemetryInv, AcksInv, StoreInv, OnceInv, Genuine, SampleStored;
  }

  lemma StepInv(s: State, step: Step)
    requires Inv(s)
    ensures Inv(Next(s, step))
  {
    hide Inv;
    if Enabled(s, step) {
      match step
      case Touch(_, _, _, _, _) => TouchInv(s, step);
      case OrdinaryUpload(_) => UploadInv(s, step);
      case PostTelemetry(_) => UploadInv(s, step);
      case PostLabel(l) => PostLabelInv(s, l);
      case Freeze(rename) => FreezeInv(s, rename);
      case Advance(_, _, _) => AdvanceInv(s, step);
      case PowerLoss => PowerLossInv(s);
      case _ => LeaveInv(s, step);
    }
  }

  lemma {:induction false} RunKeepsInvariant(steps: seq<Step>)
    ensures Inv(Run(InitialState(), steps))
  {
    if steps != [] {
      RunKeepsInvariant(steps[..|steps| - 1]);
      hide Inv, Next;
      StepInv(Run(InitialState(), steps[..|steps| - 1]), steps[|steps| - 1]);
    }
  }

  // --------------------------------------------------------------- theorems

  /** A label is posted only after its own sample was acknowledged, so it is never
    * refused, and the server's copy is the correction as it was made. */
  lemma NoDanglingLabels(steps: seq<Step>)
    ensures var s := Run(InitialState(), steps);
            && s.refused == {}
            && (forall l :: l in s.posted ==> SampleStored(s.made, s.telemetry, LabelKey(l)))
            && (forall k :: k in s.labels ==>
                  SampleStored(s.made, s.telemetry, k) && s.labels[k] == s.made[k].feedback)
  {
    RunKeepsInvariant(steps);
  }

  /** Repeated posts, lost responses and re-created bundles included, each key is
    * stored once; what was acknowledged is stored. */
  lemma LabelsAreStoredOnce(steps: seq<Step>)
    ensures var s := Run(InitialState(), steps);
            && (forall i, j :: 0 <= i < j < |s.stored| ==> LabelKey(s.stored[i]) != LabelKey(s.stored[j]))
            && (forall l :: l in s.acked ==> LabelKey(l) in s.labels && s.labels[LabelKey(l)] == l)
  {
    RunKeepsInvariant(steps);
  }

  /** Every label that is ready, or was ever posted, has the acknowledgement of its
    * own one-record batch. */
  ghost predicate OwnAckFirst(s: State) {
    forall l :: l in s.ready || l in s.posted ==> OwnAck(l) in s.telemetryAcks
  }

  lemma StepKeepsOwnAck(s: State, step: Step)
    ensures OwnAckFirst(s) ==> OwnAckFirst(Next(s, step))
  {
    hide Ingest, Conflicts;
    if OwnAckFirst(s) {
      forall l | l in Next(s, step).ready || l in Next(s, step).posted
        ensures OwnAck(l) in Next(s, step).telemetryAcks
      {
        AdvanceNeedsItsOwnAck(s, step, l);
      }
    }
  }

  /** Over every run, lost responses, retries and power losses included: a label
    * is posted only after its own one-record telemetry batch was acknowledged. */
  lemma {:induction false} PostedOnlyAfterItsOwnAck(steps: seq<Step>, l: Label)
    ensures var s := Run(InitialState(), steps);
            l in s.ready || l in s.posted ==> OwnAck(l) in s.telemetryAcks
  {
    RunOwnAckFirst(steps);
  }

  lemma {:induction false} RunOwnAckFirst(steps: seq<Step>)
    ensures OwnAckFirst(Run(InitialState(), steps))
  {
    if steps != [] {
      RunOwnAckFirst(steps[..|steps| - 1]);
      StepKeepsOwnAck(Run(InitialState(), steps[..|steps| - 1]), steps[|steps| - 1]);
    }
  }

  /** A bundle moves on only behind an acknowledgement of its own batch, naming
    * one record and its sequence; and only bundles that moved on are posted. */
  lemma AdvanceNeedsItsOwnAck(s: State, step: Step, l: Label)
    ensures l !in s.ready && l in Next(s, step).ready ==>
              && step.Advance? && step.feedback == l && l in s.wait
              && step.ack in s.telemetryAcks
              && step.ack == OwnAck(l)
    ensures l !in s.posted && l in Next(s, step).posted ==> l in s.ready
  {
    hide Ingest;
  }

  // ------------------------------------------------------------- conservation

  ghost predicate Queued(queue: seq<Evidence>, l: Label) {
    exists e :: e in queue && e.feedback == l
  }

  ghost predicate Somewhere(s: State, l: Label) {
    Queued(s.queue, l) || l in s.wait || l in s.ready || l in s.acked || l in s.dead || l in s.lost
  }

  ghost predicate Conserved(s: State) {
    forall k :: k in s.made ==> Somewhere(s, s.made[k].feedback)
  }

  lemma FreezeKeepsLabel(s: State, rename: Outcome, l: Label)
    requires s.queue != []
    ensures Somewhere(s, l) ==> Somewhere(FreezeFeedback(s, rename), l)
  {
    var after := FreezeFeedback(s, rename);
    assert s.queue == [s.queue[0]] + s.queue[1..];
    if Queued(s.queue, l) && !Queued(after.queue, l) {
      assert s.queue[0].feedback == l;
    }
  }

  lemma TouchKeepsLabel(queue: seq<Evidence>, e: Evidence, l: Label)
    ensures Queued(queue, l) ==> Queued(queue + [e], l)
  {
    if x :| x in queue && x.feedback == l {
      assert x in queue + [e];
    }
  }

  lemma StepKeepsLabel(s: State, step: Step, l: Label)
    ensures Somewhere(s, l) ==> Somewhere(Next(s, step), l)
  {
    hide Ingest, FreezeFeedback, Queued;
    if Enabled(s, step) && Somewhere(s, l) {
      match step
      case Freeze(rename) => FreezeKeepsLabel(s, rename, l);
      case Touch(_, _, _, _, _) =>
        if Queued(s.queue, l) {
          TouchKeepsLabel(s.queue, Next(s, step).queue[|s.queue|], l);
        }
      case PowerLoss =>
        if Queued(s.queue, l) {
          QueuedIsLost(s, l);
        }
      case _ =>
    }
  }

  lemma QueuedIsLost(s: State, l: Label)
    ensures Queued(s.queue, l) ==> l in Next(s, Step.PowerLoss).lost
  {
  }

  lemma StepConserves(s: State, step: Step)
    ensures Conserved(s) ==> Conserved(Next(s, step))
  {
    hide Next, Somewhere;
    var after := Next(s, step);
    if Conserved(s) {
      forall k | k in after.made ensures Somewhere(after, after.made[k].feedback) {
        if k in s.made && after.made[k] == s.made[k] {
          StepKeepsLabel(s, step, s.made[k].feedback);
        } else {
          TouchIsQueued(s, step, k);
        }
      }
    }
  }

  lemma TouchIsQueued(s: State, step: Step, k: Key)
    ensures var made := Next(s, step).made;
            k in made && !(k in s.made && made[k] == s.made[k]) ==> Somewhere(Next(s, step), made[k].feedback)
  {
    hide Ingest, Conflicts, FreezeFeedback;
    if step.Touch? {
      var after := Next(s, step);
      if k in after.made && !(k in s.made && after.made[k] == s.made[k]) {
        assert after.made[k] in after.queue;
      }
    } else {
      OnlyTouchMakes(s, step);
      hide Next;
    }
  }

  lemma OnlyTouchMakes(s: State, step: Step)
    ensures !step.Touch? ==> Next(s, step).made == s.made
  {
    hide Ingest, Conflicts;
  }

  /** Every correction is in RAM, in one of the stages, stored and acknowledged,
    * dead-lettered, or was in RAM when power went away. */
  lemma {:induction false} NoLabelVanishes(steps: seq<Step>)
    ensures Conserved(Run(InitialState(), steps))
  {
    if steps != [] {
      NoLabelVanishes(steps[..|steps| - 1]);
      hide Next, Conserved;
      StepConserves(Run(InitialState(), steps[..|steps| - 1]), steps[|steps| - 1]);
    }
  }
}
