/** The label part of the network worker as an object: the files of the two
  * stages, moved by one upload attempt at a time (src/telemetry_uploader.cpp).
  * Every method performs at most one step of module LabelPipeline, and says which.
  */
module LabelWorkers {
  import opened Bytes
  import opened TelemetryPipeline
  import opened LabelPipeline
  import opened SpoolWorkers

  const MAXIMUM_FEEDBACK_FILES := 64

  /** loadFeedbackBundle(): a file that cannot be read now, or never. */
  datatype Load = Loaded | Unreadable | BadFrame

  /** The parsed echo of a posted label comes only with status 200. */
  datatype Echo = Echo(status: int, echoed: Option<Label>)

  /** What becomes of a waiting bundle: as of a batch, once it could be read. */
  function WaitAction(l: Label, load: Load, r: Response, probe: Probe): Action {
    match load
    case BadFrame => Condemn
    case Unreadable => Retry
    case Loaded => ActionFor(OwnName(l), r, probe)
  }

  /** What becomes of a ready bundle: the answer has to echo this very record. */
  function ReadyAction(l: Label, load: Load, r: Echo): Action {
    match load
    case BadFrame => Condemn
    case Unreadable => Retry
    case Loaded =>
      if r.status == 200 then (if r.echoed == Some(l) then Accept else Retry)
      else if r.status == 401 then HaltOperator
      else if r.status == 404 || r.status == 409 || r.status == 422 then Condemn
      else Retry
  }

  /** The invariant of the label stages, with every own acknowledgement received. */
  ghost predicate Safe(s: LabelPipeline.State) {
    LabelPipeline.Inv(s) && OwnAckFirst(s)
  }

  ghost function After(s: LabelPipeline.State, step: Option<LabelPipeline.Step>): LabelPipeline.State {
    if step.None? then s else LabelPipeline.Next(s, step.value)
  }

  lemma AttemptIsSafe(s: LabelPipeline.State, step: Option<LabelPipeline.Step>)
    ensures Safe(s) ==> Safe(After(s, step))
  {
    hide LabelPipeline.Inv, LabelPipeline.Next, OwnAckFirst;
    if Safe(s) && step.Some? {
      LabelPipeline.StepInv(s, step.value);
      StepKeepsOwnAck(s, step.value);
    }
  }

  class UploaderWorker {
    var queue: seq<Evidence>
    var wait: map<Label, Evidence>
    var ready: map<Label, Evidence>
    var operatorHalted: bool
    var probe: Probe

    /** The device's part of the pipeline state; the rest is taken from `s`. */
    ghost function In(s: LabelPipeline.State): LabelPipeline.State
      reads this
    {
      s.(queue := queue, wait := wait, ready := ready)
    }

    constructor (queue: seq<Evidence>, wait: map<Label, Evidence>, ready: map<Label, Evidence>)
      ensures this.queue == queue && this.wait == wait && this.ready == ready
      ensures !operatorHalted && probe == NoProbe
    {
      this.queue, this.wait, this.ready := queue, wait, ready;
      operatorHalted, probe := false, NoProbe;
    }

    /** freezeFeedbackQueueIfNeeded(): the oldest correction becomes a bundle. A
      * bundle that exists is kept, once it proved readable; full stages wait. */
    method FreezeFeedbackQueueIfNeeded(load: Load, rename: Outcome, ghost s: LabelPipeline.State)
      modifies this`queue, this`wait
      ensures var known := old(queue) != [] && (old(queue)[0].feedback in old(wait) || old(queue)[0].feedback in ready);
              In(s) == if (if known then load != Loaded else |old(wait)| + |ready| >= MAXIMUM_FEEDBACK_FILES)
                       then old(In(s))
                       else LabelPipeline.Next(old(In(s)), LabelPipeline.Step.Freeze(rename))
      ensures |old(wait)| + |ready| <= MAXIMUM_FEEDBACK_FILES ==> |wait| + |ready| <= MAXIMUM_FEEDBACK_FILES
      ensures Safe(old(In(s))) ==> Safe(In(s))
    {
      hide Safe;
      AttemptIsSafe(In(s), Some(LabelPipeline.Step.Freeze(rename)));
      if queue == [] {
        return;
      }
      var evidence := queue[0];
      if evidence.feedback in wait || evidence.feedback in ready {
        if load == Loaded {
          queue := queue[1..];
        }
        return;
      }
      if |wait| + |ready| >= MAXIMUM_FEEDBACK_FILES {
        return;
      }
      if rename != NotDone {
        wait := wait[evidence.feedback := evidence];
        if rename == Done {
          queue := queue[1..];
        }
      }
    }

    /** uploadOneFeedbackWait(): the bundle advances behind its own batch's
      * acknowledgement, is dead-lettered, or stays. */
    method UploadOneFeedbackWait(l: Label, load: Load, r: Response, rename: Outcome, moved: bool,
                                 ghost s: LabelPipeline.State)
      returns (ghost step: Option<LabelPipeline.Step>)
      requires l in wait && (r.ack.Some? ==> r.ack.value in s.telemetryAcks)
      modifies this`wait, this`ready, this`operatorHalted, this`probe
      ensures var action := WaitAction(l, load, r, old(probe));
              && step == (match action
                          case Accept => Some(Advance(l, r.ack.value, rename))
                          case Condemn => if moved then Some(DeadLetterWait(l)) else None
                          case _ => None)
              && operatorHalted == (old(operatorHalted) || action == HaltOperator)
              && (action == StartProbe ==> probe == Probing(OwnName(l), false))
      ensures step.None? ==> In(s) == old(In(s))
      ensures step.Some? ==> var after := LabelPipeline.Next(old(In(s)), step.value); after == In(after)
      ensures Safe(old(In(s))) ==> Safe(After(old(In(s)), step))
    {
      hide Ingest, Conflicts, Safe;
      step := None;
      if r.ack.Some? {
        AttemptIsSafe(In(s), Some(Advance(l, r.ack.value, rename)));
      }
      AttemptIsSafe(In(s), Some(DeadLetterWait(l)));
      match WaitAction(l, load, r, probe)
      case Accept =>
        step := Some(Advance(l, r.ack.value, rename));
        if l !in ready && rename != NotDone {
          wait, ready := wait - {l}, ready[l := wait[l]];
          if rename == Done {
            ClearProbe(OwnName(l));
          }
        }
      case HaltOperator => operatorHalted := true;
      case StartProbe => probe := Probing(OwnName(l), false);
      case Condemn =>
        if moved {
          step := Some(DeadLetterWait(l));
          wait := wait - {l};
          ClearProbe(OwnName(l));
        }
      case Retry =>
    }

    method ClearProbe(name: Name)
      modifies this`probe
      ensures probe == if old(probe).Probing? && old(probe).batch == name then NoProbe else old(probe)
    {
      if probe.Probing? && probe.batch == name {
        probe := NoProbe;
      }
    }

    /** uploadOneFeedbackReady(), once the label was posted: the bundle goes only
      * when the answer echoes this very record. */
    method UploadOneFeedbackReady(l: Label, load: Load, r: Echo, removed: bool, moved: bool,
                                  ghost s: LabelPipeline.State)
      returns (ghost step: Option<LabelPipeline.Step>)
      requires l in ready && (r.echoed.Some? ==> r.echoed.value in s.labelAcks)
      modifies this`ready, this`operatorHalted
      ensures var action := ReadyAction(l, load, r);
              && step == (match action
                          case Accept => Some(RemoveReady(l, l, removed))
                          case Condemn => if moved then Some(DeadLetterReady(l)) else None
                          case _ => None)
              && operatorHalted == (old(operatorHalted) || action == HaltOperator)
      ensures step.None? ==> In(s) == old(In(s))
      ensures step.Some? ==> var after := LabelPipeline.Next(old(In(s)), step.value); after == In(after)
      ensures Safe(old(In(s))) ==> Safe(After(old(In(s)), step))
    {
      hide Ingest, Conflicts, Safe;
      step := None;
      AttemptIsSafe(In(s), Some(RemoveReady(l, l, removed)));
      AttemptIsSafe(In(s), Some(DeadLetterReady(l)));
      match ReadyAction(l, load, r)
      case Accept =>
        step := Some(RemoveReady(l, l, removed));
        if removed {
          ready := ready - {l};
        }
      case HaltOperator => operatorHalted := true;
      case Condemn =>
        if moved {
          step := Some(DeadLetterReady(l));
          ready := ready - {l};
        }
      case _ =>
    }
  }

  /** The server never condemns an honest bundle: a label that is posted from a
    * reachable state is not answered with a refusal. */
  lemma HonestLabelsAreEchoed(steps: seq<LabelPipeline.Step>, l: Label)
    requires l in LabelPipeline.Run(LabelPipeline.InitialState(), steps).ready
    ensures var s := LabelPipeline.Run(LabelPipeline.InitialState(), steps);
            var t := LabelPipeline.Next(s, PostLabel(l));
            t.refused == {} && l in t.labelAcks
  {
    LabelPipeline.RunKeepsInvariant(steps);
    var s := LabelPipeline.Run(LabelPipeline.InitialState(), steps);
    assert l in s.ready.Keys;
    assert SampleStored(s.made, s.telemetry, LabelKey(l)) && s.made[LabelKey(l)].feedback == l;
    hide LabelPipeline.Run, TelemetryInv, EchoInv, OnceInv, MadeInv, QueueInv, StageInv;
  }
}
