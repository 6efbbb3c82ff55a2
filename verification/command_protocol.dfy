/** How a remote command is executed (src/telemetry_uploader.cpp): accepted,
  * acknowledged, made durable as running, executed, made durable as finished,
  * acknowledged again; with power lost between any two steps.
  *
  * Acceptances are numbered in history only, so that two acceptances of one
  * command id are told apart.
  */
module CommandProtocol {
  import opened Bytes
  import opened DurableRecords
  import opened CommandJournals

  datatype Entry = Entry(record: JournalRecord, number: nat)

  datatype CommandStep = Idle | AckAccepted | AckRunning | WaitingMain | AckFinal

  datatype Worker = Worker(
    journal: Option<Entry>, step: CommandStep, hasActive: bool, restart: bool, halted: bool, healthy: bool)

  /** `accepted` and `executed` are history: how many acceptances there were, and
    * which of them started their side effect, in order. */
  datatype State = State(durable: Option<Entry>, on: Option<Worker>, accepted: nat, executed: seq<nat>)

  function NewWorker(): Worker {
    Worker(None, Idle, false, false, false, true)
  }

  function Record(e: Option<Entry>): Option<JournalRecord> {
    if e.Some? then Some(e.value.record) else None
  }

  function Moved(e: Option<Entry>, next: Status): (r: (Option<Entry>, bool))
    ensures r.0.Some? == e.Some? && (r.1 ==> e.Some?)
  {
    var (r, ok) := Transition(Record(e), next);
    (if ok then Some(Entry(r.value, e.value.number)) else e, ok)
  }

  /** persistCommandJournal(): a failure halts everything but acknowledgements. */
  function Persist(s: State, k: Worker, o: Outcome): (State, Worker, bool) {
    var stored := if o == NotDone || k.journal.None? || !k.journal.value.record.IsValid()
                  then s.durable else k.journal;
    var ok := o == Done && k.journal.Some? && k.journal.value.record.IsValid();
    (s.(durable := stored), if ok then k else k.(halted := true, healthy := false), ok)
  }

  function Put(s: State, k: Worker): State {
    s.(on := Some(k))
  }

  /** initializeCommandJournal(). */
  function BootUp(s: State, loadOk: bool, save: Outcome): State {
    var k := NewWorker();
    if !loadOk then Put(s, k.(halted := true, healthy := false))
    else if s.durable.None? then Put(s, k)
    else if !s.durable.value.record.IsValid() then Put(s, k.(halted := true, healthy := false))
    else
      var restored := k.(journal := s.durable);
      if Terminal(s.durable.value.record.status) then Put(s, restored.(step := AckFinal))
      else
        var failed := restored.(journal := Moved(s.durable, Failed).0);
        var (t, after, ok) := Persist(s, failed, save);
        Put(t, if ok then after.(step := AckFinal) else after)
  }

  function SetCommandTerminal(s: State, k: Worker, status: Status, save: Outcome): State {
    var (moved, ok) := Moved(k.journal, status);
    if !ok then Put(s, k.(step := Idle, hasActive := false))
    else
      var (t, after, saved) := Persist(s, k.(journal := moved), save);
      Put(t, if saved then after.(step := AckFinal) else after.(step := Idle, hasActive := false))
  }

  /** What executeCurrentCommand() meets: it performs the command, hands it to the
    * main loop, or is refused by the mailbox or the clock. */
  datatype Execution = Performed(status: Status) | Handed | Refused(status: Status)

  predicate Possible(action: Action, e: Execution) {
    if action == RecalibrateMicrophone || action == OpenDevOta
    then e == Handed || e == Refused(Expired) || e == Refused(Failed)
    else e == Performed(Succeeded) || (action == SetLogLevel && e == Performed(Failed))
  }

  function Execute(s: State, k: Worker, e: Execution, save: Outcome): State
    requires k.journal.Some?
  {
    var started := if e.Refused? then s else s.(executed := s.executed + [k.journal.value.number]);
    if !k.hasActive then SetCommandTerminal(s, k, Failed, save)
    else if e.Handed? then Put(started, k.(step := WaitingMain))
    else SetCommandTerminal(started, k.(restart := k.restart || k.journal.value.record.action == Reboot),
                            e.status, save)
  }

  /** serviceCommandAcknowledgement(), once the backend took the acknowledgement. */
  function Acknowledged(s: State, k: Worker, e: Execution, save: Outcome): State
    requires k.journal.Some?
  {
    match k.step
    case AckAccepted =>
      var (moved, ok) := Moved(k.journal, Running);
      if !ok then Put(s, k)
      else
        var (t, after, saved) := Persist(s, k.(journal := moved), save);
        Put(t, if saved then after.(step := AckRunning) else after)
    case AckRunning => Execute(s, k, e, save)
    case _ =>
      if k.restart then s.(on := None) else Put(s, k.(step := Idle, hasActive := false))
  }

  /** handlePolledCommand(). */
  function Polled(s: State, k: Worker, c: Envelope, serverUtcMs: nat, save: Outcome): State {
    var (r, acceptance) := Consider(Record(k.journal), c, serverUtcMs);
    match acceptance
    case AcceptedNew =>
      var first := k.(journal := Some(Entry(r.value, s.accepted)));
      var (t, after, saved) := Persist(s.(accepted := s.accepted + 1), first, save);
      Put(t, if saved then after.(hasActive := true, step := AckAccepted) else after)
    case ReplayExisting =>
      var leased := k.(journal := Some(Entry(r.value, k.journal.value.number)));
      var (t, after, saved) := Persist(s, leased, save);
      Put(t, if saved && Terminal(r.value.status) then after.(step := AckFinal) else after)
    case _ => Put(s, k)
  }

  datatype Step =
    | Boot(loadOk: bool, save: Outcome)
    | PowerLoss
    | Poll(command: Envelope, serverUtcMs: nat, save: Outcome)
    | OperatorHalt
    | Acknowledge(execution: Execution, save: Outcome)
    | MainResult(status: Status, save: Outcome)

  predicate Enabled(s: State, step: Step) {
    match step
    case Boot(_, _) => s.on.None?
    case PowerLoss => s.on.Some?
    case Poll(_, _, _) => s.on.Some? && !s.on.value.halted
    case OperatorHalt => s.on.Some?
    case Acknowledge(e, _) =>
      && s.on.Some? && s.on.value.journal.Some?
      && s.on.value.step in {AckAccepted, AckRunning, AckFinal}
      && Possible(s.on.value.journal.value.record.action, e)
    case MainResult(status, _) => s.on.Some? && s.on.value.step == WaitingMain && Terminal(status)
  }

  function Next(s: State, step: Step): State {
    if !Enabled(s, step) then s
    else
      match step
      case Boot(loadOk, save) => BootUp(s, loadOk, save)
      case PowerLoss => s.(on := None)
      case Poll(c, now, save) => Polled(s, s.on.value, c, now, save)
      case OperatorHalt => Put(s, s.on.value.(halted := true))
      case Acknowledge(e, save) => Acknowledged(s, s.on.value, e, save)
      case MainResult(status, save) => SetCommandTerminal(s, s.on.value, status, save)
  }

  function Run(s: State, steps: seq<Step>): State {
    if steps == [] then s else Next(Run(s, steps[..|steps| - 1]), steps[|steps| - 1])
  }

  predicate Initial(s: State) {
    && s.on.None? && s.executed == []
    && (s.durable.Some? ==> s.durable.value.record.IsValid() && s.durable.value.number < s.accepted)
  }

  // ------------------------------------------------------------- invariant

  /** The store speaks of the same acceptance as the worker, with this status. */
  predicate DurablyAt(s: State, k: Worker, number: nat, status: Status) {
    && k.journal.Some? && k.journal.value.number == number
    && s.durable.Some? && s.durable.value.number == number
    && s.durable.value.record.status == status
  }

  predicate WorkerInv(s: State, k: Worker) {
    && (k.journal.Some? ==> k.journal.value.record.IsValid() && k.journal.value.number < s.accepted)
    && (k.healthy ==> k.journal == s.durable)
    && (!k.healthy ==> k.halted)
    && match k.step
       case Idle => k.healthy && k.journal.Some? ==> Terminal(k.journal.value.record.status)
       case AckAccepted =>
         && k.hasActive && k.journal.Some? && k.journal.value.number !in s.executed
         && (DurablyAt(s, k, k.journal.value.number, Accepted) || DurablyAt(s, k, k.journal.value.number, Running))
         && k.journal.value.record.status in {Accepted, Running}
       case AckRunning =>
         && k.hasActive && k.journal.Some? && k.journal.value.number !in s.executed
         && DurablyAt(s, k, k.journal.value.number, Running) && k.journal.value.record.status == Running
       case WaitingMain =>
         && k.journal.Some? && DurablyAt(s, k, k.journal.value.number, Running)
         && k.journal.value.record.status == Running
       case AckFinal => k.healthy ==> k.journal.Some? && Terminal(k.journal.value.record.status)
  }

  /** Only acceptances are executed, each at most once. */
  predicate ExecutedOnce(executed: seq<nat>, accepted: nat) {
    && (forall i :: 0 <= i < |executed| ==> executed[i] < accepted)
    && (forall i, j :: 0 <= i < j < |executed| ==> executed[i] != executed[j])
  }

  predicate Inv(s: State) {
    && (s.durable.Some? ==> s.durable.value.record.IsValid() && s.durable.value.number < s.accepted)
    && ExecutedOnce(s.executed, s.accepted)
    && (s.on.Some? ==> WorkerInv(s, s.on.value))
  }

  lemma TerminalInv(s: State, k: Worker, status: Status, save: Outcome)
    requires Inv(s.(on := None)) && Terminal(status) && k.journal.Some?
    requires WorkerInv(s, k.(step := WaitingMain)) && k.journal.value.record.status == Running
    ensures Inv(SetCommandTerminal(s, k, status, save))
  {
    hide Text, ExecutedOnce;
  }

  lemma AcknowledgeInv(s: State, e: Execution, save: Outcome)
    requires Inv(s) && Enabled(s, Acknowledge(e, save))
    ensures Inv(Next(s, Acknowledge(e, save)))
  {
    hide Text;
    var k := s.on.value;
    if k.step == AckRunning {
      var number := k.journal.value.number;
      var started := if e.Refused? then s else s.(executed := s.executed + [number]);
      assert Inv(started.(on := None));
      if !e.Handed? {
        TerminalInv(started, k.(restart := k.restart || k.journal.value.record.action == Reboot), e.status, save);
      }
    }
  }

  lemma PollInv(s: State, c: Envelope, now: nat, save: Outcome)
    requires Inv(s) && Enabled(s, Poll(c, now, save))
    ensures Inv(Next(s, Poll(c, now, save)))
  {
    hide Text;
  }

  lemma StepInv(s: State, step: Step)
    requires Inv(s)
    ensures Inv(Next(s, step))
  {
    hide Text, ExecutedOnce;
    if Enabled(s, step) {
      match step
      case Poll(c, now, save) => PollInv(s, c, now, save);
      case Acknowledge(e, save) => AcknowledgeInv(s, e, save);
      case MainResult(status, save) => TerminalInv(s, s.on.value, status, save);
      case _ =>
    }
  }

  lemma {:induction false} RunKeepsInvariant(s: State, steps: seq<Step>)
    requires Initial(s)
    ensures Inv(Run(s, steps))
  {
    if steps != [] {
      RunKeepsInvariant(s, steps[..|steps| - 1]);
      StepInv(Run(s, steps[..|steps| - 1]), steps[|steps| - 1]);
    }
  }

  // -------------------------------------------------------------- theorems

  /** A side effect starts only behind a durable RUNNING record of its own
    * acceptance, and each acceptance starts it at most once. */
  lemma EffectsFollowTheJournal(s: State, steps: seq<Step>, step: Step)
    requires Initial(s)
    ensures var before, after := Run(s, steps), Run(s, steps + [step]);
            && (forall i, j :: 0 <= i < j < |after.executed| ==> after.executed[i] != after.executed[j])
            && (after.executed != before.executed ==>
                  && before.durable.Some? && before.durable.value.record.status == Running
                  && after.executed == before.executed + [before.durable.value.number])
  {
    RunKeepsInvariant(s, steps);
    assert (steps + [step])[..|steps|] == steps;
    StepInv(Run(s, steps), step);
    hide Text;
  }

  /** What may come after a record: the same acceptance, moved forward, or a later
    * acceptance of another id once the first had a final status. */
  predicate Follows(a: Entry, b: Entry) {
    if a.number == b.number then
      && a.record.commandId == b.record.commandId
      && a.record.acceptedAtMs == b.record.acceptedAtMs && a.record.action == b.record.action
      && (a.record.status == b.record.status || Precedes(b.record.status, a.record.status))
    else
      a.number > b.number && Terminal(b.record.status) && a.record.commandId != b.record.commandId
  }

  predicate RecordMoves(before: Option<Entry>, after: Option<Entry>) {
    before.Some? ==> after.Some? && Follows(after.value, before.value)
  }

  lemma MovedFollows(a: Entry, b: Entry, status: Status)
    requires Follows(a, b)
    ensures Follows(Moved(Some(a), status).0.value, b)
  {
  }

  lemma JournalMovesForward(s: State, steps: seq<Step>, step: Step)
    requires Initial(s)
    ensures RecordMoves(Run(s, steps).durable, Run(s, steps + [step]).durable)
  {
    RunKeepsInvariant(s, steps);
    assert (steps + [step])[..|steps|] == steps;
    RunAgrees(s, steps);
    hide Text, Run;
    StepMovesRecord(Run(s, steps), step);
  }

  /** While the worker runs, its record and the stored one are the same
    * acceptance, or a newer one that could not be stored. */
  predicate Agrees(s: State) {
    s.on.Some? && s.on.value.journal.Some? && s.durable.Some? ==>
      Follows(s.on.value.journal.value, s.durable.value)
  }

  lemma {:induction false} RunAgrees(s: State, steps: seq<Step>)
    requires Initial(s)
    ensures Agrees(Run(s, steps))
  {
    if steps != [] {
      var init, last := steps[..|steps| - 1], steps[|steps| - 1];
      RunKeepsInvariant(s, init);
      RunAgrees(s, init);
      StepAgrees(Run(s, init), last);
    }
  }

  lemma PollAgrees(s: State, c: Envelope, now: nat, save: Outcome)
    requires Inv(s) && Agrees(s) && Enabled(s, Poll(c, now, save))
    ensures Agrees(Next(s, Poll(c, now, save)))
  {
    hide Text;
  }

  lemma TerminalAgrees(s: State, k: Worker, status: Status, save: Outcome)
    requires Agrees(Put(s, k))
    ensures Agrees(SetCommandTerminal(s, k, status, save))
  {
    hide Follows, Moved, Text;
    if k.journal.Some? {
      if s.durable.Some? {
        MovedFollows(k.journal.value, s.durable.value, status);
      }
      SelfFollows(Moved(k.journal, status).0.value);
    }
  }

  lemma SelfFollows(e: Entry)
    ensures Follows(e, e)
  {
  }

  lemma AcknowledgeAgrees(s: State, e: Execution, save: Outcome)
    requires Inv(s) && Agrees(s) && Enabled(s, Acknowledge(e, save))
    ensures Agrees(Next(s, Acknowledge(e, save)))
  {
    hide Text, SetCommandTerminal;
    var k := s.on.value;
    if k.step == AckRunning && !e.Handed? {
      var started := if e.Refused? then s else s.(executed := s.executed + [k.journal.value.number]);
      TerminalAgrees(started, k.(restart := k.restart || k.journal.value.record.action == Reboot), e.status, save);
    }
  }

  lemma StepAgrees(s: State, step: Step)
    requires Inv(s) && Agrees(s)
    ensures Agrees(Next(s, step))
  {
    hide Text, SetCommandTerminal;
    if Enabled(s, step) {
      match step
      case Poll(c, now, save) => PollAgrees(s, c, now, save);
      case Acknowledge(e, save) => AcknowledgeAgrees(s, e, save);
      case MainResult(status, save) => TerminalAgrees(s, s.on.value, status, save);
      case _ =>
    }
  }

  lemma StepMovesRecord(s: State, step: Step)
    requires Inv(s) && Agrees(s)
    ensures RecordMoves(s.durable, Next(s, step).durable)
  {
    hide Text;
  }

  /** A reset ends every command that had not finished: the boot stores it as
    * failed and goes on to acknowledge that; it never runs again. */
  lemma InterruptedCommandFails(s: State, steps: seq<Step>)
    requires Initial(s) && Run(s, steps).on.None? && Run(s, steps).durable.Some?
    ensures var before := Run(s, steps);
            var e := before.durable.value;
            var after := Next(before, Boot(true, Done));
            && after.on.value.step == AckFinal && after.on.value.journal == after.durable
            && after.durable == Some(if Terminal(e.record.status) then e
                                     else e.(record := e.record.(status := Failed)))
  {
    RunKeepsInvariant(s, steps);
    hide Text, Run;
  }

  /** Nothing accepted before `floor` has started since, or is about to. */
  predicate OnlyLater(floor: nat, executed: seq<nat>, s: State) {
    && executed <= s.executed && floor <= s.accepted
    && (forall i :: |executed| <= i < |s.executed| ==> s.executed[i] >= floor)
    && (s.on.Some? && s.on.value.step in {AckAccepted, AckRunning} ==>
          s.on.value.journal.Some? && s.on.value.journal.value.number >= floor)
  }

  lemma ExecutionKeepsOnlyLater(floor: nat, executed: seq<nat>, s: State, step: Step)
    requires Inv(s) && OnlyLater(floor, executed, s) && step.Acknowledge? && Enabled(s, step)
    ensures OnlyLater(floor, executed, Next(s, step))
  {
    hide Text, ExecutedOnce;
  }

  lemma StepKeepsOnlyLater(floor: nat, executed: seq<nat>, s: State, step: Step)
    requires Inv(s) && OnlyLater(floor, executed, s)
    ensures OnlyLater(floor, executed, Next(s, step))
  {
    hide Text, ExecutedOnce, Acknowledged;
    if step.Acknowledge? && Enabled(s, step) {
      ExecutionKeepsOnlyLater(floor, executed, s, step);
    }
  }

  lemma {:induction false} OnlyLaterAcceptancesExecute(s: State, steps: seq<Step>)
    requires Inv(s) && s.on.None?
    ensures Inv(Run(s, steps)) && OnlyLater(s.accepted, s.executed, Run(s, steps))
  {
    if steps != [] {
      var init, last := steps[..|steps| - 1], steps[|steps| - 1];
      OnlyLaterAcceptancesExecute(s, init);
      StepInv(Run(s, init), last);
      StepKeepsOnlyLater(s.accepted, s.executed, Run(s, init), last);
    }
  }

  /** After a power loss, whatever follows, no earlier acceptance starts. */
  lemma InterruptedCommandNeverRunsAgain(s: State, history: seq<Step>, steps: seq<Step>, n: nat)
    requires Initial(s) && Run(s, history).on.None? && n < Run(s, history).accepted
    ensures var before := Run(s, history);
            n in Run(before, steps).executed <==> n in before.executed
  {
    RunKeepsInvariant(s, history);
    OnlyLaterAcceptancesExecute(Run(s, history), steps);
    hide Run, Inv;
    var before, after := Run(s, history).executed, Run(Run(s, history), steps).executed;
    assert forall i :: 0 <= i < |before| ==> after[i] == before[i];
  }

  /** While storage works, every acknowledgement repeats the durable record; the
    * final one speaks of a final status. */
  lemma AcknowledgementsAreDurable(s: State, steps: seq<Step>)
    requires Initial(s) && Run(s, steps).on.Some? && Run(s, steps).on.value.healthy
    ensures var r := Run(s, steps);
            && r.on.value.journal == r.durable
            && (r.on.value.step == AckFinal ==> r.durable.Some? && Terminal(r.durable.value.record.status))
  {
    RunKeepsInvariant(s, steps);
  }

  // ------------------------------------------------------------- completion

  /** The stages of one command, with every save and every answer succeeding. */
  function AfterPoll(s: State, c: Envelope, now: nat): State {
    Next(s, Poll(c, now, Done))
  }

  function Started(s: State, e: Execution): State {
    Next(Next(s, Acknowledge(e, Done)), Acknowledge(e, Done))
  }

  function Ended(s: State, e: Execution, result: Status): State {
    if e.Handed? then Next(Started(s, e), MainResult(result, Done)) else Started(s, e)
  }

  /** How the command ended. */
  function Verdict(e: Execution, result: Status): Status {
    if e.Handed? then result else e.status
  }

  /** From an idle, healthy worker a new command is made durable and acknowledged
    * before anything else happens. */
  lemma NewCommandIsStored(s: State, c: Envelope, now: nat)
    requires Inv(s) && s.on.Some? && s.on.value.step == Idle && s.on.value.healthy && !s.on.value.halted
    requires Consider(Record(s.durable), c, now).1 == AcceptedNew
    ensures var t := AfterPoll(s, c, now);
            && t.durable == Some(Entry(JournalRecord(c.commandId, c.leaseId, now, c.expiresAtMs, c.action, Accepted),
                                       s.accepted))
            && t.accepted == s.accepted + 1 && t.executed == s.executed
            && t.on == Some(s.on.value.(journal := t.durable, hasActive := true, step := AckAccepted))
  {
    hide Text;
  }

  /** Then it runs once, unless it is refused, and its verdict becomes durable. */
  lemma StoredCommandEnds(s: State, e: Execution, result: Status)
    requires Inv(s) && s.on.Some? && s.on.value.step == AckAccepted && s.on.value.healthy
    requires s.durable.Some? && Possible(s.durable.value.record.action, e) && Terminal(result)
    ensures var d := s.durable.value;
            var t := Ended(s, e, result);
            && t.durable == Some(d.(record := d.record.(status := Verdict(e, result))))
            && t.executed == s.executed + (if e.Refused? then [] else [d.number])
            && t.on.Some? && t.on.value.step == AckFinal && t.on.value.journal == t.durable && t.on.value.healthy
  {
    hide Text, Inv, Next;
    StoredCommandStarts(s, e);
    RunningCommandEnds(Next(s, Acknowledge(e, Done)), e, result);
  }

  lemma RunningCommandEnds(s: State, e: Execution, result: Status)
    requires s.on.Some? && s.on.value.step == AckRunning && s.on.value.hasActive && s.on.value.healthy
    requires s.durable.Some? && s.on.value.journal == s.durable
    requires s.durable.value.record.IsValid() && s.durable.value.record.status == Running
    requires Possible(s.durable.value.record.action, e) && Terminal(result)
    ensures var d := s.durable.value;
            var u := Next(s, Acknowledge(e, Done));
            var t := if e.Handed? then Next(u, MainResult(result, Done)) else u;
            && t.durable == Some(d.(record := d.record.(status := Verdict(e, result))))
            && t.executed == s.executed + (if e.Refused? then [] else [d.number])
            && t.on.Some? && t.on.value.step == AckFinal && t.on.value.journal == t.durable && t.on.value.healthy
  {
    hide Text;
  }

  lemma StoredCommandStarts(s: State, e: Execution)
    requires Inv(s) && s.on.Some? && s.on.value.step == AckAccepted && s.on.value.healthy
    requires s.durable.Some? && Possible(s.durable.value.record.action, e)
    ensures var d := s.durable.value;
            var t := Next(s, Acknowledge(e, Done));
            && t.durable == Some(d.(record := d.record.(status := Running))) && t.executed == s.executed
            && t.on.Some? && t.on.value.step == AckRunning && t.on.value.hasActive && t.on.value.healthy
            && t.on.value.journal == t.durable && t.durable.value.record.IsValid()
  {
    hide Text;
  }

  /** A command that reaches an idle, healthy worker is carried through: stored,
    * started exactly once unless it is refused, finished with its verdict, and
    * acknowledged; the worker is idle again, or restarting because it was told to. */
  lemma CommandRunsToTheEnd(s: State, history: seq<Step>, c: Envelope, now: nat, e: Execution, result: Status)
    requires Initial(s)
    requires var r := Run(s, history);
             && r.on.Some? && r.on.value.step == Idle && r.on.value.healthy && !r.on.value.halted
             && Consider(Record(r.durable), c, now).1 == AcceptedNew
    requires Possible(c.action, e) && Terminal(result)
    ensures var r := Run(s, history);
            var t := Ended(AfterPoll(r, c, now), e, result);
            var last := Next(t, Acknowledge(e, Done));
            && t.on.Some? && t.on.value.step == AckFinal
            && last.durable.Some? && last.durable.value.number == r.accepted
            && last.durable.value.record.commandId == c.commandId
            && last.durable.value.record.status == Verdict(e, result)
            && last.executed == r.executed + (if e.Refused? then [] else [r.accepted])
            && (last.on.Some? ==> last.on.value.step == Idle && !last.on.value.hasActive)
  {
    RunKeepsInvariant(s, history);
    var r := Run(s, history);
    NewCommandIsStored(r, c, now);
    StepInv(r, Poll(c, now, Done));
    StoredCommandEnds(AfterPoll(r, c, now), e, result);
    hide Inv, Ended, AfterPoll, Run, Consider, SetCommandTerminal, Execute;
  }
}
