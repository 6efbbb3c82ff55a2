/** The command part of the network worker as an object (src/telemetry_uploader.cpp).
  * Every service method performs one step of module CommandProtocol and keeps the
  * protocol's invariant; the acceptance numbers and the list of executions are ghost.
  */
module CommandWorkers {
  import opened Bytes
  import opened DurableRecords
  import opened CommandJournals
  import opened CommandProtocol

  /** What executing a command meets: whether the detailed log could be started,
    * whether there is a mailbox, the estimated server time (0 if unknown), and
    * whether the request could be published. */
  datatype Circumstances = Circumstances(logStarted: bool, mailbox: bool, serverNow: nat, published: bool)

  /** The switch of executeCurrentCommand(). */
  function ExecutionOf(c: Envelope, x: Circumstances): (e: Execution)
    ensures Possible(c.action, e)
    ensures e.Handed? <==>
            && c.action in {RecalibrateMicrophone, OpenDevOta}
            && x.mailbox && 0 < x.serverNow < c.expiresAtMs && x.published
    ensures e.Refused? ==> c.action in {RecalibrateMicrophone, OpenDevOta}
  {
    match c.action
    case SetLogLevel => if c.detailedLog && !x.logStarted then Performed(Failed) else Performed(Succeeded)
    case RecalibrateMicrophone => HandOver(c, x)
    case OpenDevOta => HandOver(c, x)
    case _ => Performed(Succeeded)
  }

  function HandOver(c: Envelope, x: Circumstances): Execution {
    if !x.mailbox then Refused(Failed)
    else if x.serverNow == 0 || c.expiresAtMs <= x.serverNow then Refused(Expired)
    else if !x.published then Refused(Failed)
    else Handed
  }

  datatype ResultCode = CodeSucceeded | CodeFailed | CodeRejected | CodeExpired

  datatype ControlResult = ControlResult(commandId: string, code: ResultCode)

  /** serviceMainControlResult(): how the main loop's answer, or its silence, ends
    * the command; None while there is nothing to end. */
  function VerdictOf(r: JournalRecord, result: Option<ControlResult>, serverNow: nat, windowOpened: bool)
    : (v: Option<Status>)
    ensures v.Some? ==> Terminal(v.value)
    ensures v.None? <==> result.None? && (serverNow == 0 || serverNow < r.expiresAtMs)
    ensures v == Some(Succeeded) <==>
            && result == Some(ControlResult(r.commandId, CodeSucceeded)) && (r.action == OpenDevOta ==> windowOpened)
  {
    if result.None? then
      if serverNow != 0 && serverNow >= r.expiresAtMs then Some(Expired) else None
    else if result.value.commandId != r.commandId then Some(Failed)
    else match result.value.code
      case CodeSucceeded => if r.action == OpenDevOta && !windowOpened then Some(Failed) else Some(Succeeded)
      case CodeFailed => Some(Failed)
      case CodeRejected => Some(Rejected)
      case CodeExpired => Some(Expired)
  }

  class UploaderWorker {
    const commandJournal: CommandJournal
    var stored: Option<JournalRecord>    // the journal register in NVS
    var commandStep: CommandStep
    var hasActiveCommand: bool
    var activeCommand: Envelope
    var restartAfterFinalCommandAck: bool
    var controlOperatorHalted: bool
    var controlStorageHealthy: bool
    var running: bool
    ghost var number: nat
    ghost var storedNumber: nat
    ghost var accepted: nat
    ghost var executed: seq<nat>

    ghost function Journal(): Option<Entry>
      reads this, commandJournal
    {
      if commandJournal.View().Some? then Some(Entry(commandJournal.View().value, number)) else None
    }

    ghost function View(): Worker
      reads this, commandJournal
    {
      Worker(Journal(), commandStep, hasActiveCommand, restartAfterFinalCommandAck,
             controlOperatorHalted, controlStorageHealthy)
    }

    ghost function In(): State
      reads this, commandJournal
    {
      State(if stored.Some? then Some(Entry(stored.value, storedNumber)) else None,
            if running then Some(View()) else None, accepted, executed)
    }

    /** The envelope in RAM is the one that the journal's record was made from. */
    ghost predicate ActiveMatches()
      reads this, commandJournal
    {
      commandStep in {AckAccepted, AckRunning, WaitingMain} && hasActiveCommand ==>
        && commandJournal.View().Some? && commandJournal.record.action == activeCommand.action
        && commandJournal.record.expiresAtMs == activeCommand.expiresAtMs
    }

    ghost predicate Valid()
      reads this, commandJournal
    {
      Inv(In()) && ActiveMatches()
    }

    /** Power-up over a register that earlier boots left behind. */
    constructor (register: Option<JournalRecord>, ghost n: nat, ghost a: nat, ghost done: seq<nat>)
      requires Inv(State(if register.Some? then Some(Entry(register.value, n)) else None, None, a, done))
      ensures Valid() && fresh(commandJournal) && !running && stored == register && View() == NewWorker()
      ensures In() == State(if register.Some? then Some(Entry(register.value, n)) else None, None, a, done)
    {
      commandJournal := new CommandJournal();
      stored, running := register, false;
      commandStep, hasActiveCommand, restartAfterFinalCommandAck := Idle, false, false;
      controlOperatorHalted, controlStorageHealthy := false, true;
      activeCommand := Envelope("", "", 0, 0, 0, DiagnosticSnapshot, 0, false, false);
      number, storedNumber, accepted, executed := 0, n, a, done;
    }

    method PersistCommandJournal(o: Outcome) returns (ok: bool)
      requires running
      modifies this`stored, this`storedNumber, this`controlOperatorHalted, this`controlStorageHealthy
      ensures (In(), View(), ok) == var (t, k, saved) := Persist(old(In()), old(View()), o);
                                    (Put(t, k), k, saved)
    {
      var record := commandJournal.View();
      ok := false;
      if record.Some? && record.value.IsValid() && o != NotDone {
        stored, storedNumber := record, number;
        ok := o == Done;
      }
      if !ok {
        controlStorageHealthy, controlOperatorHalted := false, true;
      }
    }

    method InitializeCommandJournal(loadOk: bool, save: Outcome)
      requires Valid() && !running && View() == NewWorker()
      modifies this, commandJournal
      ensures Valid() && In() == Next(old(In()), Boot(loadOk, save))
    {
      hide Text, Inv;
      StepInv(In(), Boot(loadOk, save));
      running := true;
      if !loadOk {
        controlStorageHealthy, controlOperatorHalted := false, true;
        return;
      }
      if stored.None? {
        return;
      }
      number := storedNumber;
      var restored := commandJournal.Restore(stored.value);
      if !restored {
        controlStorageHealthy, controlOperatorHalted := false, true;
        return;
      }
      if !Terminal(stored.value.status) {
        var moved := commandJournal.MakeTransition(Failed);
        var saved := PersistCommandJournal(save);
        if !saved {
          return;
        }
      }
      commandStep := AckFinal;
    }

    /** The record still speaks of the same command. */
    twostate predicate KeepsCommand()
      reads this, commandJournal
    {
      old(commandJournal.View().Some?) ==>
        && commandJournal.View().Some? && commandJournal.record.action == old(commandJournal.record.action)
        && commandJournal.record.expiresAtMs == old(commandJournal.record.expiresAtMs)
    }

    method SetTerminal(status: Status, save: Outcome)
      requires running
      modifies this, commandJournal
      ensures In() == SetCommandTerminal(old(In()), old(View()), status, save)
      ensures activeCommand == old(activeCommand) && KeepsCommand() && commandStep in {Idle, AckFinal}
    {
      hide Text;
      var saved := commandJournal.MakeTransition(status);
      if saved {
        saved := PersistCommandJournal(save);
      }
      if !saved {
        commandStep, hasActiveCommand := Idle, false;
        return;
      }
      commandStep := AckFinal;
    }

    /** executeCurrentCommand(): what happens is fixed by the command and by the
      * circumstances. */
    method ExecuteCurrentCommand(x: Circumstances, save: Outcome)
      requires running && commandJournal.View().Some?
      requires hasActiveCommand ==> commandJournal.record.action == activeCommand.action
      modifies this, commandJournal
      ensures old(hasActiveCommand) ==>
                In() == Execute(old(In()), old(View()), ExecutionOf(old(activeCommand), x), save)
      ensures !old(hasActiveCommand) ==> In() == SetCommandTerminal(old(In()), old(View()), Failed, save)
      ensures activeCommand == old(activeCommand) && KeepsCommand()
    {
      hide Text, Inv, SetCommandTerminal;
      if !hasActiveCommand {
        SetTerminal(Failed, save);
        return;
      }
      var e := ExecutionOf(activeCommand, x);
      if !e.Refused? {
        executed := executed + [number];
      }
      if e.Handed? {
        commandStep := WaitingMain;
        return;
      }
      if activeCommand.action == Reboot {
        restartAfterFinalCommandAck := true;
      }
      EndsTheSame(old(In()), In(), View(), e.status, save);
      SetTerminal(e.status, save);
    }

    /** The accepted acknowledgement of RECEIVED makes RUNNING durable. */
    method MakeRunning(save: Outcome)
      requires running && commandStep == AckAccepted && commandJournal.View().Some?
      modifies this, commandJournal
      ensures forall e :: In() == Acknowledged(old(In()), old(View()), e, save)
      ensures activeCommand == old(activeCommand) && hasActiveCommand == old(hasActiveCommand) && KeepsCommand()
    {
      hide Text, Inv;
      var ok := commandJournal.MakeTransition(Running);
      if ok {
        ok := PersistCommandJournal(save);
      }
      if ok {
        commandStep := AckRunning;
      }
    }

    /** serviceCommandAcknowledgement(), once the backend took the acknowledgement. */
    method ServiceCommandAcknowledgement(x: Circumstances, save: Outcome) returns (ghost e: Execution)
      requires Valid() && running && commandJournal.View().Some?
      requires commandStep in {AckAccepted, AckRunning, AckFinal}
      modifies this, commandJournal
      ensures Valid() && In() == Next(old(In()), Acknowledge(e, save))
      ensures old(commandStep) == AckRunning ==> e == ExecutionOf(old(activeCommand), x)
    {
      hide Text, Inv, Acknowledged, Execute;
      ActiveWhileOpen(In());
      e := ExecutionOf(activeCommand, x);
      if commandStep == AckFinal {
        e := SomeExecution(commandJournal.record.action);
      }
      StepInv(In(), Acknowledge(e, save));
      AcknowledgedIs(In(), View(), e, save);
      if commandStep == AckAccepted {
        MakeRunning(save);
      } else if commandStep == AckRunning {
        ExecuteCurrentCommand(x, save);
      } else if restartAfterFinalCommandAck {
        running := false;
      } else {
        commandStep, hasActiveCommand := Idle, false;
      }
    }

    method AdoptAccepted(c: Envelope, save: Outcome)
      requires running
      modifies this
      ensures (commandStep == AckAccepted && hasActiveCommand && activeCommand == c)
              || (commandStep == old(commandStep) && activeCommand == old(activeCommand)
                  && hasActiveCommand == old(hasActiveCommand))
      ensures var (t, after, saved) := Persist(old(In()), old(View()), save);
              In() == Put(t, if saved then after.(hasActive := true, step := AckAccepted) else after)
    {
      var saved := PersistCommandJournal(save);
      if saved {
        activeCommand, hasActiveCommand, commandStep := c, true, AckAccepted;
      }
    }

    method RefreshLease(save: Outcome)
      requires running && commandJournal.View().Some?
      modifies this
      ensures activeCommand == old(activeCommand) && hasActiveCommand == old(hasActiveCommand)
      ensures commandStep == old(commandStep) || commandStep == AckFinal
      ensures var (t, after, saved) := Persist(old(In()), old(View()), save);
              In() == Put(t, if saved && Terminal(commandJournal.record.status) then after.(step := AckFinal)
                             else after)
    {
      var saved := PersistCommandJournal(save);
      if saved && Terminal(commandJournal.record.status) {
        commandStep := AckFinal;
      }
    }

    method HandlePolledCommand(c: Envelope, serverUtcMs: nat, save: Outcome)
      requires Valid() && Enabled(In(), Poll(c, serverUtcMs, save))
      modifies this, commandJournal
      ensures Valid() && In() == Next(old(In()), Poll(c, serverUtcMs, save))
    {
      hide Text, Consider, Inv, Persist;
      if commandStep in {AckAccepted, AckRunning, WaitingMain} {
        OpenIsBusy(In(), c, serverUtcMs);
      }
      ConsiderKeeps(commandJournal.View(), c, serverUtcMs);
      StepInv(In(), Poll(c, serverUtcMs, save));
      var acceptance := commandJournal.ConsiderCommand(c, serverUtcMs);
      if acceptance == AcceptedNew {
        number, accepted := accepted, accepted + 1;
        PersistsTheSame(old(In()), In(), View(), save);
        AdoptAccepted(c, save);
      } else if acceptance == ReplayExisting {
        PersistsTheSame(old(In()), In(), View(), save);
        RefreshLease(save);
      }
    }

    /** serviceMainControlResult(). */
    method ServiceMainControlResult(result: Option<ControlResult>, serverNow: nat, windowOpened: bool, save: Outcome)
      requires Valid() && running && commandStep == WaitingMain && commandJournal.View().Some?
      modifies this, commandJournal
      ensures var verdict := VerdictOf(old(commandJournal.record), result, serverNow, windowOpened);
              In() == if verdict.None? then old(In()) else Next(old(In()), MainResult(verdict.value, save))
      ensures Valid()
    {
      hide Text, Inv, SetCommandTerminal;
      var verdict := VerdictOf(commandJournal.record, result, serverNow, windowOpened);
      if verdict.None? {
        return;
      }
      StepInv(In(), MainResult(verdict.value, save));
      SetTerminal(verdict.value, save);
    }
  }

  /** A command that is being acknowledged as open is held in RAM as well. */
  lemma ActiveWhileOpen(s: State)
    requires Inv(s) && s.on.Some?
    ensures s.on.value.step in {AckAccepted, AckRunning} ==> s.on.value.hasActive
  {
    hide Text;
  }

  lemma PersistsTheSame(s: State, t: State, k: Worker, save: Outcome)
    ensures var other := s.(durable := t.durable, accepted := t.accepted, executed := t.executed);
            && Persist(t, k, save).0.(on := None) == Persist(other, k, save).0.(on := None)
            && Persist(t, k, save).1 == Persist(other, k, save).1
            && Persist(t, k, save).2 == Persist(other, k, save).2
  {
    hide Text;
  }

  /** Ending a command depends on the worker that ends it, not on the one before. */
  lemma EndsTheSame(s: State, t: State, k: Worker, status: Status, save: Outcome)
    ensures SetCommandTerminal(t, k, status, save)
            == SetCommandTerminal(s.(durable := t.durable, accepted := t.accepted, executed := t.executed),
                                  k, status, save)
  {
    hide Text;
  }

  ghost function SomeExecution(action: Action): (e: Execution)
    ensures Possible(action, e)
  {
    if action == RecalibrateMicrophone || action == OpenDevOta then Handed else Performed(Succeeded)
  }

  lemma AcknowledgedIs(s: State, k: Worker, e: Execution, save: Outcome)
    requires k.journal.Some? && k.step in {AckAccepted, AckRunning, AckFinal}
    ensures k.step == AckRunning ==> Acknowledged(s, k, e, save) == Execute(s, k, e, save)
    ensures k.step == AckFinal ==>
              Acknowledged(s, k, e, save)
              == if k.restart then s.(on := None) else Put(s, k.(step := Idle, hasActive := false))
  {
  }

  /** While a command is open no other one is accepted. */
  lemma OpenIsBusy(s: State, c: Envelope, serverUtcMs: nat)
    requires Inv(s) && s.on.Some? && s.on.value.step in {AckAccepted, AckRunning, WaitingMain}
    ensures Consider(Record(s.on.value.journal), c, serverUtcMs).1 != AcceptedNew
  {
    hide Text;
  }

  lemma ConsiderKeeps(j: Option<JournalRecord>, c: Envelope, serverUtcMs: nat)
    ensures var (r, a) := Consider(j, c, serverUtcMs);
            && (a == AcceptedNew ==> r.Some? && r.value.action == c.action && r.value.expiresAtMs == c.expiresAtMs)
            && (a != AcceptedNew && j.Some? ==>
                  r.Some? && r.value.action == j.value.action && r.value.expiresAtMs == j.value.expiresAtMs)
  {
  }
}
