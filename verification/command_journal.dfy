/** The one-shot command journal (src/command_journal.cpp). */
module CommandJournals {
  import opened Bytes
  import opened DurableRecords

  datatype Envelope = Envelope(
    commandId: string, leaseId: string, createdAtMs: nat, expiresAtMs: nat, leaseExpiresAtMs: nat,
    action: Action, durationSeconds: nat, detailedLog: bool, requiresLocalConfirmation: bool)
  {
    predicate IsValid() {
      && Text(commandId, 8, 64, ':') && Text(leaseId, 8, 64, ':')
      && createdAtMs <= expiresAtMs <= MAX_SIGNED_64
      && leaseExpiresAtMs <= expiresAtMs
      && if action == SetLogLevel then 1 <= durationSeconds <= 600 && !requiresLocalConfirmation
         else durationSeconds == 0 && !detailedLog && requiresLocalConfirmation == (action == OpenDevOta)
    }
  }

  predicate Terminal(s: Status) {
    s == Succeeded || s == Failed || s == Expired || s == Rejected
  }

  datatype Acceptance = AcceptedNew | ReplayExisting | CommandExpired | LeaseExpired | Busy | InvalidCommand

  function Consider(j: Option<JournalRecord>, c: Envelope, serverUtcMs: nat)
    : (r: (Option<JournalRecord>, Acceptance))
    ensures (j.Some? ==> j.value.IsValid()) ==> (r.0.Some? ==> r.0.value.IsValid())
    ensures r.1 == AcceptedNew ==> j.None? || (Terminal(j.value.status) && j.value.commandId != c.commandId)
    ensures r.1 == ReplayExisting <==>
            c.IsValid() && serverUtcMs <= MAX_SIGNED_64 && j.Some? && j.value.commandId == c.commandId
    ensures if r.1 == AcceptedNew || r.1 == ReplayExisting then r.0.Some? else r.0 == j
  {
    if !c.IsValid() || serverUtcMs > MAX_SIGNED_64 then (j, InvalidCommand)
    else if j.Some? && j.value.commandId == c.commandId then
      (Some(j.value.(leaseId := c.leaseId)), ReplayExisting)
    else if serverUtcMs >= c.expiresAtMs then (j, CommandExpired)
    else if serverUtcMs >= c.leaseExpiresAtMs then (j, LeaseExpired)
    else if j.Some? && !Terminal(j.value.status) then (j, Busy)
    else (Some(JournalRecord(c.commandId, c.leaseId, serverUtcMs, c.expiresAtMs, c.action, Accepted)), AcceptedNew)
  }

  function Transition(j: Option<JournalRecord>, next: Status): (r: (Option<JournalRecord>, bool))
    ensures r.1 ==> j.Some? && r.0 == Some(j.value.(status := next))
    ensures !r.1 ==> r.0 == j
    ensures r.1 <==> j.Some? && (next == j.value.status || Precedes(j.value.status, next))
  {
    if j.None? then (j, false)
    else if j.value.status == next then (j, true)
    else if Terminal(j.value.status) then (j, false)
    else if (if j.value.status == Accepted then next == Running || Terminal(next)
             else j.value.status == Running && Terminal(next))
    then (Some(j.value.(status := next)), true)
    else (j, false)
  }

  /** The life of one command: accepted, running, then one final status. */
  predicate Precedes(before: Status, after: Status) {
    (before == Accepted && after == Running) || (!Terminal(before) && Terminal(after))
  }

  class CommandJournal {
    var hasRecord: bool
    var record: JournalRecord

    constructor ()
      ensures View() == None
    {
      hasRecord := false;
      record := JournalRecord("", "", 0, 0, DiagnosticSnapshot, Accepted);
    }

    function View(): Option<JournalRecord>
      reads this
    {
      if hasRecord then Some(record) else None
    }

    method Restore(stored: JournalRecord) returns (ok: bool)
      modifies this
      ensures ok == stored.IsValid()
      ensures View() == if ok then Some(stored) else old(View())
    {
      if !stored.IsValid() {
        return false;
      }
      record, hasRecord := stored, true;
      return true;
    }

    method ConsiderCommand(c: Envelope, serverUtcMs: nat) returns (a: Acceptance)
      modifies this
      ensures (View(), a) == Consider(old(View()), c, serverUtcMs)
    {
      if !c.IsValid() || serverUtcMs > MAX_SIGNED_64 {
        return InvalidCommand;
      }
      if hasRecord && c.commandId == record.commandId {
        record := record.(leaseId := c.leaseId);
        return ReplayExisting;
      }
      if serverUtcMs >= c.expiresAtMs {
        return CommandExpired;
      }
      if serverUtcMs >= c.leaseExpiresAtMs {
        return LeaseExpired;
      }
      if hasRecord && !Terminal(record.status) {
        return Busy;
      }
      record := JournalRecord(c.commandId, c.leaseId, serverUtcMs, c.expiresAtMs, c.action, Accepted);
      hasRecord := true;
      return AcceptedNew;
    }

    method MakeTransition(next: Status) returns (ok: bool)
      modifies this
      ensures (View(), ok) == Transition(old(View()), next)
    {
      if !hasRecord {
        return false;
      }
      if record.status == next {
        return true;
      }
      if Terminal(record.status) {
        return false;
      }
      var allowed := if record.status == Accepted then next == Running || Terminal(next)
                     else record.status == Running && Terminal(next);
      if allowed {
        record := record.(status := next);
      }
      return allowed;
    }
  }

  // -------------------------------------------------------------- whole lives

  datatype Call = CallConsider(command: Envelope, serverUtcMs: nat) | CallTransition(next: Status)

  function Called(j: Option<JournalRecord>, call: Call): Option<JournalRecord> {
    match call
    case CallConsider(c, now) => Consider(j, c, now).0
    case CallTransition(next) => Transition(j, next).0
  }

  function AfterCalls(j: Option<JournalRecord>, calls: seq<Call>): Option<JournalRecord> {
    if calls == [] then j else Called(AfterCalls(j, calls[..|calls| - 1]), calls[|calls| - 1])
  }

  /** A new command was accepted somewhere in the run. */
  ghost predicate Reaccepted(j: Option<JournalRecord>, calls: seq<Call>) {
    exists i :: 0 <= i < |calls| && AcceptsNew(j, calls, i)
  }

  predicate AcceptsNew(j: Option<JournalRecord>, calls: seq<Call>, i: nat)
    requires i < |calls|
  {
    calls[i].CallConsider?
    && Consider(AfterCalls(j, calls[..i]), calls[i].command, calls[i].serverUtcMs).1 == AcceptedNew
  }

  /** As long as no new command is accepted, a record keeps its identity and its
    * status only moves forward; a final status stays. */
  lemma {:induction false} StatusOnlyMovesForward(j: JournalRecord, calls: seq<Call>)
    ensures var r := AfterCalls(Some(j), calls);
            r.Some? && (!Reaccepted(Some(j), calls) ==>
              && r.value.(leaseId := j.leaseId, status := j.status) == j
              && (r.value.status == j.status || Precedes(j.status, r.value.status))
              && (Terminal(j.status) ==> r.value.status == j.status))
  {
    if calls != [] {
      var n := |calls| - 1;
      var init := calls[..n];
      StatusOnlyMovesForward(j, init);
      if Reaccepted(Some(j), init) {
        var i :| 0 <= i < n && AcceptsNew(Some(j), init, i);
        assert init[..i] == calls[..i];
        assert AcceptsNew(Some(j), calls, i);
      } else if !Reaccepted(Some(j), calls) {
        assert !AcceptsNew(Some(j), calls, n);
      }
    }
  }
}
