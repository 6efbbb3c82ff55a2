/** The spooling part of the network worker as an object: the RAM queue is cut
  * into immutable files, and answers decide what becomes of them
  * (src/telemetry_uploader.cpp, src/backlog_policy.h). Every method performs a run
  * of steps of module TelemetryPipeline, and says which.
  */
module SpoolWorkers {
  import opened Bytes
  import opened TelemetryQueues
  import opened TelemetryPipeline

  const MAXIMUM_DEAD_FILES := 16
  const SPOOL_HARD_LIMIT := 256
  const SPOOL_SOFT_LIMIT := 224
  const CRITICAL_RESERVE_BYTES := 128 * 1024
  const FREEZE_INTERVAL_MS := 30_000

  predicate MayFreeze(files: nat, freeBytes: nat, critical: bool) {
    && files < SPOOL_HARD_LIMIT
    && (critical || (files < SPOOL_SOFT_LIMIT && freeBytes >= CRITICAL_RESERVE_BYTES))
  }

  predicate DrainsReserve(files: nat, freeBytes: nat, critical: bool) {
    critical && (files >= SPOOL_SOFT_LIMIT || freeBytes < CRITICAL_RESERVE_BYTES)
  }

  /** What one call of freezeQueueIfNeeded() finds around it. */
  datatype Surroundings = Surroundings(
    now: nat, force: bool, freeBytes: nat, appliedRevision: nat, uploadBatchSize: nat)

  function Requested(files: nat, a: Surroundings, critical: bool): (n: nat)
    ensures 1 <= n <= MAXIMUM_BATCH
  {
    if DrainsReserve(files, a.freeBytes, critical) || a.uploadBatchSize > MAXIMUM_BATCH then MAXIMUM_BATCH
    else if a.uploadBatchSize < 1 then 1 else a.uploadBatchSize
  }

  ghost predicate CriticalWaiting(contents: seq<Record>) {
    exists i :: 0 <= i < |contents| && contents[i].kind == Transition
  }

  function Copied(contents: seq<Record>, requested: nat): seq<Record> {
    contents[..if |contents| < requested then |contents| else requested]
  }

  /** There is room, the records' configuration is known to be applied, and the
    * batch is full, ends at a revision boundary, is forced or has waited. */
  ghost predicate Freezes(contents: seq<Record>, files: nat, lastFreezeMs: nat, a: Surroundings) {
    var critical := CriticalWaiting(contents);
    var requested := Requested(files, a, critical);
    var copied := Copied(contents, requested);
    var n := RevisionPrefix(copied);
    && MayFreeze(files, a.freeBytes, critical) && contents != []
    && contents[0].appliedConfigRevision <= a.appliedRevision
    && (a.force || n >= requested || n < |copied| || a.now - lastFreezeMs >= FREEZE_INTERVAL_MS)
  }

  /** A parsed acknowledgement comes only with status 200. */
  datatype Response = Response(status: int, ack: Option<Ack>)

  /** A rejected batch is condemned only after the configuration was fetched anew. */
  datatype Probe = NoProbe | Probing(batch: Name, validated: bool)

  datatype Action = Accept | HaltOperator | StartProbe | Condemn | Retry

  function ActionFor(name: Name, r: Response, probe: Probe): Action {
    if r.status == 200 then
      if r.ack.Some? && Licenses(r.ack.value, name) then Accept else Retry
    else if r.status == 401 || r.status == 404 then HaltOperator
    else if r.status == 409 then
      if probe.Probing? && probe.validated && probe.batch == name then Condemn else StartProbe
    else if 400 <= r.status < 500 && r.status != 408 && r.status != 429 then Condemn
    else Retry
  }

  /** How far moveToDeadLetter() gets: how many removals of old dead letters
    * succeed, whether one of the same name can be removed, and the rename. */
  datatype Move = Move(evictions: nat, replaced: bool, renamed: bool)

  class UploaderWorker {
    const queue: TelemetryQueue
    const boot: nat
    var spool: map<Name, seq<Entry>>
    var dead: map<DeadName, seq<Entry>>
    var lastFreezeMs: nat
    var operatorHalted: bool
    var probe: Probe

    ghost predicate Valid()
      reads this, queue, queue.records
    {
      queue.Valid()
    }

    /** The device's part of the pipeline state; the rest is taken from `s`. */
    ghost function In(s: State): State
      reads this, queue, queue.records
      requires Valid()
    {
      s.(boot := boot, queue := queue.Contents(), spool := spool, dead := dead)
    }

    constructor (queue: TelemetryQueue, boot: nat, spool: map<Name, seq<Entry>>, dead: map<DeadName, seq<Entry>>)
      requires queue.Valid()
      ensures Valid() && this.queue == queue && this.boot == boot && this.spool == spool && this.dead == dead
      ensures lastFreezeMs == 0 && !operatorHalted && probe == NoProbe
    {
      this.queue, this.boot, this.spool, this.dead := queue, boot, spool, dead;
      lastFreezeMs, operatorHalted, probe := 0, false, NoProbe;
    }

    /** freezeQueueIfNeeded(): whether to freeze, how much, and the freeze. */
    method FreezeQueueIfNeeded(a: Surroundings, rename: Outcome, ghost s: State)
      requires Valid()
      modifies this`spool, this`lastFreezeMs, queue`head, queue`size
      ensures Valid()
      ensures var contents := old(queue.Contents());
              var requested := Requested(|old(spool)|, a, CriticalWaiting(contents));
              if Freezes(contents, |old(spool)|, old(lastFreezeMs), a)
              then In(s) == Next(old(In(s)), Freeze(requested, rename)) && lastFreezeMs == a.now
              else In(s) == old(In(s)) && lastFreezeMs == old(lastFreezeMs)
      ensures Inv(old(In(s))) ==> Inv(In(s))
      // The spool keeps its bound, and without a waiting transition its reserve.
      ensures |old(spool)| <= SPOOL_HARD_LIMIT ==> |spool| <= SPOOL_HARD_LIMIT
      ensures !CriticalWaiting(old(queue.Contents())) && |old(spool)| <= SPOOL_SOFT_LIMIT ==>
                |spool| <= SPOOL_SOFT_LIMIT
    {
      hide RevisionPrefix, RingContents, Samples, NameOf, Next, Freezes, Requested, Inv;
      var prefix := ChoosePrefix(a);
      if prefix == [] {
        return;
      }
      ghost var requested := Requested(|spool|, a, CriticalWaiting(queue.Contents()));
      FreezeStep(In(s), requested, rename, prefix);
      KeepsInv(In(s), Freeze(requested, rename));
      ReserveIsKept(queue.Contents(), |spool|, lastFreezeMs, a);
      lastFreezeMs := a.now;
      Commit(prefix, rename);
    }

    /** The decision: the records to freeze now, or none. */
    method ChoosePrefix(a: Surroundings) returns (prefix: seq<Record>)
      requires Valid()
      ensures var contents := queue.Contents();
              var copied := Copied(contents, Requested(|spool|, a, CriticalWaiting(contents)));
              prefix == if Freezes(contents, |spool|, lastFreezeMs, a) then copied[..RevisionPrefix(copied)] else []
      ensures prefix <= queue.Contents()
      ensures prefix == [] <==> !Freezes(queue.Contents(), |spool|, lastFreezeMs, a)
    {
      hide RevisionPrefix, RingContents, Samples, Requested;
      var critical := queue.HasCritical();
      var available := queue.CurrentSize();
      ghost var contents := queue.Contents();
      if !MayFreeze(|spool|, a.freeBytes, critical) || available == 0 {
        return [];
      }
      var requested := Requested(|spool|, a, critical);
      var records := new Record[MAXIMUM_BATCH](_ => Record(Sample, 0, 0, 0, []));
      var count := queue.CopyPrefix(records, requested);
      var copied := records[..count];
      assert copied == Copied(contents, requested) && copied[0] == contents[0];
      if copied[0].appliedConfigRevision > a.appliedRevision {
        return [];
      }
      var n := ContiguousRevisionPrefix(copied);
      if !a.force && n < requested && n == count && a.now - lastFreezeMs < FREEZE_INTERVAL_MS {
        return [];
      }
      return copied[..n];
    }

    /** The immutable file and the commit of the RAM prefix. */
    method Commit(prefix: seq<Record>, rename: Outcome)
      requires Valid() && prefix != [] && prefix <= queue.Contents()
      modifies this`spool, queue`head, queue`size
      ensures Valid()
      ensures var batch := Entries(boot, prefix);
              var known := NameOf(batch) in old(spool);
              && spool == (if known || rename == NotDone then old(spool) else old(spool)[NameOf(batch) := batch])
              && queue.Contents() == (if known || rename == Done then old(queue.Contents())[|prefix|..]
                                      else old(queue.Contents()))
      ensures |spool| <= |old(spool)| + 1
    {
      hide RingContents, Samples, NameOf;
      var batch := Entries(boot, prefix);
      var name := NameOf(batch);
      if name !in spool {
        if rename == NotDone {
          return;
        }
        spool := spool[name := batch];
        if rename != Done {
          return;
        }
      }
      var committed := queue.CommitPrefix(prefix);
      assert committed;
    }

    /** The closing part of uploadOneTelemetryEnvelope(): what the answer for a file
      * leads to. `steps` lists all that happened. */
    method HandleTelemetryResponse(name: Name, r: Response, removed: bool, move: Move, ghost s: State)
      returns (ghost steps: seq<Step>)
      requires Valid() && name in spool && s.dead == dead && s.spool == spool
      requires s.boot == boot && s.queue == queue.Contents()
      requires r.ack.Some? ==> r.ack.value in s.acks
      modifies this`spool, this`dead, this`operatorHalted, this`probe
      ensures Valid() && Run(s, steps) == In(Run(s, steps))
      ensures var action := ActionFor(name, r, old(probe));
              && (action == Accept ==> steps == [Remove(name, r.ack.value, removed)])
              && (action in {HaltOperator, StartProbe, Retry} ==> steps == [])
              && (action == Condemn ==> forall i :: 0 <= i < |steps| ==>
                    steps[i].Evict? || (i == |steps| - 1 && steps[i] == DeadLetter(name, r.status)))
              && operatorHalted == (old(operatorHalted) || action == HaltOperator)
              && (action == StartProbe ==> probe == Probing(name, false))
      ensures Inv(s) ==> Inv(Run(s, steps))
      // A file leaves the spool only for the server or for the dead letters.
      ensures Inv(s) && name !in spool ==>
                || HoldsAll(s.server, old(spool)[name])
                || (DeadName(r.status, name) in dead && dead[DeadName(r.status, name)] == old(spool)[name])
    {
      hide Run, Next, Inv, HoldsAll;
      var action := ActionFor(name, r, probe);
      steps := [];
      RunNothing(s);
      match action
      case Accept =>
        steps := Extended(s, steps, Remove(name, r.ack.value, removed));
        RemoveStep(s, name, r.ack.value, removed);
        BackedRemoval(s, name, r.ack.value);
        if removed {
          spool := spool - {name};
          ClearProbe(name);
        }
      case HaltOperator => operatorHalted := true;
      case StartProbe => probe := Probing(name, false);
      case Condemn =>
        var moved;
        moved, steps := MoveToDeadLetter(name, r.status, move, s);
        if moved {
          ClearProbe(name);
        }
      case Retry =>
    }

    /** clearTelemetryConflictProbe(). */
    method ClearProbe(name: Name)
      modifies this`probe
      ensures probe == if old(probe).Probing? && old(probe).batch == name then NoProbe else old(probe)
    {
      if probe.Probing? && probe.batch == name {
        probe := NoProbe;
      }
    }

    /** moveToDeadLetter(): old dead letters make room, one of the same name is
      * removed, the file is renamed; each of these may fail, and `steps` lists what
      * happened. */
    method MoveToDeadLetter(name: Name, code: int, move: Move, ghost s: State)
      returns (moved: bool, ghost steps: seq<Step>)
      requires Valid() && name in spool && s.dead == dead && s.spool == spool
      requires s.boot == boot && s.queue == queue.Contents()
      modifies this`spool, this`dead
      ensures Valid() && Run(s, steps) == In(Run(s, steps))
      ensures Inv(s) ==> Inv(Run(s, steps))
      ensures forall i :: 0 <= i < |steps| ==>
                steps[i].Evict? || (moved && i == |steps| - 1 && steps[i] == DeadLetter(name, code))
      ensures spool == if moved then old(spool) - {name} else old(spool)
      ensures moved ==> DeadName(code, name) in dead && dead[DeadName(code, name)] == old(spool)[name]
      ensures moved ==> steps != [] && steps[|steps| - 1] == DeadLetter(name, code)
      ensures |old(dead)| <= MAXIMUM_DEAD_FILES ==> |dead| <= MAXIMUM_DEAD_FILES
    {
      hide Run, Next, Inv;
      var room;
      room, steps := MakeRoom(move.evictions, s);
      if !room {
        return false, steps;
      }
      var deadName := DeadName(code, name);
      if deadName in dead && !move.replaced {
        return false, steps;
      }
      steps := RemoveSameName(deadName, s, steps);
      if !move.renamed {
        return false, steps;
      }
      DeadLetterStep(Run(s, steps), name, code);
      steps := Extended(s, steps, DeadLetter(name, code));
      dead, spool := dead[deadName := spool[name]], spool - {name};
      return true, steps;
    }

    method RemoveSameName(deadName: DeadName, ghost s: State, ghost before: seq<Step>) returns (ghost steps: seq<Step>)
      requires Valid() && Run(s, before) == In(Run(s, before))
      requires forall i :: 0 <= i < |before| ==> before[i].Evict?
      modifies this`dead
      ensures Valid() && Run(s, steps) == In(Run(s, steps))
      ensures Inv(Run(s, before)) ==> Inv(Run(s, steps))
      ensures forall i :: 0 <= i < |steps| ==> steps[i].Evict?
      ensures deadName !in dead && |dead| <= |old(dead)|
    {
      hide Run, Next, Inv;
      if deadName !in dead {
        return before;
      }
      EvictStep(Run(s, before), deadName);
      OneFewer(dead, deadName);
      steps := Extended(s, before, Evict(deadName));
      dead := dead - {deadName};
    }

    /** The loop that removes old dead letters; the directory decides which. */
    method MakeRoom(evictions: nat, ghost s: State) returns (room: bool, ghost steps: seq<Step>)
      requires Valid() && s.dead == dead && s.spool == spool && s.boot == boot && s.queue == queue.Contents()
      modifies this`dead
      ensures Valid() && Run(s, steps) == In(Run(s, steps))
      ensures Inv(s) ==> Inv(Run(s, steps))
      ensures forall i :: 0 <= i < |steps| ==> steps[i].Evict?
      ensures room ==> |dead| < MAXIMUM_DEAD_FILES
      ensures |dead| <= |old(dead)| && forall d :: d in dead ==> d in old(dead) && dead[d] == old(dead)[d]
    {
      hide Run, Next, Inv;
      RunNothing(s);
      steps := [];
      var left := evictions;
      while |dead| >= MAXIMUM_DEAD_FILES
        invariant Valid() && Run(s, steps) == In(Run(s, steps)) && spool == old(spool)
        invariant Inv(s) ==> Inv(Run(s, steps))
        invariant forall i :: 0 <= i < |steps| ==> steps[i].Evict?
        invariant |dead| <= |old(dead)| && forall d :: d in dead ==> d in old(dead) && dead[d] == old(dead)[d]
        decreases |dead|
      {
        if left == 0 {
          return false, steps;
        }
        var oldest :| oldest in dead;
        EvictStep(Run(s, steps), oldest);
        OneFewer(dead, oldest);
        steps := Extended(s, steps, Evict(oldest));
        dead, left := dead - {oldest}, left - 1;
      }
      return true, steps;
    }

    ghost method Extended(s: State, steps: seq<Step>, step: Step) returns (more: seq<Step>)
      ensures more == steps + [step] && Run(s, more) == Next(Run(s, steps), step)
      ensures Inv(Run(s, steps)) ==> Inv(Run(s, more))
    {
      hide Inv, Next;
      KeepsInv(Run(s, steps), step);
      more := steps + [step];
      assert more[..|steps|] == steps;
    }
  }

  /** What a freeze does, in terms of the prefix that was chosen. */
  lemma FreezeStep(s: State, requested: nat, rename: Outcome, prefix: seq<Record>)
    requires 1 <= requested <= MAXIMUM_BATCH && s.queue != []
    requires prefix == Copied(s.queue, requested)[..RevisionPrefix(Copied(s.queue, requested))]
    ensures prefix != []
    ensures var batch := Entries(s.boot, prefix);
            var known := NameOf(batch) in s.spool;
            Next(s, Freeze(requested, rename))
            == s.(spool := if known || rename == NotDone then s.spool else s.spool[NameOf(batch) := batch],
                  queue := if known || rename == Done then s.queue[|prefix|..] else s.queue)
  {
    hide NameOf, RevisionPrefix;
  }

  /** Ordinary traffic stops at the soft limit, transitions at the hard one. */
  lemma ReserveIsKept(contents: seq<Record>, files: nat, lastFreezeMs: nat, a: Surroundings)
    ensures Freezes(contents, files, lastFreezeMs, a) ==>
              contents != [] && files < (if CriticalWaiting(contents) then SPOOL_HARD_LIMIT else SPOOL_SOFT_LIMIT)
  {
    hide RevisionPrefix, Requested;
  }

  lemma RunNothing(s: State)
    ensures Run(s, []) == s
  {
  }

  lemma KeepsInv(s: State, step: Step)
    ensures Inv(s) ==> Inv(Next(s, step))
  {
    hide Inv, Next;
    if Inv(s) {
      StepInv(s, step);
    }
  }

  /** The file behind an acknowledgement that licenses its removal. */
  lemma BackedRemoval(s: State, name: Name, ack: Ack)
    requires name in s.spool && ack in s.acks && Licenses(ack, name)
    ensures Inv(s) ==> HoldsAll(s.server, s.spool[name])
  {
    hide IsBatch, LogInv, Conserved;
    if Inv(s) {
      RemovalIsBacked(s, name, ack);
    }
  }

  lemma RemoveStep(s: State, name: Name, ack: Ack, removed: bool)
    requires name in s.spool && ack in s.acks && Licenses(ack, name)
    ensures var t := Next(s, Remove(name, ack, removed));
            t == s.(acked := t.acked, spool := if removed then s.spool - {name} else s.spool)
  {
  }

  lemma EvictStep(s: State, oldest: DeadName)
    requires oldest in s.dead
    ensures var t := Next(s, Evict(oldest));
            t == s.(dead := s.dead - {oldest}, evicted := t.evicted)
  {
  }

  lemma DeadLetterStep(s: State, name: Name, code: int)
    requires name in s.spool
    ensures Next(s, DeadLetter(name, code))
            == s.(spool := s.spool - {name}, dead := s.dead[DeadName(code, name) := s.spool[name]])
  {
  }

  lemma OneFewer(dead: map<DeadName, seq<Entry>>, d: DeadName)
    requires d in dead
    ensures |dead - {d}| < |dead|
  {
    assert (dead - {d}).Keys == dead.Keys - {d};
    assert |dead.Keys - {d}| < |dead.Keys|;
  }
}
