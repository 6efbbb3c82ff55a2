/** Nothing in the pipeline is ever stuck: from every reachable state, whatever
  * was lost, repeated or interrupted before, operations that succeed bring
  * everything that is queued or spooled to the server.
  */
module TelemetryDelivery {
  import opened Bytes
  import opened TelemetryQueues
  import opened TelemetryPipeline

  /** What the worker does when flash and network work. */
  predicate Succeeds(step: Step) {
    match step
    case Freeze(_, rename) => rename == Done
    case Post(_) => true
    case Remove(_, _, removed) => removed
    case _ => false
  }

  /** `t` is `s` with queue and spool delivered, and nothing given up for it. */
  ghost predicate Delivered(s: State, t: State) {
    && t.queue == [] && t.spool == map[] && t.log == s.log
    && t.dead == s.dead && t.evicted == s.evicted && t.lost == s.lost && s.acked <= t.acked
    && (forall e :: e in Entries(s.boot, s.queue) || InSpool(s.spool, e) ==> e in t.acked)
  }

  lemma {:induction false} RunFrom(s: State, first: Step, more: seq<Step>)
    ensures Run(s, [first] + more) == Run(Next(s, first), more)
  {
    if more == [] {
      assert ([first] + more)[..0] == [];
    } else {
      RunFrom(s, first, more[..|more| - 1]);
      assert ([first] + more)[..|more|] == [first] + more[..|more| - 1];
    }
  }

  lemma {:induction false} RunConcat(s: State, a: seq<Step>, b: seq<Step>)
    ensures Run(s, a + b) == Run(Run(s, a), b)
  {
    if b == [] {
      assert a + b == a;
    } else {
      RunConcat(s, a, b[..|b| - 1]);
      assert (a + b)[..|a + b| - 1] == a + b[..|b| - 1];
    }
  }

  lemma FileIsBatch(s: State, n: Name)
    requires Inv(s) && n in s.spool
    ensures s.spool[n] != [] && NameOf(s.spool[n]) == n && !Conflicts(s.server, s.spool[n])
  {
    BatchIsNotEmpty(s.log, n, s.spool[n]);
    BatchAgrees(s.log, s.server, n, s.spool[n]);
    hide IsBatch, Ordered, ServerInv, AcksInv, AckedInv, Conserved, Conflicts;
  }

  /** One file: its batch is posted, and the server's answer licenses its removal. */
  lemma DeliverFile(s: State, n: Name)
    requires Inv(s) && n in s.spool
    ensures s.spool[n] != []
    ensures var s2 := Next(Next(s, Post(n)), Remove(n, AckOf(s.spool[n]), true));
            && Inv(s2) && s2.queue == s.queue && s2.boot == s.boot && s2.log == s.log && s2.spool == s.spool - {n}
            && s2.dead == s.dead && s2.evicted == s.evicted && s2.lost == s.lost
            && s2.acked == s.acked + All(s.spool[n])
  {
    hide Inv, Ingest, Conflicts, FreezeQueue, QueueTakes, All;
    FileIsBatch(s, n);
    StepInv(s, Post(n));
    StepInv(Next(s, Post(n)), Remove(n, AckOf(s.spool[n]), true));
  }

  lemma {:induction false} DrainSpool(s: State) returns (steps: seq<Step>)
    requires Inv(s) && s.queue == []
    ensures Delivered(s, Run(s, steps)) && forall i :: 0 <= i < |steps| ==> Succeeds(steps[i])
    decreases |s.spool|
  {
    hide Inv, Next;
    if s.spool == map[] {
      steps := [];
    } else {
      var n :| n in s.spool;
      DeliverFile(s, n);
      var post, remove := Post(n), Remove(n, AckOf(s.spool[n]), true);
      var s2 := Next(Next(s, post), remove);
      Shrinks(s.spool, n);
      var more := DrainSpool(s2);
      steps := [post] + ([remove] + more);
      RunFrom(s, post, [remove] + more);
      RunFrom(Next(s, post), remove, more);
      FileDelivered(s, n, s2, Run(s2, more));
    }
  }

  lemma Shrinks(spool: map<Name, seq<Entry>>, n: Name)
    requires n in spool
    ensures |spool - {n}| < |spool|
  {
    assert (spool - {n}).Keys == spool.Keys - {n};
    assert |spool.Keys - {n}| < |spool.Keys|;
  }

  lemma FileDelivered(s: State, n: Name, s2: State, t: State)
    requires n in s.spool && s.queue == [] && s2.spool == s.spool - {n} && s2.queue == []
    requires s2.acked == s.acked + All(s.spool[n]) && s2.log == s.log && s2.boot == s.boot
    requires s2.dead == s.dead && s2.evicted == s.evicted && s2.lost == s.lost
    requires Delivered(s2, t)
    ensures Delivered(s, t)
  {
    forall e | InSpool(s.spool, e) ensures e in t.acked {
      var m :| m in s.spool && e in s.spool[m];
      if m == n {
        assert e in All(s.spool[n]);
      } else {
        assert m in s2.spool && e in s2.spool[m];
      }
    }
  }

  /** One freeze: a prefix of the queue is in a file now. */
  lemma FreezeSome(s: State)
    requires Inv(s) && s.queue != []
    ensures var s1 := Next(s, Freeze(1, Done));
            && Inv(s1) && |s1.queue| < |s.queue| && s1.boot == s.boot && s1.log == s.log && s1.acked == s.acked
            && s1.dead == s.dead && s1.evicted == s.evicted && s1.lost == s.lost
            && (forall e :: InSpool(s.spool, e) ==> InSpool(s1.spool, e))
            && (forall e :: e in Entries(s.boot, s.queue) ==>
                  e in Entries(s.boot, s1.queue) || InSpool(s1.spool, e))
  {
    hide Inv, RevisionPrefix, QueueTakes, All, Ingest;
    var s1, c := Next(s, Freeze(1, Done)), Frozen(s, 1);
    StepInv(s, Freeze(1, Done));
    FrozenIsPrefix(s, 1);
    FrozenIsItsFile(s);
    hide Entries;
    assert s1.spool[NameOf(c)] == c;
    assert Entries(s.boot, s.queue) == c + Entries(s.boot, s1.queue);
    forall e | InSpool(s.spool, e) ensures InSpool(s1.spool, e) {
      var m :| m in s.spool && e in s.spool[m];
      assert m in s1.spool && s1.spool[m] == s.spool[m];
    }
  }

  /** A file that is there already has the very content. */
  lemma FrozenIsItsFile(s: State)
    requires Inv(s) && s.queue != []
    ensures var c := Frozen(s, 1);
            NameOf(c) in s.spool ==> s.spool[NameOf(c)] == c
  {
    FrozenIsBatch(s, 1);
    var c := Frozen(s, 1);
    if NameOf(c) in s.spool {
      NameDeterminesContent(s.log, NameOf(c), c, s.spool[NameOf(c)]);
    }
    hide IsBatch, Conserved, ServerInv, AcksInv, AckedInv;
  }

  lemma {:induction false} Drain(s: State) returns (steps: seq<Step>)
    requires Inv(s)
    ensures Delivered(s, Run(s, steps)) && forall i :: 0 <= i < |steps| ==> Succeeds(steps[i])
    decreases |s.queue|
  {
    hide Inv, Next;
    if s.queue == [] {
      steps := DrainSpool(s);
    } else {
      var freeze := Freeze(1, Done);
      FreezeSome(s);
      var more := Drain(Next(s, freeze));
      steps := [freeze] + more;
      RunFrom(s, freeze, more);
    }
  }

  /** From every reachable state the pipeline can be drained: every record in RAM
    * or in a file ends up acknowledged and unaltered on the server, with nothing
    * more dead-lettered or lost. */
  lemma EverythingCanBeDelivered(history: seq<Step>)
    ensures exists steps ::
              && (forall i :: 0 <= i < |steps| ==> Succeeds(steps[i]))
              && var s, t := Run(InitialState(), history), Run(InitialState(), history + steps);
                 && Delivered(s, t)
                 && forall e :: e in Entries(s.boot, s.queue) || InSpool(s.spool, e) ==> Holds(t.server, e)
  {
    RunKeepsInvariant(history);
    var s := Run(InitialState(), history);
    var steps := Drain(s);
    RunConcat(InitialState(), history, steps);
    RunKeepsInvariant(history + steps);
    var t := Run(s, steps);
    assert AckedInv(t.log, t.server, t.acked);
    hide Run, Inv;
    assert forall e :: e in Entries(s.boot, s.queue) || InSpool(s.spool, e) ==> Holds(t.server, e);
  }
}
