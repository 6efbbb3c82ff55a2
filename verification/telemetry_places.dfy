/** Where a record is: in one place only, as long as no rename that happened is
  * reported as failed. That report is the one thing that makes batches overlap.
  */
module TelemetryPlaces {
  import opened Bytes
  import opened TelemetryQueues
  import opened TelemetryPipeline

  ghost predicate Apart(c: seq<Entry>, d: seq<Entry>) {
    forall e :: e in c ==> e !in d
  }

  /** RAM queue, spool files and dead letters have no record in common. */
  ghost predicate Disjoint(s: State) {
    && (forall n :: n in s.spool ==> Apart(Entries(s.boot, s.queue), s.spool[n]))
    && (forall d :: d in s.dead ==> Apart(Entries(s.boot, s.queue), s.dead[d]))
    && (forall n, d :: n in s.spool && d in s.dead ==> Apart(s.spool[n], s.dead[d]))
    && (forall n, m :: n in s.spool && m in s.spool && n != m ==> Apart(s.spool[n], s.spool[m]))
    && (forall d, f :: d in s.dead && f in s.dead && d != f ==> Apart(s.dead[d], s.dead[f]))
  }

  /** The freeze that puts records into a file and leaves them in RAM as well. */
  predicate Doubles(s: State, step: Step) {
    && step.Freeze? && step.rename == DoneButReportedFailed && Enabled(s, step)
    && NameOf(Frozen(s, step.requested)) !in s.spool
  }

  lemma RamIsNewest(s: State)
    requires Inv(s)
    ensures forall e :: e in Entries(s.boot, s.queue) ==> e in s.log
    ensures forall n, e :: n in s.spool && e in s.spool[n] ==> e in s.log
    ensures forall d, e :: d in s.dead && e in s.dead[d] ==> e in s.log
  {
    hide Ordered, IsBatch, ServerInv, AcksInv, AckedInv, Conserved;
    forall n, e | n in s.spool && e in s.spool[n] ensures e in s.log {
      BatchInLog(s.log, n, s.spool[n], e);
    }
    forall d, e | d in s.dead && e in s.dead[d] ensures e in s.log {
      BatchInLog(s.log, d.name, s.dead[d], e);
    }
  }

  lemma PushKeepsApart(s: State, step: Step)
    requires Inv(s) && Disjoint(s) && step.Push?
    ensures Disjoint(Next(s, step))
  {
    hide Inv, Entries;
    RamIsNewest(s);
    var after := Next(s, step);
    if after.log != s.log {
      var r := after.queue[|s.queue|];
      EntriesAppend(s.boot, s.queue, r);
      NewIsNew(s, r);
    }
  }

  lemma NewIsNew(s: State, r: Record)
    requires Inv(s) && r.sequence == s.nextSequence
    ensures Entry(s.boot, r) !in s.log
  {
    hide Ordered, IsBatch, ServerInv, AcksInv, AckedInv, Conserved;
  }

  /** A prefix of the queue has nothing in common with the rest. */
  lemma RamIsDistinct(s: State, n: nat)
    requires LogInv(s.log, s.boot, s.nextSequence, s.queue) && n <= |s.queue|
    ensures Apart(Entries(s.boot, s.queue)[..n], Entries(s.boot, s.queue)[n..])
  {
    var ram, start := Entries(s.boot, s.queue), |s.log| - |s.queue|;
    forall i, j | 0 <= i < n <= j < |ram| ensures ram[i] != ram[j] {
      assert Before(s.log[start + i], s.log[start + j]);
    }
  }

  /** Taking records out of RAM brings no place closer to another. */
  lemma FewerInRam(s: State, after: State)
    requires Disjoint(s) && after == s.(queue := after.queue)
    requires forall e :: e in Entries(s.boot, after.queue) ==> e in Entries(s.boot, s.queue)
    ensures Disjoint(after)
  {
    hide Entries;
  }

  lemma IntoAFile(s: State, after: State, name: Name, c: seq<Entry>)
    requires Disjoint(s) && name !in s.spool && after == s.(queue := after.queue, spool := s.spool[name := c])
    requires forall e :: e in Entries(s.boot, after.queue) || e in c ==> e in Entries(s.boot, s.queue)
    requires Apart(Entries(s.boot, after.queue), c)
    ensures Disjoint(after)
  {
    hide Entries;
  }

  lemma FreezeKeepsApart(s: State, requested: nat, rename: Outcome)
    requires Inv(s) && Disjoint(s) && Enabled(s, Freeze(requested, rename))
    ensures var step := Freeze(requested, rename);
            Disjoint(Next(s, step)) <==> !Doubles(s, step)
  {
    hide Inv, Disjoint, RevisionPrefix, Entries;
    var after, c := Next(s, Freeze(requested, rename)), Frozen(s, requested);
    var ram := Entries(s.boot, s.queue);
    FrozenIsPrefix(s, requested);
    RamSplits(s, |c|);
    assert c[0] in c && c[0] in ram;
    assert forall e :: e in c || e in ram[|c|..] ==> e in ram;
    if NameOf(c) in s.spool {
      FewerInRam(s, after);
    } else if rename == Done {
      IntoAFile(s, after, NameOf(c), c);
    } else if rename == DoneButReportedFailed {
      InTwoPlaces(after, NameOf(c), c[0]);
    }
  }

  lemma RamSplits(s: State, n: nat)
    requires Inv(s) && n <= |s.queue|
    ensures Apart(Entries(s.boot, s.queue)[n..], Entries(s.boot, s.queue)[..n])
  {
    RamIsDistinct(s, n);
    hide LogInv, SpoolInv, DeadInv, ServerInv, AcksInv, AckedInv, Conserved;
  }

  lemma InTwoPlaces(s: State, n: Name, e: Entry)
    requires n in s.spool && e in s.spool[n] && e in Entries(s.boot, s.queue)
    ensures !Disjoint(s)
  {
    hide Entries;
    assert !Apart(Entries(s.boot, s.queue), s.spool[n]);
  }

  lemma DeadLetterKeepsApart(s: State, name: Name, code: int)
    requires Inv(s) && Disjoint(s) && name in s.spool
    ensures Disjoint(Next(s, DeadLetter(name, code)))
  {
    hide Ordered, IsBatch, ServerInv, AcksInv, AckedInv, Conserved, Entries;
    DeadLetterKeeps(s, name, code);
    BatchIsNotEmpty(s.log, name, s.spool[name]);
    hide Inv;
    assert s.spool[name][0] in s.spool[name];
  }

  lemma LeavingKeepsApart(s: State, step: Step)
    requires Disjoint(s) && (step.Post? || step.Remove? || step.Evict? || step.PowerLoss?)
    ensures Disjoint(Next(s, step))
  {
    hide Ingest, Conflicts, Licenses;
  }

  /** One step keeps every record in one place, if and only if it is not a freeze
    * whose rename happened and was reported as failed. */
  lemma StepKeepsApart(s: State, step: Step)
    requires Inv(s) && Disjoint(s)
    ensures Disjoint(Next(s, step)) <==> !Doubles(s, step)
  {
    hide Inv, Disjoint, Frozen;
    if Enabled(s, step) {
      match step
      case Push(_, _, _, _, _) => PushKeepsApart(s, step);
      case Freeze(requested, rename) => FreezeKeepsApart(s, requested, rename);
      case DeadLetter(name, code) => DeadLetterKeepsApart(s, name, code);
      case _ => LeavingKeepsApart(s, step);
    }
  }

  /** Over every run without such a report, RAM, files and dead letters are
    * pairwise disjoint. */
  lemma {:induction false} EveryRecordInOnePlace(steps: seq<Step>)
    requires forall i :: 0 <= i < |steps| && steps[i].Freeze? ==> steps[i].rename != DoneButReportedFailed
    ensures Disjoint(Run(InitialState(), steps))
  {
    if steps != [] {
      var init, last := steps[..|steps| - 1], steps[|steps| - 1];
      EveryRecordInOnePlace(init);
      RunKeepsInvariant(init);
      hide Inv, Disjoint, Next;
      StepKeepsApart(Run(InitialState(), init), last);
    }
  }

  // ---------------------------------------------------------------- overlap

  function Overlapping(): seq<Step> {
    [Push(Transition, 0, 0, [], false), Freeze(30, DoneButReportedFailed),
     Push(Transition, 1, 0, [], false), Freeze(30, Done)]
  }

  /** The state before step k of that run. */
  function OverlapState(k: nat): State {
    var r0, r1 := Record(Transition, 0, 0, 0, []), Record(Transition, 1, 1, 0, []);
    var short := map[Name(0, 0, 0, 1) := [Entry(0, r0)]];
    if k == 0 then InitialState()
    else if k == 1 then InitialState().(nextSequence := 1, queue := [r0], log := [Entry(0, r0)])
    else if k == 2 then InitialState().(nextSequence := 1, queue := [r0], spool := short, log := [Entry(0, r0)])
    else
      var two := InitialState().(nextSequence := 2, queue := [r0, r1], spool := short,
                                 log := [Entry(0, r0), Entry(0, r1)]);
      if k == 3 then two
      else two.(queue := [], spool := short[Name(0, 0, 1, 2) := [Entry(0, r0), Entry(0, r1)]])
  }

  lemma OverlapStep(k: nat)
    requires k < 4
    ensures Next(OverlapState(k), Overlapping()[k]) == OverlapState(k + 1)
  {
    var s, r0, r1 := OverlapState(k), Record(Transition, 0, 0, 0, []), Record(Transition, 1, 1, 0, []);
    if k == 1 {
      assert s.queue[..1] == [r0];
      assert Entries(0, [r0]) == [Entry(0, r0)];
    } else if k == 3 {
      assert s.queue[..2] == [r0, r1] && RevisionPrefix([r0, r1][1..]) == 1;
      assert Entries(0, [r0, r1]) == [Entry(0, r0), Entry(0, r1)];
    }
  }

  lemma {:induction false} OverlapRun(k: nat)
    requires k <= 4
    ensures Run(InitialState(), Overlapping()[..k]) == OverlapState(k)
  {
    hide Next;
    if k > 0 {
      OverlapRun(k - 1);
      OverlapStep(k - 1);
      assert Overlapping()[..k][..k - 1] == Overlapping()[..k - 1];
    }
  }

  /** With such a report a record may end up in two files. */
  lemma BatchesMayOverlap()
    ensures var s := Run(InitialState(), Overlapping());
            var e := Entry(0, Record(Transition, 0, 0, 0, []));
            && Name(0, 0, 0, 1) in s.spool && e in s.spool[Name(0, 0, 0, 1)]
            && Name(0, 0, 1, 2) in s.spool && e in s.spool[Name(0, 0, 1, 2)]
            && !Disjoint(s)
  {
    hide Run, Next;
    OverlapRun(4);
    assert Overlapping()[..4] == Overlapping();
    var s, e := OverlapState(4), Entry(0, Record(Transition, 0, 0, 0, []));
    assert !Apart(s.spool[Name(0, 0, 0, 1)], s.spool[Name(0, 0, 1, 2)]) by {
      assert e in s.spool[Name(0, 0, 0, 1)] && e == s.spool[Name(0, 0, 1, 2)][0];
    }
  }
}
