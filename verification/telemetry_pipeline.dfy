/** Store and forward: from the RAM queue through immutable spool files to the
  * server (src/telemetry_uploader.cpp). The network loses, delays and repeats
  * messages but delivers only what the server sent; the server keeps one record
  * under (boot, sequence) and rejects a batch that conflicts with it as a whole;
  * a rename happens or does not, and its result may deny one that did.
  */
module TelemetryPipeline {
  import opened Bytes
  import opened TelemetryQueues

  /** Boots are numbered; the device's random boot ids never repeat. */
  datatype Entry = Entry(boot: nat, record: Record)

  /** The metadata a spool file name and a batch id carry. */
  datatype Name = Name(boot: nat, first: nat, last: nat, count: nat)

  /** What a parsed ingest acknowledgement says. */
  datatype Ack = Ack(batch: Name, count: nat, maxSequence: nat)

  /** A dead letter's file name carries the status that condemned it. */
  datatype DeadName = DeadName(code: int, name: Name)

  datatype Key = Key(boot: nat, sequence: nat)

  datatype State = State(
    boot: nat, nextSequence: nat, queue: seq<Record>,       // RAM
    spool: map<Name, seq<Entry>>, dead: map<DeadName, seq<Entry>>,  // flash
    server: map<Key, Record>, acks: set<Ack>,               // beyond the device
    log: seq<Entry>,                                        // history: all that the queue stored
    acked: set<Entry>, evicted: set<Entry>, lost: set<Entry>)

  const MAXIMUM_BATCH := 30

  function KeyOf(e: Entry): Key {
    Key(e.boot, e.record.sequence)
  }

  function All(c: seq<Entry>): set<Entry> {
    set e | e in c
  }

  function NameOf(c: seq<Entry>): Name
    requires c != []
  {
    Name(c[0].boot, c[0].record.sequence, c[|c| - 1].record.sequence, |c|)
  }

  function AckOf(c: seq<Entry>): Ack
    requires c != []
  {
    Ack(NameOf(c), |c|, c[|c| - 1].record.sequence)
  }

  /** parseIngestAck() accepts the answer for this file. */
  predicate Licenses(a: Ack, n: Name) {
    a.batch == n && a.count == n.count && a.maxSequence == n.last
  }

  function Entries(boot: nat, records: seq<Record>): (r: seq<Entry>)
    ensures |r| == |records| && forall i :: 0 <= i < |r| ==> r[i] == Entry(boot, records[i])
  {
    seq(|records|, i requires 0 <= i < |records| => Entry(boot, records[i]))
  }

  /** The batch would replace history: a record of it is known otherwise. */
  predicate Conflicts(server: map<Key, Record>, c: seq<Entry>) {
    exists e :: e in c && KeyOf(e) in server && server[KeyOf(e)] != e.record
  }

  /** The idempotent server: what is there stays, the rest is added. */
  function Ingest(server: map<Key, Record>, c: seq<Entry>): (r: map<Key, Record>)
    ensures forall k :: k in server ==> k in r && r[k] == server[k]
    ensures forall e :: e in c ==> KeyOf(e) in r
    ensures forall k :: k in r ==> k in server || exists e :: e in c && KeyOf(e) == k && r[k] == e.record
  {
    if c == [] then server
    else
      var rest := Ingest(server, c[..|c| - 1]);
      var e := c[|c| - 1];
      if KeyOf(e) in rest then rest else rest[KeyOf(e) := e.record]
  }

  datatype Step =
    | Push(kind: Kind, uptimeMs: nat, revision: nat, payload: bytes, criticalOnly: bool)
    | Freeze(requested: nat, rename: Outcome)
    | Post(name: Name)
    | Remove(name: Name, ack: Ack, removed: bool)
    | DeadLetter(name: Name, code: int)
    | Evict(oldest: DeadName)
    | PowerLoss

  predicate Enabled(s: State, step: Step) {
    match step
    case Push(_, _, _, _, _) => true
    case Freeze(requested, _) => 1 <= requested <= MAXIMUM_BATCH && s.queue != []
    case Post(name) => name in s.spool
    case Remove(name, ack, _) => name in s.spool && ack in s.acks && Licenses(ack, name)
    case DeadLetter(name, _) => name in s.spool
    case Evict(oldest) => oldest in s.dead
    case PowerLoss => true
  }

  /** TelemetryQueue::push(). */
  predicate QueueTakes(s: State, kind: Kind, criticalOnly: bool) {
    if kind == Sample then !criticalOnly && |s.queue| < SAMPLE_LIMIT else |s.queue| < CAPACITY
  }

  /** freezeQueueIfNeeded(), once it decided to freeze: the longest prefix of one
    * revision within the requested size; an existing file is never rewritten. */
  function FreezeQueue(s: State, requested: nat, rename: Outcome): State
    requires s.queue != [] && requested >= 1
  {
    var copied := s.queue[..if |s.queue| < requested then |s.queue| else requested];
    var n := RevisionPrefix(copied);
    var batch := Entries(s.boot, copied[..n]);
    var name := NameOf(batch);
    if name in s.spool then s.(queue := s.queue[n..])
    else if rename == NotDone then s
    else
      var spooled := s.(spool := s.spool[name := batch]);
      if rename == Done then spooled.(queue := s.queue[n..]) else spooled
  }

  function Next(s: State, step: Step): State {
    if !Enabled(s, step) then s
    else
      match step
      case Push(kind, uptime, revision, payload, criticalOnly) =>
        var r := Record(kind, s.nextSequence, uptime, revision, payload);
        var counted := s.(nextSequence := s.nextSequence + 1);
        if !QueueTakes(s, kind, criticalOnly) then counted
        else counted.(queue := s.queue + [r], log := s.log + [Entry(s.boot, r)])
      case Freeze(requested, rename) => FreezeQueue(s, requested, rename)
      case Post(name) =>
        var c := s.spool[name];
        if c == [] || Conflicts(s.server, c) then s
        else s.(server := Ingest(s.server, c), acks := s.acks + {AckOf(c)})
      case Remove(name, _, removed) =>
        var marked := s.(acked := s.acked + All(s.spool[name]));
        if removed then marked.(spool := s.spool - {name}) else marked
      case DeadLetter(name, code) =>
        s.(spool := s.spool - {name}, dead := s.dead[DeadName(code, name) := s.spool[name]])
      case Evict(oldest) => s.(dead := s.dead - {oldest}, evicted := s.evicted + All(s.dead[oldest]))
      case PowerLoss =>
        s.(queue := [], boot := s.boot + 1, nextSequence := 0,
           lost := s.lost + All(Entries(s.boot, s.queue)))
  }

  function Run(s: State, steps: seq<Step>): State {
    if steps == [] then s else Next(Run(s, steps[..|steps| - 1]), steps[|steps| - 1])
  }

  function InitialState(): State {
    State(0, 0, [], map[], map[], map[], {}, [], {}, {}, {})
  }

  // -------------------------------------------------------------- invariant

  predicate Before(x: Entry, y: Entry) {
    x.boot < y.boot || (x.boot == y.boot && x.record.sequence < y.record.sequence)
  }

  ghost predicate Ordered(log: seq<Entry>) {
    forall i, j :: 0 <= i < j < |log| ==> Before(log[i], log[j])
  }

  /** `c` is a run of the log, within one revision, under its own name. */
  ghost predicate BatchAt(log: seq<Entry>, n: Name, c: seq<Entry>, i: nat) {
    && c != [] && i + |c| <= |log| && log[i..i + |c|] == c
    && NameOf(c) == n && |c| <= MAXIMUM_BATCH
    && forall k :: 0 <= k < |c| ==>
         c[k].boot == c[0].boot && c[k].record.appliedConfigRevision == c[0].record.appliedConfigRevision
  }

  ghost predicate IsBatch(log: seq<Entry>, n: Name, c: seq<Entry>) {
    exists i: nat :: BatchAt(log, n, c, i)
  }

  predicate Holds(server: map<Key, Record>, e: Entry) {
    KeyOf(e) in server && server[KeyOf(e)] == e.record
  }

  ghost predicate HoldsAll(server: map<Key, Record>, c: seq<Entry>) {
    forall e :: e in c ==> Holds(server, e)
  }

  /** The acknowledgement speaks for a batch the server has. */
  ghost predicate Backed(log: seq<Entry>, server: map<Key, Record>, a: Ack) {
    exists c :: c != [] && IsBatch(log, a.batch, c) && a == AckOf(c) && HoldsAll(server, c)
  }

  /** RAM holds the end of this boot's log. */
  ghost predicate LogInv(log: seq<Entry>, boot: nat, nextSequence: nat, queue: seq<Record>) {
    && Ordered(log)
    && (forall e :: e in log ==> e.boot < boot || (e.boot == boot && e.record.sequence < nextSequence))
    && |queue| <= |log|
    && Entries(boot, queue) == log[|log| - |queue|..]
  }

  ghost predicate SpoolInv(log: seq<Entry>, spool: map<Name, seq<Entry>>) {
    forall n :: n in spool ==> IsBatch(log, n, spool[n])
  }

  ghost predicate DeadInv(log: seq<Entry>, dead: map<DeadName, seq<Entry>>) {
    forall d :: d in dead ==> IsBatch(log, d.name, dead[d])
  }

  ghost predicate ServerInv(log: seq<Entry>, server: map<Key, Record>) {
    forall k :: k in server ==> exists e :: e in log && KeyOf(e) == k && Holds(server, e)
  }

  ghost predicate AcksInv(log: seq<Entry>, server: map<Key, Record>, acks: set<Ack>) {
    forall a :: a in acks ==> Backed(log, server, a)
  }

  ghost predicate AckedInv(log: seq<Entry>, server: map<Key, Record>, acked: set<Entry>) {
    forall e :: e in acked ==> e in log && Holds(server, e)
  }

  ghost predicate InSpool(spool: map<Name, seq<Entry>>, e: Entry) {
    exists n :: n in spool && e in spool[n]
  }

  ghost predicate InDead(dead: map<DeadName, seq<Entry>>, e: Entry) {
    exists d :: d in dead && e in dead[d]
  }

  ghost predicate Somewhere(s: State, e: Entry) {
    e in Entries(s.boot, s.queue) || InSpool(s.spool, e) || InDead(s.dead, e)
    || e in s.acked || e in s.evicted || e in s.lost
  }

  ghost predicate Conserved(s: State) {
    forall e :: e in s.log ==> Somewhere(s, e)
  }

  ghost predicate Inv(s: State) {
    && LogInv(s.log, s.boot, s.nextSequence, s.queue) && SpoolInv(s.log, s.spool)
    && DeadInv(s.log, s.dead) && ServerInv(s.log, s.server) && AcksInv(s.log, s.server, s.acks)
    && AckedInv(s.log, s.server, s.acked) && Conserved(s)
  }

  // ------------------------------------------------------ names and contents

  lemma KeysAreUnique(log: seq<Entry>, i: nat, j: nat)
    requires Ordered(log) && i < |log| && j < |log| && KeyOf(log[i]) == KeyOf(log[j])
    ensures i == j
  {
  }

  /** A name belongs to one content, for ever. */
  lemma NameDeterminesContent(log: seq<Entry>, n: Name, c: seq<Entry>, d: seq<Entry>)
    requires Ordered(log) && IsBatch(log, n, c) && IsBatch(log, n, d)
    ensures c == d
  {
    var i: nat :| BatchAt(log, n, c, i);
    var j: nat :| BatchAt(log, n, d, j);
    assert log[i] == c[0] && log[j] == d[0];
    KeysAreUnique(log, i, j);
  }

  lemma BatchInLog(log: seq<Entry>, n: Name, c: seq<Entry>, e: Entry)
    requires IsBatch(log, n, c) && e in c
    ensures e in log
  {
    var i: nat :| BatchAt(log, n, c, i);
    var k :| 0 <= k < |c| && c[k] == e;
    assert log[i..i + |c|][k] == log[i + k];
  }

  lemma BatchSurvivesAppend(log: seq<Entry>, x: Entry, n: Name, c: seq<Entry>)
    requires IsBatch(log, n, c)
    ensures IsBatch(log + [x], n, c)
  {
    var i: nat :| BatchAt(log, n, c, i);
    assert (log + [x])[i..i + |c|] == log[i..i + |c|];
    assert BatchAt(log + [x], n, c, i);
  }

  lemma BatchIsNotEmpty(log: seq<Entry>, n: Name, c: seq<Entry>)
    requires IsBatch(log, n, c)
    ensures c != [] && NameOf(c) == n
  {
  }

  // ------------------------------------------------------------ log appends

  lemma AppendKeepsFlash(log: seq<Entry>, x: Entry, spool: map<Name, seq<Entry>>, dead: map<DeadName, seq<Entry>>)
    requires SpoolInv(log, spool) && DeadInv(log, dead)
    ensures SpoolInv(log + [x], spool) && DeadInv(log + [x], dead)
  {
    hide IsBatch;
    forall d | d in dead ensures IsBatch(log + [x], d.name, dead[d]) {
      BatchSurvivesAppend(log, x, d.name, dead[d]);
    }
    forall n | n in spool ensures IsBatch(log + [x], n, spool[n]) {
      BatchSurvivesAppend(log, x, n, spool[n]);
    }
  }

  lemma AppendKeepsServer(log: seq<Entry>, x: Entry, server: map<Key, Record>, acks: set<Ack>, acked: set<Entry>)
    requires ServerInv(log, server) && AcksInv(log, server, acks) && AckedInv(log, server, acked)
    ensures ServerInv(log + [x], server) && AcksInv(log + [x], server, acks) && AckedInv(log + [x], server, acked)
  {
    forall a | a in acks ensures Backed(log + [x], server, a) {
      var c :| c != [] && IsBatch(log, a.batch, c) && a == AckOf(c) && HoldsAll(server, c);
      BatchSurvivesAppend(log, x, a.batch, c);
    }
    forall k | k in server ensures exists e :: e in log + [x] && KeyOf(e) == k && Holds(server, e) {
      var e :| e in log && KeyOf(e) == k && Holds(server, e);
      assert e in log + [x];
    }
  }

  lemma AppendKeepsLog(s: State, r: Record)
    requires LogInv(s.log, s.boot, s.nextSequence, s.queue) && r.sequence == s.nextSequence
    ensures LogInv(s.log + [Entry(s.boot, r)], s.boot, s.nextSequence + 1, s.queue + [r])
  {
    hide Ordered, Entries;
    var x := Entry(s.boot, r);
    EntriesAppend(s.boot, s.queue, r);
    assert (s.log + [x])[|s.log + [x]| - |s.queue| - 1..] == s.log[|s.log| - |s.queue|..] + [x];
    OrderedAppend(s.log, x);
  }

  lemma EntriesAppend(boot: nat, records: seq<Record>, r: Record)
    ensures Entries(boot, records + [r]) == Entries(boot, records) + [Entry(boot, r)]
  {
  }

  lemma OrderedAppend(log: seq<Entry>, x: Entry)
    requires Ordered(log) && forall e :: e in log ==> Before(e, x)
    ensures Ordered(log + [x])
  {
  }

  lemma PushInv(s: State, step: Step)
    requires Inv(s) && step.Push?
    ensures Inv(Next(s, step))
  {
    var after := Next(s, step);
    if after.log == s.log {
      hide SpoolInv, DeadInv, ServerInv, AcksInv, AckedInv, Ordered;
      SameEntriesConserved(s, after);
    } else {
      hide Ordered, SpoolInv, DeadInv, ServerInv, AcksInv, AckedInv, LogInv, Somewhere;
      var r := after.queue[|s.queue|];
      AppendKeepsLog(s, r);
      AppendKeepsFlash(s.log, Entry(s.boot, r), s.spool, s.dead);
      AppendKeepsServer(s.log, Entry(s.boot, r), s.server, s.acks, s.acked);
      AppendConserves(s, after, r);
    }
  }

  lemma AppendConserves(s: State, after: State, r: Record)
    requires Conserved(s)
    requires after == s.(nextSequence := after.nextSequence, queue := s.queue + [r], log := s.log + [Entry(s.boot, r)])
    ensures Conserved(after)
  {
    assert Entries(s.boot, after.queue) == Entries(s.boot, s.queue) + [Entry(s.boot, r)];
    forall e | e in after.log ensures Somewhere(after, e) {
      assert e in s.log ==> Somewhere(s, e);
    }
  }

  /** Histories may grow while the device's own records stay. */
  lemma SameEntriesConserved(s: State, after: State)
    requires Conserved(s) && after.log == s.log && after.spool == s.spool && after.dead == s.dead
    requires after.boot == s.boot && after.queue == s.queue
    requires s.acked <= after.acked && s.evicted <= after.evicted && s.lost <= after.lost
    ensures Conserved(after)
  {
    forall e | e in s.log ensures Somewhere(after, e) {
      assert Somewhere(s, e);
    }
  }

  // ---------------------------------------------------------------- posting

  /** The device's own records never conflict. */
  lemma BatchAgrees(log: seq<Entry>, server: map<Key, Record>, n: Name, c: seq<Entry>)
    requires Ordered(log) && ServerInv(log, server) && IsBatch(log, n, c)
    ensures !Conflicts(server, c)
  {
    forall e | e in c && KeyOf(e) in server ensures server[KeyOf(e)] == e.record {
      BatchInLog(log, n, c, e);
      var x :| x in log && KeyOf(x) == KeyOf(e) && Holds(server, x);
      var i, j :| 0 <= i < |log| && log[i] == x && 0 <= j < |log| && log[j] == e;
      KeysAreUnique(log, i, j);
    }
  }

  /** Posting a batch leaves exactly its records under their keys. */
  lemma IngestKeepsServer(log: seq<Entry>, server: map<Key, Record>, n: Name, c: seq<Entry>)
    requires Ordered(log) && ServerInv(log, server) && IsBatch(log, n, c)
    ensures ServerInv(log, Ingest(server, c)) && HoldsAll(Ingest(server, c), c)
  {
    var after := Ingest(server, c);
    forall k | k in after ensures exists e :: e in log && KeyOf(e) == k && Holds(after, e) {
      if k in server {
        var e :| e in log && KeyOf(e) == k && Holds(server, e);
        assert Holds(after, e);
      } else {
        var e :| e in c && KeyOf(e) == k && after[k] == e.record;
        BatchInLog(log, n, c, e);
        assert Holds(after, e);
      }
    }
    forall e | e in c ensures Holds(after, e) {
      BatchInLog(log, n, c, e);
      var x :| x in log && KeyOf(x) == KeyOf(e) && Holds(after, x);
      var i, j :| 0 <= i < |log| && log[i] == x && 0 <= j < |log| && log[j] == e;
      KeysAreUnique(log, i, j);
    }
  }

  lemma IngestKeepsAcks(log: seq<Entry>, server: map<Key, Record>, c: seq<Entry>, acks: set<Ack>, acked: set<Entry>)
    requires AcksInv(log, server, acks) && AckedInv(log, server, acked)
    ensures AcksInv(log, Ingest(server, c), acks) && AckedInv(log, Ingest(server, c), acked)
  {
    var after := Ingest(server, c);
    forall a | a in acks ensures Backed(log, after, a) {
      var d :| d != [] && IsBatch(log, a.batch, d) && a == AckOf(d) && HoldsAll(server, d);
      assert HoldsAll(after, d) by {
        forall e | e in d ensures Holds(after, e) { assert Holds(server, e); }
      }
    }
  }

  lemma PostInv(s: State, name: Name)
    requires Inv(s) && name in s.spool
    ensures Inv(Next(s, Post(name)))
  {
    hide Ordered, IsBatch, ServerInv, AckedInv, Conserved, HoldsAll, Holds, Ingest, Conflicts;
    var c := s.spool[name];
    BatchIsNotEmpty(s.log, name, c);
    BatchAgrees(s.log, s.server, name, c);
    IngestKeepsServer(s.log, s.server, name, c);
    IngestKeepsAcks(s.log, s.server, c, s.acks, s.acked);
    assert Backed(s.log, Ingest(s.server, c), AckOf(c));
    SameEntriesConserved(s, Next(s, Post(name)));
  }

  // --------------------------------------------------------------- freezing

  function Frozen(s: State, requested: nat): (r: seq<Entry>)
    requires s.queue != [] && requested >= 1
    ensures 0 < |r| <= |s.queue|
  {
    var copied := s.queue[..if |s.queue| < requested then |s.queue| else requested];
    Entries(s.boot, copied[..RevisionPrefix(copied)])
  }

  lemma FrozenIsPrefix(s: State, requested: nat)
    requires s.queue != [] && requested >= 1
    ensures Entries(s.boot, s.queue)[..|Frozen(s, requested)|] == Frozen(s, requested)
    ensures Entries(s.boot, s.queue)[|Frozen(s, requested)|..]
            == Entries(s.boot, s.queue[|Frozen(s, requested)|..])
  {
  }

  lemma FrozenIsUniform(s: State, requested: nat)
    requires s.queue != [] && 1 <= requested <= MAXIMUM_BATCH
    ensures var c := Frozen(s, requested);
            && |c| <= MAXIMUM_BATCH
            && forall k :: 0 <= k < |c| ==>
                 c[k].boot == c[0].boot && c[k].record.appliedConfigRevision == c[0].record.appliedConfigRevision
  {
    var copied := s.queue[..if |s.queue| < requested then |s.queue| else requested];
    var n := RevisionPrefix(copied);
    LongestPrefix(copied, n);
    assert forall k :: 0 <= k < n ==> Frozen(s, requested)[k].record == copied[..n][k];
  }

  /** What a freeze cuts off the queue is a batch under its name. */
  lemma FrozenIsBatch(s: State, requested: nat)
    requires LogInv(s.log, s.boot, s.nextSequence, s.queue)
    requires s.queue != [] && 1 <= requested <= MAXIMUM_BATCH
    ensures IsBatch(s.log, NameOf(Frozen(s, requested)), Frozen(s, requested))
  {
    hide Ordered;
    FrozenIsPrefix(s, requested);
    FrozenIsUniform(s, requested);
    var c, start := Frozen(s, requested), |s.log| - |s.queue|;
    assert s.log[start..start + |c|] == s.log[start..][..|c|];
    assert BatchAt(s.log, NameOf(c), c, start);
  }

  lemma FreezeConserves(s: State, after: State, n: Name, batch: seq<Entry>)
    requires Conserved(s) && n in after.spool && after.spool[n] == batch
    requires forall m :: m in s.spool ==> m in after.spool && after.spool[m] == s.spool[m]
    requires after == s.(spool := after.spool, queue := after.queue)
    requires Entries(s.boot, s.queue) == batch + Entries(s.boot, after.queue)
             || after.queue == s.queue
    ensures Conserved(after)
  {
    forall e | e in s.log ensures Somewhere(after, e) {
      assert Somewhere(s, e);
      if InSpool(s.spool, e) {
        var m :| m in s.spool && e in s.spool[m];
        assert m in after.spool && e in after.spool[m];
      } else if e in batch {
        assert e in after.spool[n];
      }
    }
  }

  lemma FreezeInv(s: State, requested: nat, rename: Outcome)
    requires Inv(s) && Enabled(s, Freeze(requested, rename))
    ensures Inv(Next(s, Freeze(requested, rename)))
  {
    hide Ordered, IsBatch, ServerInv, AcksInv, AckedInv, Conserved, RevisionPrefix;
    var after := Next(s, Freeze(requested, rename));
    var batch := Frozen(s, requested);
    var name := NameOf(batch);
    FrozenIsBatch(s, requested);
    FrozenIsPrefix(s, requested);
    if name in s.spool {
      NameDeterminesContent(s.log, name, batch, s.spool[name]);
    }
    var ram := Entries(s.boot, s.queue);
    assert ram == ram[..|batch|] + ram[|batch|..];
    if after != s {
      FreezeConserves(s, after, name, batch);
      CommitKeepsLog(s, |batch|);
    }
  }

  lemma CommitKeepsLog(s: State, n: nat)
    requires LogInv(s.log, s.boot, s.nextSequence, s.queue) && n <= |s.queue|
    ensures LogInv(s.log, s.boot, s.nextSequence, s.queue[n..])
  {
    assert s.log[|s.log| - (|s.queue| - n)..] == s.log[|s.log| - |s.queue|..][n..];
    assert Entries(s.boot, s.queue[n..]) == Entries(s.boot, s.queue)[n..];
  }

  // ------------------------------------------------- removing, dead letters

  /** An acknowledgement that licenses a removal covers the file's own records. */
  lemma LicenceIsBacked(s: State, name: Name, ack: Ack)
    requires Ordered(s.log) && SpoolInv(s.log, s.spool) && AcksInv(s.log, s.server, s.acks)
    requires name in s.spool && ack in s.acks && Licenses(ack, name)
    ensures HoldsAll(s.server, s.spool[name])
    ensures forall e :: e in s.spool[name] ==> e in s.log
  {
    hide Ordered, IsBatch;
    var c :| c != [] && IsBatch(s.log, ack.batch, c) && ack == AckOf(c) && HoldsAll(s.server, c);
    NameDeterminesContent(s.log, name, c, s.spool[name]);
    forall e | e in c ensures e in s.log {
      BatchInLog(s.log, name, c, e);
    }
  }

  lemma RemoveConserves(s: State, name: Name, removed: bool)
    requires Conserved(s) && name in s.spool
    ensures var marked := s.(acked := s.acked + All(s.spool[name]));
            Conserved(if removed then marked.(spool := s.spool - {name}) else marked)
  {
    var marked := s.(acked := s.acked + All(s.spool[name]));
    var after := if removed then marked.(spool := s.spool - {name}) else marked;
    forall e | e in s.log ensures Somewhere(after, e) {
      assert Somewhere(s, e);
      if InSpool(s.spool, e) {
        var m :| m in s.spool && e in s.spool[m];
        assert m != name ==> m in after.spool;
      }
    }
  }

  lemma RemoveInv(s: State, name: Name, ack: Ack, removed: bool)
    ensures Inv(s) && Enabled(s, Remove(name, ack, removed)) ==> Inv(Next(s, Remove(name, ack, removed)))
  {
    hide Ordered, IsBatch, ServerInv, AcksInv, Conserved;
    if Inv(s) && Enabled(s, Remove(name, ack, removed)) {
      LicenceIsBacked(s, name, ack);
      RemoveConserves(s, name, removed);
    }
  }

  /** A dead letter of the same name makes room for the same content. */
  lemma DeadLetterKeeps(s: State, name: Name, code: int)
    requires Ordered(s.log) && SpoolInv(s.log, s.spool) && DeadInv(s.log, s.dead) && name in s.spool
    ensures DeadName(code, name) in s.dead ==> s.dead[DeadName(code, name)] == s.spool[name]
  {
    if DeadName(code, name) in s.dead {
      NameDeterminesContent(s.log, name, s.dead[DeadName(code, name)], s.spool[name]);
    }
  }

  lemma DeadLetterConserves(s: State, name: Name, code: int)
    requires Conserved(s) && name in s.spool
    requires DeadName(code, name) in s.dead ==> s.dead[DeadName(code, name)] == s.spool[name]
    ensures Conserved(s.(spool := s.spool - {name}, dead := s.dead[DeadName(code, name) := s.spool[name]]))
  {
    var after := s.(spool := s.spool - {name}, dead := s.dead[DeadName(code, name) := s.spool[name]]);
    forall e | e in s.log ensures Somewhere(after, e) {
      assert Somewhere(s, e);
      if InDead(s.dead, e) {
        var d :| d in s.dead && e in s.dead[d];
        assert e in after.dead[d];
      } else if InSpool(s.spool, e) {
        var m :| m in s.spool && e in s.spool[m];
        if m == name {
          assert e in after.dead[DeadName(code, name)];
        } else {
          assert m in after.spool && e in after.spool[m];
        }
      }
    }
  }

  lemma DeadLetterInv(s: State, name: Name, code: int)
    requires Inv(s) && name in s.spool
    ensures Inv(Next(s, DeadLetter(name, code)))
  {
    hide Ordered, IsBatch, ServerInv, AcksInv, AckedInv, Conserved;
    DeadLetterKeeps(s, name, code);
    DeadLetterConserves(s, name, code);
  }

  lemma EvictConserves(s: State, oldest: DeadName)
    requires Conserved(s) && oldest in s.dead
    ensures Conserved(s.(dead := s.dead - {oldest}, evicted := s.evicted + All(s.dead[oldest])))
  {
    var after := s.(dead := s.dead - {oldest}, evicted := s.evicted + All(s.dead[oldest]));
    forall e | e in s.log ensures Somewhere(after, e) {
      assert Somewhere(s, e);
      if InDead(s.dead, e) {
        var d :| d in s.dead && e in s.dead[d];
        assert d != oldest ==> d in after.dead && e in after.dead[d];
      }
    }
  }

  lemma PowerLossInv(s: State)
    requires Inv(s)
    ensures Inv(Next(s, PowerLoss))
  {
    hide IsBatch, ServerInv, AcksInv, AckedInv, SpoolInv;
    var after := Next(s, PowerLoss);
    assert LogInv(after.log, after.boot, 0, []) by {
      assert s.log[|s.log|..] == [];
    }
    forall e | e in s.log ensures Somewhere(after, e) {
      assert Somewhere(s, e);
    }
  }

  lemma StepInv(s: State, step: Step)
    requires Inv(s)
    ensures Inv(Next(s, step))
  {
    hide LogInv, IsBatch, ServerInv, AcksInv, AckedInv, Conserved;
    if Enabled(s, step) {
      match step
      case Push(_, _, _, _, _) => PushInv(s, step);
      case Freeze(requested, rename) => FreezeInv(s, requested, rename);
      case Post(name) => PostInv(s, name);
      case Remove(name, ack, removed) => RemoveInv(s, name, ack, removed);
      case DeadLetter(name, code) => DeadLetterInv(s, name, code);
      case Evict(oldest) => EvictConserves(s, oldest);
      case PowerLoss => PowerLossInv(s);
    }
  }

  lemma {:induction false} RunKeepsInvariant(steps: seq<Step>)
    ensures Inv(Run(InitialState(), steps))
  {
    if steps != [] {
      RunKeepsInvariant(steps[..|steps| - 1]);
      StepInv(Run(InitialState(), steps[..|steps| - 1]), steps[|steps| - 1]);
    }
  }

  // --------------------------------------------------------------- theorems

  /** Conservation: whatever the queue stored is in RAM, in a spool file, dead
    * lettered (later possibly evicted), acknowledged, or was in RAM when power
    * went away. */
  lemma NothingVanishes(steps: seq<Step>, e: Entry)
    requires e in Run(InitialState(), steps).log
    ensures Somewhere(Run(InitialState(), steps), e)
  {
    RunKeepsInvariant(steps);
  }

  /** The server never has a reason to reject a batch of this device. */
  lemma NoBatchConflicts(steps: seq<Step>, n: Name)
    requires n in Run(InitialState(), steps).spool
    ensures var s := Run(InitialState(), steps);
            && s.spool[n] != [] && !Conflicts(s.server, s.spool[n])
            && AckOf(s.spool[n]) in Next(s, Post(n)).acks
  {
    RunKeepsInvariant(steps);
    var s := Run(InitialState(), steps);
    BatchIsNotEmpty(s.log, n, s.spool[n]);
    BatchAgrees(s.log, s.server, n, s.spool[n]);
    hide Run, Inv, Conflicts;
  }

  /** Acknowledged means stored, unaltered; and the server holds nothing else. */
  lemma AcknowledgedIsStored(steps: seq<Step>)
    ensures var s := Run(InitialState(), steps);
            && (forall e :: e in s.acked ==> e in s.log && Holds(s.server, e))
            && (forall k :: k in s.server ==> exists e :: e in s.log && KeyOf(e) == k && Holds(s.server, e))
  {
    RunKeepsInvariant(steps);
  }

  /** A file leaves the spool in two ways only: to the dead letters, or behind an
    * acknowledgement of its batch, count and last sequence, with every record of
    * it on the server. A file that stays is never rewritten. */
  lemma FilesLeaveOnlyAcknowledged(steps: seq<Step>, step: Step, n: Name)
    requires n in Run(InitialState(), steps).spool
    ensures var s := Run(InitialState(), steps);
            var after := Next(s, step);
            if n in after.spool then after.spool[n] == s.spool[n]
            else
              || (step.DeadLetter? && step.name == n
                  && after.dead == s.dead[DeadName(step.code, n) := s.spool[n]])
              || (step.Remove? && step.name == n && step.ack in s.acks
                  && Licenses(step.ack, n) && HoldsAll(s.server, s.spool[n]))
  {
    hide Inv, HoldsAll, Licenses, Ingest, Conflicts, FreezeQueue, QueueTakes;
    RunKeepsInvariant(steps);
    var s := Run(InitialState(), steps);
    if Enabled(s, step) {
      match step
      case Remove(name, ack, _) => RemovalIsBacked(s, name, ack);
      case Freeze(requested, rename) => FreezeKeepsFiles(s, requested, rename, n);
      case _ =>
    }
  }

  lemma RemovalIsBacked(s: State, name: Name, ack: Ack)
    requires Inv(s) && name in s.spool && ack in s.acks && Licenses(ack, name)
    ensures HoldsAll(s.server, s.spool[name])
  {
    hide Ordered, IsBatch, ServerInv, AckedInv, Conserved, HoldsAll;
    LicenceIsBacked(s, name, ack);
  }

  lemma FreezeKeepsFiles(s: State, requested: nat, rename: Outcome, n: Name)
    requires s.queue != [] && requested >= 1 && n in s.spool
    ensures var after := FreezeQueue(s, requested, rename);
            n in after.spool && after.spool[n] == s.spool[n]
  {
    hide RevisionPrefix, NameOf, Entries;
  }

  /** Every file holds one boot's consecutive records under one revision, and its
    * name says which. */
  lemma BatchesAreUniform(steps: seq<Step>, n: Name)
    requires n in Run(InitialState(), steps).spool
    ensures var c := Run(InitialState(), steps).spool[n];
            && 1 <= |c| <= MAXIMUM_BATCH && NameOf(c) == n
            && forall i, j :: 0 <= i < |c| && 0 <= j < |c| ==>
                 c[i].boot == c[j].boot
                 && c[i].record.appliedConfigRevision == c[j].record.appliedConfigRevision
  {
    RunKeepsInvariant(steps);
    var s := Run(InitialState(), steps);
    var i: nat :| BatchAt(s.log, n, s.spool[n], i);
  }

  /** Losing power drops the RAM queue and nothing else. */
  lemma PowerLossDropsOnlyRam(s: State, e: Entry)
    requires Inv(s) && e in s.log
    ensures Somewhere(Next(s, PowerLoss), e)
    ensures e in Next(s, PowerLoss).lost <==> e in s.lost || e in Entries(s.boot, s.queue)
  {
    PowerLossInv(s);
  }
}
