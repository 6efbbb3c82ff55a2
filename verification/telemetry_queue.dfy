/** The ring buffer between the hardware loop and the uploader (src/telemetry.cpp). */
module TelemetryQueues {
  import opened Bytes

  datatype Kind = Sample | Transition

  /** The measured values ride along as `payload`. */
  datatype Record = Record(kind: Kind, sequence: nat, uptimeMs: nat, appliedConfigRevision: nat, payload: bytes)

  const CAPACITY := 120
  const RESERVED_TRANSITION_SLOTS := 8
  const SAMPLE_LIMIT := CAPACITY - RESERVED_TRANSITION_SLOTS

  datatype PushResult = Stored | SampleDropped | CriticalDropped

  function Samples(s: seq<Record>): (n: nat)
    ensures n <= |s|
  {
    if s == [] then 0
    else Samples(s[..|s| - 1]) + (if s[|s| - 1].kind == Sample then 1 else 0)
  }

  lemma {:induction false} SamplesConcat(a: seq<Record>, b: seq<Record>)
    ensures Samples(a + b) == Samples(a) + Samples(b)
  {
    if b == [] {
      assert a + b == a;
    } else {
      SamplesConcat(a, b[..|b| - 1]);
      assert (a + b)[..|a + b| - 1] == a + b[..|b| - 1];
    }
  }

  lemma DropKeepsSamples(s: seq<Record>, n: nat)
    requires n <= |s|
    ensures Samples(s[n..]) <= Samples(s)
  {
    SamplesConcat(s[..n], s[n..]);
    assert s == s[..n] + s[n..];
  }

  lemma {:induction false} AllSamples(s: seq<Record>)
    requires forall i :: 0 <= i < |s| ==> s[i].kind == Sample
    ensures Samples(s) == |s|
  {
    if s != [] {
      AllSamples(s[..|s| - 1]);
    }
  }

  lemma TransitionIsNoSample(s: seq<Record>, i: nat)
    requires i < |s| && s[i].kind == Transition
    ensures Samples(s) < |s|
  {
    var upTo := s[..i + 1];
    assert upTo[..i] == s[..i];
    SamplesConcat(upTo, s[i + 1..]);
    assert s == upTo + s[i + 1..];
  }

  lemma OneMore(s: seq<Record>, r: Record)
    ensures Samples(s + [r]) == Samples(s) + (if r.kind == Sample then 1 else 0)
  {
    assert (s + [r])[..|s|] == s;
  }

  /** What commitPrefix() compares. */
  predicate SameIdentity(x: Record, y: Record) {
    x.kind == y.kind && x.sequence == y.sequence && x.uptimeMs == y.uptimeMs
    && x.appliedConfigRevision == y.appliedConfigRevision
  }

  /** Array index of the i-th queued record. */
  function Slot(head: nat, i: nat): (k: nat)
    requires head < CAPACITY && i <= CAPACITY
    ensures k < CAPACITY && k == (head + i) % CAPACITY
  {
    if head + i < CAPACITY then head + i else head + i - CAPACITY
  }

  ghost function RingContents(a: seq<Record>, head: nat, size: nat): (s: seq<Record>)
    requires |a| == CAPACITY && head < CAPACITY && size <= CAPACITY
    ensures |s| == size && forall i :: 0 <= i < size ==> s[i] == a[Slot(head, i)]
  {
    seq(size, i requires 0 <= i < size => a[Slot(head, i)])
  }

  lemma RingAppend(a: seq<Record>, head: nat, size: nat, r: Record)
    requires |a| == CAPACITY && head < CAPACITY && size < CAPACITY
    ensures RingContents(a[Slot(head, size) := r], head, size + 1) == RingContents(a, head, size) + [r]
  {
  }

  lemma RingDrop(a: seq<Record>, head: nat, size: nat, n: nat)
    requires |a| == CAPACITY && head < CAPACITY && n <= size <= CAPACITY
    ensures RingContents(a, Slot(head, n), size - n) == RingContents(a, head, size)[n..]
  {
    forall i | 0 <= i < size - n ensures Slot(Slot(head, n), i) == Slot(head, n + i) {
    }
  }

  class TelemetryQueue {
    const records: array<Record>
    var head: nat
    var size: nat
    var droppedSamples: nat
    var droppedCritical: nat
    var criticalOnly: bool

    ghost predicate Ring()
      reads this, records
    {
      records.Length == CAPACITY && head < CAPACITY && size <= CAPACITY
    }

    ghost predicate Valid()
      reads this, records
    {
      && Ring() && Samples(Contents()) <= SAMPLE_LIMIT
      && droppedSamples < U32_LIMIT && droppedCritical < U32_LIMIT
    }

    ghost function Contents(): (s: seq<Record>)
      reads this, records
      requires Ring()
      ensures |s| == size
    {
      RingContents(records[..], head, size)
    }

    constructor (blank: Record)
      ensures Valid() && Contents() == [] && droppedSamples == droppedCritical == 0 && !criticalOnly
      ensures fresh(records)
    {
      records := new Record[CAPACITY](_ => blank);
      head, size, droppedSamples, droppedCritical, criticalOnly := 0, 0, 0, 0, false;
    }

    method CurrentSize() returns (n: nat)
      requires Valid()
      ensures n == |Contents()|
    {
      return size;
    }

    method Push(record: Record) returns (r: PushResult)
      requires Valid()
      modifies this`size, this`droppedSamples, this`droppedCritical, records
      ensures Valid()
      ensures Contents() == if r == Stored then old(Contents()) + [record] else old(Contents())
      ensures r == SampleDropped <==>
              record.kind == Sample && (criticalOnly || |old(Contents())| >= SAMPLE_LIMIT)
      ensures r == CriticalDropped <==> record.kind == Transition && |old(Contents())| == CAPACITY
      // A transition is refused only behind at least eight queued transitions.
      ensures r == CriticalDropped ==>
                |old(Contents())| - Samples(old(Contents())) >= RESERVED_TRANSITION_SLOTS
      ensures droppedSamples == (old(droppedSamples) + if r == SampleDropped then 1 else 0) % U32_LIMIT
      ensures droppedCritical == (old(droppedCritical) + if r == CriticalDropped then 1 else 0) % U32_LIMIT
    {
      hide RingContents, Slot, Samples;
      var isSample := record.kind == Sample;
      if isSample && (criticalOnly || size >= SAMPLE_LIMIT) {
        droppedSamples := (droppedSamples + 1) % U32_LIMIT;
        return SampleDropped;
      }
      if size >= CAPACITY {
        droppedCritical := (droppedCritical + 1) % U32_LIMIT;
        return CriticalDropped;
      }
      ghost var before := records[..];
      OneMore(Contents(), record);
      RingAppend(before, head, size, record);
      records[Slot(head, size)] := record;
      assert records[..] == before[Slot(head, size) := record];
      size := size + 1;
      return Stored;
    }

    method CopyPrefix(output: array<Record>, outputCapacity: nat) returns (n: nat)
      requires Valid() && outputCapacity <= output.Length && output != records
      modifies output
      ensures n == (if size < outputCapacity then size else outputCapacity)
      ensures output[..n] == Contents()[..n] && output[n..] == old(output[n..])
      ensures Valid() && Contents() == old(Contents())
    {
      n := if size < outputCapacity then size else outputCapacity;
      for index := 0 to n
        invariant Ring() && Contents() == old(Contents())
        invariant output[..index] == Contents()[..index]
        invariant forall k :: index <= k < output.Length ==> output[k] == old(output[k])
      {
        output[index] := records[Slot(head, index)];
      }
    }

    /** The comparing loop of commitPrefix(). */
    method MatchesPrefix(expected: seq<Record>) returns (ok: bool)
      requires Valid() && |expected| <= size
      ensures ok <==> forall i :: 0 <= i < |expected| ==> SameIdentity(Contents()[i], expected[i])
    {
      for index := 0 to |expected|
        invariant forall i :: 0 <= i < index ==> SameIdentity(Contents()[i], expected[i])
      {
        var queued := records[Slot(head, index)];
        assert queued == Contents()[index];
        if !SameIdentity(queued, expected[index]) {
          return false;
        }
      }
      return true;
    }

    method CommitPrefix(expected: seq<Record>) returns (ok: bool)
      requires Valid()
      modifies this`head, this`size
      ensures Valid()
      ensures ok <==> && expected != [] && |expected| <= |old(Contents())|
                      && forall i :: 0 <= i < |expected| ==> SameIdentity(old(Contents())[i], expected[i])
      ensures Contents() == if ok then old(Contents())[|expected|..] else old(Contents())
    {
      hide RingContents, Slot, Samples, SameIdentity;
      if expected == [] || |expected| > size {
        return false;
      }
      ok := MatchesPrefix(expected);
      if ok {
        DropKeepsSamples(Contents(), |expected|);
        RingDrop(records[..], head, size, |expected|);
        head, size := Slot(head, |expected|), size - |expected|;
      }
    }

    method HasCritical() returns (found: bool)
      requires Valid()
      ensures found <==> exists i :: 0 <= i < size && Contents()[i].kind == Transition
      ensures found <==> Samples(Contents()) < |Contents()|
    {
      hide RingContents, Slot, Samples;
      ghost var all := Contents();
      for index := 0 to size
        invariant forall i :: 0 <= i < index ==> all[i].kind == Sample
      {
        assert records[Slot(head, index)] == all[index];
        if records[Slot(head, index)].kind != Sample {
          TransitionIsNoSample(all, index);
          return true;
        }
      }
      AllSamples(all);
      return false;
    }
  }

  /** contiguousRevisionPrefix(): the longest prefix with one revision. */
  method ContiguousRevisionPrefix(records: seq<Record>) returns (n: nat)
    ensures n == RevisionPrefix(records)
  {
    if records == [] {
      return 0;
    }
    n := 1;
    while n < |records| && records[n].appliedConfigRevision == records[0].appliedConfigRevision
      invariant 1 <= n <= |records|
      invariant forall i :: 0 <= i < n ==> records[i].appliedConfigRevision == records[0].appliedConfigRevision
    {
      n := n + 1;
    }
    LongestPrefix(records, n);
  }

  function RevisionPrefix(records: seq<Record>): (n: nat)
    ensures n <= |records| && (records != [] ==> n > 0)
  {
    if records == [] then 0
    else if |records| == 1 || records[1].appliedConfigRevision != records[0].appliedConfigRevision then 1
    else 1 + RevisionPrefix(records[1..])
  }

  ghost predicate OneRevision(records: seq<Record>) {
    forall i, j :: 0 <= i < |records| && 0 <= j < |records| ==>
      records[i].appliedConfigRevision == records[j].appliedConfigRevision
  }

  /** It is a prefix of one revision, and no longer prefix is. */
  lemma {:induction false} LongestPrefix(records: seq<Record>, n: nat)
    requires 0 < n <= |records|
    ensures RevisionPrefix(records) == n <==>
            && OneRevision(records[..n])
            && (n < |records| ==> !OneRevision(records[..n + 1]))
  {
    var rest := records[1..];
    if |records| == 1 || records[1].appliedConfigRevision != records[0].appliedConfigRevision {
      if n > 1 {
        assert !OneRevision(records[..n]);
      }
    } else if n == 1 {
      assert OneRevision(records[..2]);
    } else {
      LongestPrefix(rest, n - 1);
      assert records[..n] == [records[0]] + rest[..n - 1];
      assert rest[..n - 1] == records[..n][1..];
      if n < |records| {
        assert records[..n + 1] == [records[0]] + rest[..n];
        assert rest[..n] == records[..n + 1][1..];
        assert rest[0].appliedConfigRevision == records[0].appliedConfigRevision;
        if OneRevision(rest[..n]) { assert OneRevision(records[..n + 1]); }
        if OneRevision(records[..n + 1]) { assert OneRevision(rest[..n]); }
      }
      if OneRevision(rest[..n - 1]) { assert OneRevision(records[..n]); }
      if OneRevision(records[..n]) { assert OneRevision(rest[..n - 1]); }
    }
  }
}
