/** The generation-numbered rotation of boot identities (src/crash_context.cpp):
  * every boot stores itself and reports who ran before, so that a core dump is
  * attributed to the right firmware, or to nobody.
  */
module CrashRotation {
  import opened Bytes
  import opened DurableRecords

  /** The two NVS slots; an absent key is an empty blob. */
  datatype Slots = Slots(a: bytes, b: bytes) {
    function At(i: nat): bytes {
      if i == 0 then a else b
    }

    function With(i: nat, blob: bytes): Slots {
      if i == 0 then this.(a := blob) else this.(b := blob)
    }
  }

  datatype Snapshot = Missing | Invalid | Valid(context: CrashContext)

  function ReadSlot(s: Slots, i: nat): (r: Snapshot)
    ensures r.Valid? ==> r.context.IsValid()
  {
    if s.At(i) == [] then Missing
    else match DecodeCrashContext(s.At(i))
         case Good(c) => Valid(c)
         case Bad(_) => Invalid
  }

  /** One slot write: nothing, a torn blob, or all of it; `ok` is what the write
    * call returns. */
  datatype Fate = Lost(ok: bool) | Torn(blob: bytes, ok: bool) | Written(ok: bool)

  predicate Admissible(f: Fate) {
    f.Torn? ==> f.blob != [] && DecodeCrashContext(f.blob).Bad?
  }

  datatype StorageResult =
    | StorageOk | InvalidCurrentContext | ReadFailed | WriteFailed | VerifyFailed | GenerationExhausted

  datatype PreviousStatus = Available | NotStored | InvalidStoredData | PreviousReadFailed

  datatype Report = Report(storage: StorageResult, previousStatus: PreviousStatus,
                           previous: Option<CrashContext>, persistedGeneration: nat)
  {
    predicate HasPrevious() {
      storage == StorageOk && previousStatus == Available
    }
  }

  function WriteSlot(s: Slots, i: nat, blob: bytes, f: Fate): Slots {
    match f
    case Lost(_) => s
    case Torn(torn, _) => s.With(i, torn)
    case Written(_) => s.With(i, blob)
  }

  function WriteAndVerify(s: Slots, i: nat, c: CrashContext, f: Fate): (Slots, StorageResult)
    requires c.IsValid()
  {
    var after := WriteSlot(s, i, EncodeCrashContext(c).value, f);
    (after, if !f.ok then WriteFailed
            else if ReadSlot(after, i) != Valid(c) then VerifyFailed else StorageOk)
  }

  predicate AmbiguousEqual(x: Snapshot, y: Snapshot) {
    x.Valid? && y.Valid? && x.context.generation == y.context.generation && x.context != y.context
  }

  function Newest(x: Snapshot, y: Snapshot): Option<nat> {
    if x.Valid? then
      if y.Valid? && y.context.generation > x.context.generation then Some(1) else Some(0)
    else if y.Valid? then Some(1) else None
  }

  function TargetSlot(x: Snapshot, y: Snapshot): (t: nat)
    ensures t <= 1
  {
    var newest := Newest(x, y);
    if x.Invalid? || AmbiguousEqual(x, y) then 0
    else if y.Invalid? then 1
    else if newest == Some(0) then 1 else 0
  }

  /** rotateCrashContextWithStorage(). `readable` is false when a slot read fails. */
  function Rotate(s: Slots, bootId: string, buildId: string, readable: bool, first: Fate, second: Fate)
    : (Slots, Report)
  {
    if !CrashContext(bootId, buildId, 1).IsValid() then
      (s, Report(InvalidCurrentContext, NotStored, None, 0))
    else if !readable then (s, Report(ReadFailed, PreviousReadFailed, None, 0))
    else
      var x, y := ReadSlot(s, 0), ReadSlot(s, 1);
      var ambiguous := AmbiguousEqual(x, y);
      var newest := Newest(x, y);
      var previous := if newest.None? then None
                      else Some((if newest.value == 0 then x else y).context);
      var status := if x.Invalid? || y.Invalid? || ambiguous then InvalidStoredData
                    else if newest.Some? then Available else NotStored;
      var highest := if previous.None? then 0 else previous.value.generation;
      if highest >= MAXIMUM_GENERATION then (s, Report(GenerationExhausted, status, None, 0))
      else
        var current := CrashContext(bootId, buildId, highest + 1);
        var target := TargetSlot(x, y);
        var (once, result) := WriteAndVerify(s, target, current, first);
        if result != StorageOk then (once, Report(result, status, None, 0))
        else
          var other := if target == 0 then y else x;
          var (twice, repaired) := if other.Invalid? || ambiguous
                                   then WriteAndVerify(once, 1 - target, current, second)
                                   else (once, StorageOk);
          if repaired != StorageOk then (twice, Report(repaired, status, None, 0))
          else (twice, Report(StorageOk, status, if status == Available then previous else None,
                              current.generation))
  }

  /** What a rotation would store. */
  function Current(s: Slots, bootId: string, buildId: string): CrashContext {
    var x, y := ReadSlot(s, 0), ReadSlot(s, 1);
    var newest := Newest(x, y);
    CrashContext(bootId, buildId,
                 if newest.None? then 1 else (if newest.value == 0 then x else y).context.generation + 1)
  }

  /** `latest` is the identity stored last: a slot holds it, and every other
    * readable slot is the same record or an older one. */
  predicate Tracks(s: Slots, latest: Option<CrashContext>) {
    var x, y := ReadSlot(s, 0), ReadSlot(s, 1);
    if latest.None? then !x.Valid? && !y.Valid?
    else
      && (x == Valid(latest.value) || y == Valid(latest.value))
      && (x.Valid? ==> x.context == latest.value || x.context.generation < latest.value.generation)
      && (y.Valid? ==> y.context == latest.value || y.context.generation < latest.value.generation)
  }

  /** A write of this boot's identity became durable. */
  predicate Landed(s: Slots, c: CrashContext) {
    ReadSlot(s, 0) == Valid(c) || ReadSlot(s, 1) == Valid(c)
  }

  function LatestAfter(s: Slots, latest: Option<CrashContext>, bootId: string, buildId: string,
                       after: Slots): Option<CrashContext>
  {
    var current := Current(s, bootId, buildId);
    if Landed(after, current) then Some(current) else latest
  }

  /** A write changes one slot: it keeps its content, is refused, or holds `c`. */
  lemma WriteEffect(s: Slots, i: nat, c: CrashContext, f: Fate)
    requires c.IsValid() && i <= 1 && Admissible(f)
    ensures var (after, result) := WriteAndVerify(s, i, c, f);
            && ReadSlot(after, 1 - i) == ReadSlot(s, 1 - i)
            && ReadSlot(after, i) in {ReadSlot(s, i), Invalid, Valid(c)}
            && (result == StorageOk ==> ReadSlot(after, i) == Valid(c))
            && (f == Written(true) ==> result == StorageOk)
  {
    CrashContextRoundTrip(c);
    hide DecodeCrashContext, EncodeCrashContext;
  }

  lemma CurrentIsValid(s: Slots, bootId: string, buildId: string, latest: Option<CrashContext>)
    requires Tracks(s, latest) && CrashContext(bootId, buildId, 1).IsValid()
    ensures Current(s, bootId, buildId).generation == (if latest.Some? then latest.value.generation + 1 else 1)
    ensures (latest.Some? && latest.value.generation >= MAXIMUM_GENERATION)
            || Current(s, bootId, buildId).IsValid()
    ensures !Landed(s, Current(s, bootId, buildId))
  {
  }

  /** One boot, cut off or failing anywhere: the slots still track the latest
    * identity that became durable, and whoever is reported is exactly that one. */
  lemma RotationNeverGuesses(s: Slots, latest: Option<CrashContext>, bootId: string, buildId: string,
                             readable: bool, first: Fate, second: Fate)
    requires Tracks(s, latest) && Admissible(first) && Admissible(second)
    ensures var (after, report) := Rotate(s, bootId, buildId, readable, first, second);
            && Tracks(after, LatestAfter(s, latest, bootId, buildId, after))
            && (report.HasPrevious() ==> latest.Some? && report.previous == latest)
            && (report.storage == StorageOk ==>
                  && Landed(after, Current(s, bootId, buildId))
                  && !ReadSlot(after, 0).Invalid? && !ReadSlot(after, 1).Invalid?
                  && (report.HasPrevious() <==>
                        latest.Some? && !ReadSlot(s, 0).Invalid? && !ReadSlot(s, 1).Invalid?))
  {
    hide ReadSlot, WriteAndVerify, BootId, Text;
    if readable && CrashContext(bootId, buildId, 1).IsValid() {
      CurrentIsValid(s, bootId, buildId, latest);
      var current := Current(s, bootId, buildId);
      if current.IsValid() {
        var target := TargetSlot(ReadSlot(s, 0), ReadSlot(s, 1));
        WriteEffect(s, target, current, first);
        WriteEffect(WriteAndVerify(s, target, current, first).0, 1 - target, current, second);
      }
    }
  }

  // -------------------------------------------------------------- whole runs

  datatype BootAttempt = BootAttempt(bootId: string, buildId: string, readable: bool, first: Fate, second: Fate)

  function Step(s: Slots, b: BootAttempt): (Slots, Report) {
    Rotate(s, b.bootId, b.buildId, b.readable, b.first, b.second)
  }

  function Run(s: Slots, boots: seq<BootAttempt>): Slots {
    if boots == [] then s
    else Step(Run(s, boots[..|boots| - 1]), boots[|boots| - 1]).0
  }

  /** The identity of the latest boot whose write became durable. */
  function LatestDurable(s: Slots, boots: seq<BootAttempt>): Option<CrashContext> {
    if boots == [] then None
    else
      var init, last := boots[..|boots| - 1], boots[|boots| - 1];
      LatestAfter(Run(s, init), LatestDurable(s, init), last.bootId, last.buildId, Run(s, boots))
  }

  lemma {:induction false} RunsTrackTheLatestBoot(s: Slots, boots: seq<BootAttempt>)
    requires Tracks(s, None)
    requires forall i :: 0 <= i < |boots| ==> Admissible(boots[i].first) && Admissible(boots[i].second)
    ensures Tracks(Run(s, boots), LatestDurable(s, boots))
  {
    if boots != [] {
      var init, last := boots[..|boots| - 1], boots[|boots| - 1];
      RunsTrackTheLatestBoot(s, init);
      RotationNeverGuesses(Run(s, init), LatestDurable(s, init), last.bootId, last.buildId,
                           last.readable, last.first, last.second);
      hide Tracks, Rotate, LatestAfter;
    }
  }

  /** Over any boots, torn writes included: a dump is attributed to the boot that
    * was durable last, and a boot that succeeded is the one the next reports. */
  lemma AttributionIsExact(s: Slots, boots: seq<BootAttempt>, b: BootAttempt, next: BootAttempt)
    requires Tracks(s, None)
    requires forall i :: 0 <= i < |boots| ==> Admissible(boots[i].first) && Admissible(boots[i].second)
    requires Admissible(b.first) && Admissible(b.second) && Admissible(next.first) && Admissible(next.second)
    ensures var before := Run(s, boots);
            var (after, report) := Step(before, b);
            && (report.HasPrevious() ==> report.previous == LatestDurable(s, boots)
                                         && LatestDurable(s, boots).Some?)
            && (report.storage == StorageOk && Step(after, next).1.storage == StorageOk ==>
                  Step(after, next).1.HasPrevious()
                  && Step(after, next).1.previous == Some(Current(before, b.bootId, b.buildId)))
  {
    RunsTrackTheLatestBoot(s, boots);
    var before, latest := Run(s, boots), LatestDurable(s, boots);
    var after := Step(before, b).0;
    RotationNeverGuesses(before, latest, b.bootId, b.buildId, b.readable, b.first, b.second);
    RotationNeverGuesses(after, LatestAfter(before, latest, b.bootId, b.buildId, after),
                         next.bootId, next.buildId, next.readable, next.first, next.second);
    hide Rotate, Tracks;
  }

  /** From every other content, corrupt or contradictory, one success repairs the
    * store: no slot is refused and both readable slots agree on the newest boot. */
  lemma SuccessRepairs(s: Slots, bootId: string, buildId: string, first: Fate, second: Fate)
    requires Admissible(first) && Admissible(second)
    ensures var (after, report) := Rotate(s, bootId, buildId, true, first, second);
            report.storage == StorageOk ==>
              && Tracks(after, Some(Current(s, bootId, buildId)))
              && !ReadSlot(after, 0).Invalid? && !ReadSlot(after, 1).Invalid?
  {
    hide ReadSlot, WriteAndVerify, BootId, Text;
    var (after, report) := Rotate(s, bootId, buildId, true, first, second);
    if report.storage == StorageOk {
      var current := Current(s, bootId, buildId);
      var target := TargetSlot(ReadSlot(s, 0), ReadSlot(s, 1));
      WriteEffect(s, target, current, first);
      WriteEffect(WriteAndVerify(s, target, current, first).0, 1 - target, current, second);
    }
  }

  /** The slots as the object that the rotation reads and overwrites. */
  class CrashContextStorage {
    var slots: Slots

    constructor (s: Slots)
      ensures slots == s
    {
      slots := s;
    }

    method WriteOne(i: nat, c: CrashContext, f: Fate) returns (r: StorageResult)
      requires c.IsValid()
      modifies this
      ensures (slots, r) == WriteAndVerify(old(slots), i, c, f)
    {
      if f.Torn? {
        slots := slots.With(i, f.blob);
      } else if f.Written? {
        slots := slots.With(i, EncodeCrashContext(c).value);
      }
      if !f.ok {
        return WriteFailed;
      }
      return if ReadSlot(slots, i) == Valid(c) then StorageOk else VerifyFailed;
    }

    method RotateInPlace(bootId: string, buildId: string, readable: bool, first: Fate, second: Fate)
      returns (report: Report)
      modifies this
      ensures (slots, report) == Rotate(old(slots), bootId, buildId, readable, first, second)
    {
      hide ReadSlot, EncodeCrashContext, DecodeCrashContext;
      if !CrashContext(bootId, buildId, 1).IsValid() {
        return Report(InvalidCurrentContext, NotStored, None, 0);
      }
      if !readable {
        return Report(ReadFailed, PreviousReadFailed, None, 0);
      }
      var snapshots := [ReadSlot(slots, 0), ReadSlot(slots, 1)];
      var ambiguous := AmbiguousEqual(snapshots[0], snapshots[1]);
      var invalidStored := snapshots[0].Invalid? || snapshots[1].Invalid? || ambiguous;
      var highest: nat := 0;
      var newest := -1;
      for slot := 0 to 2
        invariant -1 <= newest < slot
        invariant newest == -1 ==> highest == 0 && forall k :: 0 <= k < slot ==> !snapshots[k].Valid?
        invariant newest >= 0 ==> snapshots[newest].Valid? && snapshots[newest].context.generation == highest
        invariant slot == 1 ==> (newest == 0 <==> snapshots[0].Valid?)
        invariant slot == 2 ==> Newest(snapshots[0], snapshots[1]) == if newest == -1 then None else Some(newest)
      {
        if snapshots[slot].Valid? && (newest < 0 || snapshots[slot].context.generation > highest) {
          newest, highest := slot, snapshots[slot].context.generation;
        }
      }
      var status := if invalidStored then InvalidStoredData else if newest >= 0 then Available else NotStored;
      var previous := if status == Available then Some(snapshots[newest].context) else None;
      if highest >= MAXIMUM_GENERATION {
        return Report(GenerationExhausted, status, None, 0);
      }
      var current := CrashContext(bootId, buildId, highest + 1);
      var target := 0;
      if invalidStored {
        if snapshots[0].Invalid? || ambiguous {
          target := 0;
        } else if snapshots[1].Invalid? {
          target := 1;
        }
      } else if newest == 0 {
        target := 1;
      }
      var result := WriteOne(target, current, first);
      if result != StorageOk {
        return Report(result, status, None, 0);
      }
      if snapshots[1 - target].Invalid? || ambiguous {
        result := WriteOne(1 - target, current, second);
        if result != StorageOk {
          return Report(result, status, None, 0);
        }
      }
      return Report(StorageOk, status, previous, current.generation);
    }
  }
}
