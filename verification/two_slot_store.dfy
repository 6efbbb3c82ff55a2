/** Two NVS slots and a one-byte marker as one atomic register
  * (src/device_config_storage.cpp, src/command_journal.cpp). A save may be cut
  * off anywhere; a torn slot write leaves a blob the decoder refuses; the marker
  * byte is written whole or not at all; reads are faithful.
  */
module TwoSlotStore {
  import opened Bytes
  import opened DurableRecords

  /** What differs between the two stores: the record format, which of two
    * readable records wins without a marker, and whether an equal record is
    * written again. */
  datatype Policy<!T> = Policy(
    encode: T -> Option<bytes>, decode: bytes -> Option<T>, fresher: (T, T) -> bool, skipEqual: bool)

  ghost predicate RoundTrips<T(!new)>(p: Policy<T>) {
    forall x: T :: p.encode(x).Some? ==>
      && p.encode(x).value != []
      && p.decode(p.encode(x).value) == Some(x)
  }

  /** An absent key reads as an empty blob. */
  datatype Store = Store(a: bytes, b: bytes, marker: byte) {
    function At(slot: nat): bytes {
      if slot == 0 then a else b
    }

    function With(slot: nat, blob: bytes): Store {
      if slot == 0 then this.(a := blob) else this.(b := blob)
    }
  }

  const NO_MARKER: byte := 0xff

  function Read<T>(p: Policy<T>, s: Store, slot: nat): Option<T> {
    if s.At(slot) == [] then None else p.decode(s.At(slot))
  }

  /** selectReadableSlot() and selectSlot(). */
  function Selected<T>(p: Policy<T>, s: Store): (r: Option<nat>)
    ensures r.Some? ==> r.value <= 1 && Read(p, s, r.value).Some?
    ensures r.None? <==> Read(p, s, 0).None? && Read(p, s, 1).None?
  {
    var first, second := Read(p, s, 0), Read(p, s, 1);
    if s.marker <= 1 && Read(p, s, s.marker).Some? then Some(s.marker)
    else if s.marker <= 1 then
      if Read(p, s, 1 - s.marker).Some? then Some(1 - s.marker) else None
    else if first.None? then
      if second.Some? then Some(1) else None
    else if second.None? then Some(0)
    else if p.fresher(second.value, first.value) then Some(1) else Some(0)
  }

  datatype Loaded<+T> = LoadOk(value: T) | NotStored | InvalidStoredData

  function Load<T>(p: Policy<T>, s: Store): Loaded<T> {
    var selected := Selected(p, s);
    if selected.Some? then LoadOk(Read(p, s, selected.value).value)
    else if s.a != [] || s.b != [] then InvalidStoredData
    else NotStored
  }

  /** How far one save came. `torn` is what a cut-off slot write leaves behind. */
  datatype Fault =
    | NoFault
    | SlotWriteLost(reported: bool)
    | SlotWriteTorn(torn: bytes, reported: bool)
    | CutBeforeMarker
    | MarkerLost(reported: bool)
    | MarkerWrittenButFailed(reported: bool)

  predicate Admissible<T>(p: Policy<T>, f: Fault) {
    f.SlotWriteTorn? ==> f.torn != [] && p.decode(f.torn).None?
  }

  /** `Interrupted` is a save that never returned. */
  datatype SaveResult = SaveOk | Unchanged | RefusedRecord | WriteFailed | VerifyFailed | Interrupted

  function Target<T>(p: Policy<T>, s: Store): nat {
    if Selected(p, s) == Some(0) then 1 else 0
  }

  function AfterSlotWrite<T>(p: Policy<T>, s: Store, blob: bytes, f: Fault): Store {
    match f
    case SlotWriteLost(_) => s
    case SlotWriteTorn(torn, _) => s.With(Target(p, s), torn)
    case _ => s.With(Target(p, s), blob)
  }

  function Save<T(==)>(p: Policy<T>, s: Store, x: T, f: Fault): (Store, SaveResult) {
    var blob := p.encode(x);
    var selected := Selected(p, s);
    if blob.None? then (s, RefusedRecord)
    else if p.skipEqual && selected.Some? && Read(p, s, selected.value) == Some(x) then (s, Unchanged)
    else
      var target := Target(p, s);
      var written := AfterSlotWrite(p, s, blob.value, f);
      if (f.SlotWriteLost? || f.SlotWriteTorn?) && f.reported then (written, WriteFailed)
      else if f.CutBeforeMarker? then (written, Interrupted)
      else if Read(p, written, target) != Some(x) then (written, VerifyFailed)
      else
        var marked := if f.MarkerLost? then written else written.(marker := target);
        if f.MarkerLost? || f.MarkerWrittenButFailed? then
          (marked, if f.reported then WriteFailed else Interrupted)
        else (marked, SaveOk)
  }

  /** The register is atomic: a load after any save, cut off or failed anywhere,
    * gives the old or the new record, and the new one once the save said so.
    * This covers an unset or invalid marker and a fallback from a bad slot. */
  lemma SaveIsAtomic<T(!new)>(p: Policy<T>, s: Store, x: T, f: Fault)
    requires RoundTrips(p) && Admissible(p, f)
    ensures var (after, result) := Save(p, s, x, f);
            && (Value(p, after) == Value(p, s) || Value(p, after) == Some(x))
            && (result == SaveOk || result == Unchanged ==> Value(p, after) == Some(x))
            && (result == RefusedRecord || result == Unchanged ==> after == s)
            && (p.encode(x).Some? && f == NoFault ==> result == SaveOk || result == Unchanged)
  {
    if p.encode(x).Some? {
      var target := Target(p, s);
      assert p.encode(x).value != [] && p.decode(p.encode(x).value) == Some(x);
      var blob := if f.SlotWriteTorn? then f.torn else p.encode(x).value;
      var written := s.With(target, blob);
      assert Read(p, written, 1 - target) == Read(p, s, 1 - target);
    }
  }

  function Value<T>(p: Policy<T>, s: Store): Option<T> {
    var selected := Selected(p, s);
    if selected.None? then None else Read(p, s, selected.value)
  }

  /** A cut-off save never hurts the record it did not replace: the slot that
    * holds the current value is not written. */
  lemma SelectedSlotIsNeverWritten<T>(p: Policy<T>, s: Store, x: T, f: Fault)
    requires Selected(p, s).Some?
    ensures Save(p, s, x, f).0.At(Selected(p, s).value) == s.At(Selected(p, s).value)
  {
  }

  /** The load status, unlike the value, has one more outcome: a torn write into
    * an empty store turns "not stored" into "invalid". This is the only case. */
  lemma StatusIsAtomicExceptOnATornFirstSave<T(!new)>(p: Policy<T>, s: Store, x: T, f: Fault)
    requires RoundTrips(p) && Admissible(p, f)
    ensures var after := Save(p, s, x, f).0;
            Load(p, after) in {Load(p, s), LoadOk(x)} <==>
            !(s.a == [] && s.b == [] && f.SlotWriteTorn? && p.encode(x).Some?)
  {
    SaveIsAtomic(p, s, x, f);
    if p.encode(x).Some? {
      assert p.encode(x).value != [];
    }
  }

  // -------------------------------------------------------------- whole runs

  datatype Attempt<+T> = Attempt(value: T, fault: Fault)

  function RunSaves<T(==)>(p: Policy<T>, s: Store, attempts: seq<Attempt<T>>): Store {
    if attempts == [] then s
    else
      var init, last := attempts[..|attempts| - 1], attempts[|attempts| - 1];
      Save(p, RunSaves(p, s, init), last.value, last.fault).0
  }

  function ResultOf<T(==)>(p: Policy<T>, s: Store, attempts: seq<Attempt<T>>, i: nat): SaveResult
    requires i < |attempts|
  {
    Save(p, RunSaves(p, s, attempts[..i]), attempts[i].value, attempts[i].fault).1
  }

  predicate Succeeded(r: SaveResult) {
    r == SaveOk || r == Unchanged
  }

  /** A load returns the initial record or a saved one, never older than the
    * latest save that reported success. */
  ghost predicate Explained<T>(p: Policy<T>, s: Store, attempts: seq<Attempt<T>>, i: int) {
    && -1 <= i < |attempts|
    && Value(p, RunSaves(p, s, attempts)) == (if i == -1 then Value(p, s) else Some(attempts[i].value))
    && forall j :: i < j < |attempts| ==> !Succeeded(ResultOf(p, s, attempts, j))
  }

  lemma {:induction false} RunsAreLinearizable<T(!new)>(p: Policy<T>, s: Store, attempts: seq<Attempt<T>>)
    requires RoundTrips(p)
    requires forall k :: 0 <= k < |attempts| ==> Admissible(p, attempts[k].fault)
    ensures exists i :: Explained(p, s, attempts, i)
  {
    if attempts == [] {
      assert Explained(p, s, attempts, -1);
    } else {
      var init, last := attempts[..|attempts| - 1], attempts[|attempts| - 1];
      RunsAreLinearizable(p, s, init);
      var i :| Explained(p, s, init, i);
      var before := RunSaves(p, s, init);
      SaveIsAtomic(p, before, last.value, last.fault);
      hide Save, Value;
      if Value(p, RunSaves(p, s, attempts)) == Some(last.value) {
        assert Explained(p, s, attempts, |attempts| - 1);
      } else {
        assert attempts[..|attempts| - 1] == init;
        forall j | i < j < |attempts| ensures !Succeeded(ResultOf(p, s, attempts, j)) {
          if j < |init| {
            assert attempts[..j] == init[..j];
            assert ResultOf(p, s, attempts, j) == ResultOf(p, s, init, j);
          }
        }
        assert Explained(p, s, attempts, i);
      }
    }
  }

  // ------------------------------------------------------------ the two stores

  function OkOnly<T>(d: Decoded<T>): Option<T> {
    if d.Good? then Some(d.value) else None
  }

  function ConfigPolicy(): Policy<PresenceConfig> {
    Policy(EncodeConfig, blob => OkOnly(DecodeConfig(blob)),
           (x: PresenceConfig, y: PresenceConfig) => x.revision > y.revision, true)
  }

  function JournalPolicy(): Policy<JournalRecord> {
    Policy(EncodeJournalRecord, blob => OkOnly(DecodeJournalRecord(blob)),
           (x: JournalRecord, y: JournalRecord) => x.acceptedAtMs > y.acceptedAtMs, false)
  }

  lemma ConfigRoundTrips()
    ensures RoundTrips(ConfigPolicy())
  {
    forall x: PresenceConfig | EncodeConfig(x).Some?
      ensures EncodeConfig(x).value != [] && ConfigPolicy().decode(EncodeConfig(x).value) == Some(x)
    {
      ConfigRoundTrip(x);
    }
  }

  lemma JournalRoundTrips()
    ensures RoundTrips(JournalPolicy())
  {
    forall x: JournalRecord | EncodeJournalRecord(x).Some?
      ensures EncodeJournalRecord(x).value != []
              && JournalPolicy().decode(EncodeJournalRecord(x).value) == Some(x)
    {
      JournalRoundTrip(x);
    }
  }

  /** The Preferences namespace itself, written in place. */
  class Preferences {
    var store: Store

    constructor (s: Store)
      ensures store == s
    {
      store := s;
    }

    method PutBytes(slot: nat, blob: bytes, f: Fault) returns (ok: bool)
      modifies this
      ensures store == match f
                       case SlotWriteLost(_) => old(store)
                       case SlotWriteTorn(torn, _) => old(store).With(slot, torn)
                       case _ => old(store).With(slot, blob)
      ensures ok == !((f.SlotWriteLost? || f.SlotWriteTorn?) && f.reported)
    {
      ok := !((f.SlotWriteLost? || f.SlotWriteTorn?) && f.reported);
      if !f.SlotWriteLost? {
        store := store.With(slot, if f.SlotWriteTorn? then f.torn else blob);
      }
    }

    /** saveStoredDeviceConfig() and saveCommandJournalRecord(), with the cut
      * that `f` names. */
    method SaveRecord<T(==)>(p: Policy<T>, x: T, f: Fault) returns (r: SaveResult)
      modifies this
      ensures (store, r) == Save(p, old(store), x, f)
    {
      var blob := p.encode(x);
      if blob.None? {
        return RefusedRecord;
      }
      var selected := Selected(p, store);
      if p.skipEqual && selected.Some? && Read(p, store, selected.value) == Some(x) {
        return Unchanged;
      }
      var target := if selected == Some(0) then 1 else 0;
      var ok := PutBytes(target, blob.value, f);
      if !ok {
        return WriteFailed;
      }
      if f.CutBeforeMarker? {
        return Interrupted;
      }
      var verified := Read(p, store, target);
      if verified != Some(x) {
        return VerifyFailed;
      }
      if !f.MarkerLost? {
        store := store.(marker := target);
      }
      if f.MarkerLost? || f.MarkerWrittenButFailed? {
        return if f.reported then WriteFailed else Interrupted;
      }
      return SaveOk;
    }
  }
}
