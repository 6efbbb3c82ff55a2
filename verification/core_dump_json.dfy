/** The pull-based generator of the core dump report (src/core_dump_json.cpp):
  * prefix, padded Base64 of the dump, suffix, in whatever portions it is read.
  */
module CoreDumpJson {
  import opened Bytes
  import opened Base64

  const PREFIX_CAPACITY := 544
  const RAW_BUFFER_SIZE := 192
  const BASE64_BUFFER_SIZE := 256

  function Suffix(): (s: bytes)
    ensures |s| == 2
  {
    [0x22, 0x7d]
  }

  /** The whole request body. */
  function Body(prefix: bytes, dump: bytes): bytes {
    prefix + EncodePadded(dump) + Suffix()
  }

  function EncodedSize(n: nat): nat {
    (n + 2) / 3 * 4
  }

  /** A pending dump: its metadata, already printed, and its bytes in flash, some
    * of which may not be readable. */
  class PendingCoreDump {
    const prefix: bytes
    const dump: bytes
    const unreadable: set<nat>

    constructor (prefix: bytes, dump: bytes, unreadable: set<nat>)
      ensures this.prefix == prefix && this.dump == dump && this.unreadable == unreadable
    {
      this.prefix, this.dump, this.unreadable := prefix, dump, unreadable;
    }

    method ReadChunk(offset: nat, size: nat) returns (raw: Option<bytes>)
      requires offset + size <= |dump|
      ensures raw == if offset in unreadable then None else Some(dump[offset..offset + size])
    {
      return if offset in unreadable then None else Some(dump[offset..offset + size]);
    }
  }

  class CoreDumpJsonReader {
    const pending: PendingCoreDump
    const base64: array<byte>
    var prefixOffset: nat
    var base64Size: nat
    var base64Offset: nat
    var dumpOffset: nat
    var suffixOffset: nat
    var contentLength: nat
    var bytesRead: nat
    var started: bool
    var failed: bool

    /** What has not been handed out yet. */
    ghost function Remaining(): bytes
      reads this, base64
      requires Offsets()
    {
      pending.prefix[prefixOffset..] + base64[base64Offset..base64Size] +
      EncodePadded(pending.dump[dumpOffset..]) + Suffix()[suffixOffset..]
    }

    ghost predicate Offsets()
      reads this
    {
      && base64.Length == BASE64_BUFFER_SIZE
      && prefixOffset <= |pending.prefix| && base64Offset <= base64Size <= BASE64_BUFFER_SIZE
      && dumpOffset <= |pending.dump| && suffixOffset <= 2
    }

    ghost predicate Valid()
      reads this, base64
    {
      && Offsets()
      && (started ==>
            && contentLength == |Body(pending.prefix, pending.dump)|
            && bytesRead <= contentLength && |Remaining()| == contentLength - bytesRead
            && Body(pending.prefix, pending.dump)[bytesRead..] == Remaining()
            && (dumpOffset % 3 == 0 || dumpOffset == |pending.dump|)
            && (prefixOffset < |pending.prefix| ==> base64Offset == base64Size && dumpOffset == 0 && suffixOffset == 0)
            && (suffixOffset > 0 ==> base64Offset == base64Size && dumpOffset == |pending.dump|))
    }

    /** begin() */
    constructor (pending: PendingCoreDump)
      ensures Valid() && this.pending == pending && !failed && fresh(base64)
      ensures started == (|pending.prefix| < PREFIX_CAPACITY)
      ensures started ==> contentLength == |pending.prefix| + EncodedSize(|pending.dump|) + 2
                          && bytesRead == 0
    {
      this.pending := pending;
      base64 := new byte[BASE64_BUFFER_SIZE];
      prefixOffset, base64Size, base64Offset, dumpOffset, suffixOffset, bytesRead := 0, 0, 0, 0, 0, 0;
      failed := false;
      started := |pending.prefix| < PREFIX_CAPACITY;
      contentLength := |pending.prefix| + EncodedSize(|pending.dump|) + 2;
    }

    method Available() returns (n: nat)
      requires Valid()
      ensures n == if !started || failed then 0 else |Remaining()|
    {
      return if !started || failed || bytesRead >= contentLength then 0 else contentLength - bytesRead;
    }

    /** fillBase64(): the buffer is empty and there is more to encode. */
    method FillBase64() returns (ok: bool)
      requires Valid() && started && base64Offset == base64Size && dumpOffset < |pending.dump|
      requires prefixOffset == |pending.prefix| && suffixOffset == 0
      modifies this`base64Size, this`base64Offset, this`dumpOffset, base64
      ensures Valid() && Remaining() == old(Remaining())
      ensures ok <==> old(dumpOffset) !in pending.unreadable
      ensures ok ==> base64Offset < base64Size
    {
      hide Encode, EncodePadded;
      var remaining := |pending.dump| - dumpOffset;
      var rawSize := if remaining < RAW_BUFFER_SIZE then remaining else RAW_BUFFER_SIZE;
      var raw := pending.ReadChunk(dumpOffset, rawSize);
      if raw.None? {
        return false;
      }
      ghost var rest := pending.dump[dumpOffset..];
      ChunkSplits(rest, rawSize);
      assert rest[..rawSize] == raw.value && rest[rawSize..] == pending.dump[dumpOffset + rawSize..];
      var size := EncodeBase64(raw.value, base64);
      base64Size, base64Offset, dumpOffset := size, 0, dumpOffset + rawSize;
      assert base64[0..size] == base64[..size];
      return true;
    }

    method Read(destination: array<byte>, capacity: nat) returns (written: nat)
      requires Valid() && capacity <= destination.Length && destination != base64
      modifies this, base64, destination
      ensures Valid() && started == old(started) && written <= capacity
      ensures started && !old(failed) ==>
                && written <= |old(Remaining())|
                && destination[..written] == old(Remaining())[..written]
                && Remaining() == old(Remaining())[written..]
                && bytesRead == old(bytesRead) + written
                && (!failed ==> written == capacity || written == |old(Remaining())|)
      ensures !started || old(failed) ==> written == 0 && failed == old(failed) && bytesRead == old(bytesRead)
      ensures failed && !old(failed) ==> pending.unreadable != {}
    {
      hide Encode, EncodePadded, Body, Remaining;
      ghost var whole := Remaining();
      assert whole[0..] == whole;
      written := 0;
      if !started || failed || capacity == 0 {
        return;
      }
      LengthLeft();
      assert destination[..0] == [] == whole[..0] && whole[0..] == whole;
      while written < capacity && bytesRead < contentLength
        invariant Valid() && started && !failed && written <= capacity && written <= |whole|
        invariant bytesRead == old(bytesRead) + written && contentLength == old(contentLength)
        invariant destination[..written] == whole[..written]
        invariant Remaining() == whole[written..]
        decreases capacity - written
      {
        ghost var before := Remaining();
        var copied := ReadSome(destination, written, capacity - written);
        assert whole[..written + copied] == whole[..written] + before[..copied];
        assert whole[written + copied..] == before[copied..];
        written := written + copied;
        if failed {
          return;
        }
      }
    }

    /** One turn of the read loop: a copy, or the failure to refill the buffer. */
    method ReadSome(destination: array<byte>, at: nat, room: nat) returns (copied: nat)
      requires Valid() && started && !failed && bytesRead < contentLength
      requires 0 < room && at + room <= destination.Length && destination != base64
      modifies this, base64, destination
      ensures Valid() && started && contentLength == old(contentLength)
      ensures copied <= room && copied <= |old(Remaining())|
      ensures destination[..at + copied] == old(destination[..at]) + old(Remaining())[..copied]
      ensures Remaining() == old(Remaining())[copied..] && bytesRead == old(bytesRead) + copied
      ensures if failed then copied == 0 && pending.unreadable != {} else copied > 0
    {
      hide Encode, EncodePadded, Body;
      if prefixOffset < |pending.prefix| {
        copied := CopyPrefix(destination, at, room);
        return;
      }
      if base64Offset == base64Size && dumpOffset < |pending.dump| {
        var ok := FillBase64();
        if !ok {
          failed := true;
          return 0;
        }
      }
      if base64Offset < base64Size {
        copied := CopyBase64(destination, at, room);
      } else {
        SomethingLeft();
        copied := CopySuffix(destination, at, room);
      }
    }

    /** The three memcpy() calls of the read loop. */
    method CopyPrefix(destination: array<byte>, at: nat, room: nat) returns (copied: nat)
      requires Valid() && started && 0 < room && at + room <= destination.Length && destination != base64
      requires prefixOffset < |pending.prefix|
      modifies this`prefixOffset, this`base64Offset, this`suffixOffset, this`bytesRead, destination
      ensures Valid() && 0 < copied <= room && copied <= |old(Remaining())|
      ensures destination[..at + copied] == old(destination[..at]) + old(Remaining())[..copied]
      ensures Remaining() == old(Remaining())[copied..] && bytesRead == old(bytesRead) + copied
    {
      hide Encode, EncodePadded, Suffix, Body;
      ghost var before := Remaining();
      copied := Min(room, |pending.prefix| - prefixOffset);
      var piece := pending.prefix[prefixOffset..prefixOffset + copied];
      CopyInto(destination, at, piece);
      prefixOffset := prefixOffset + copied;
      bytesRead := bytesRead + copied;
      assert before == piece + Remaining();
      BodyDrop(before, copied);
    }

    method CopyBase64(destination: array<byte>, at: nat, room: nat) returns (copied: nat)
      requires Valid() && started && 0 < room && at + room <= destination.Length && destination != base64
      requires prefixOffset == |pending.prefix| && base64Offset < base64Size
      modifies this`prefixOffset, this`base64Offset, this`suffixOffset, this`bytesRead, destination
      ensures Valid() && 0 < copied <= room && copied <= |old(Remaining())|
      ensures destination[..at + copied] == old(destination[..at]) + old(Remaining())[..copied]
      ensures Remaining() == old(Remaining())[copied..] && bytesRead == old(bytesRead) + copied
    {
      hide Encode, EncodePadded, Suffix, Body;
      ghost var before := Remaining();
      copied := Min(room, base64Size - base64Offset);
      var piece := base64[base64Offset..base64Offset + copied];
      CopyInto(destination, at, piece);
      base64Offset := base64Offset + copied;
      bytesRead := bytesRead + copied;
      assert before == piece + Remaining();
      BodyDrop(before, copied);
    }

    method CopySuffix(destination: array<byte>, at: nat, room: nat) returns (copied: nat)
      requires Valid() && started && 0 < room && at + room <= destination.Length && destination != base64
      requires prefixOffset == |pending.prefix| && base64Offset == base64Size
      requires dumpOffset == |pending.dump| && suffixOffset < 2
      modifies this`prefixOffset, this`base64Offset, this`suffixOffset, this`bytesRead, destination
      ensures Valid() && 0 < copied <= room && copied <= |old(Remaining())|
      ensures destination[..at + copied] == old(destination[..at]) + old(Remaining())[..copied]
      ensures Remaining() == old(Remaining())[copied..] && bytesRead == old(bytesRead) + copied
    {
      hide Encode, EncodePadded, Suffix, Body;
      ghost var before := Remaining();
      copied := Min(room, 2 - suffixOffset);
      var piece := Suffix()[suffixOffset..suffixOffset + copied];
      NothingEncoded(pending.dump);
      CopyInto(destination, at, piece);
      suffixOffset := suffixOffset + copied;
      bytesRead := bytesRead + copied;
      assert before == piece + Remaining();
      BodyDrop(before, copied);
    }

    lemma BodyDrop(before: bytes, n: nat)
      requires n <= bytesRead <= |Body(pending.prefix, pending.dump)| && n <= |before|
      requires before == Body(pending.prefix, pending.dump)[bytesRead - n..]
      ensures Body(pending.prefix, pending.dump)[bytesRead..] == before[n..]
    {
    }

    lemma LengthLeft()
      requires Valid() && started
      ensures |Remaining()| == contentLength - bytesRead
    {
    }

    /** There is something left exactly while bytes are missing. */
    lemma SomethingLeft()
      requires Valid() && started && prefixOffset == |pending.prefix| && base64Offset == base64Size
      requires dumpOffset == |pending.dump|
      ensures bytesRead < contentLength <==> suffixOffset < 2
    {
      NothingEncoded(pending.dump);
    }

    static method CopyInto(destination: array<byte>, at: nat, data: bytes)
      requires at + |data| <= destination.Length
      modifies destination
      ensures destination[..at + |data|] == old(destination[..at]) + data
    {
      for i := 0 to |data|
        invariant destination[..at + i] == old(destination[..at]) + data[..i]
      {
        destination[at + i] := data[i];
        assert destination[..at + i + 1] == destination[..at + i] + [data[i]];
      }
      assert data[..|data|] == data;
    }
  }

  function Min(a: nat, b: nat): nat {
    if a < b then a else b
  }

  lemma ChunkSplits(rest: bytes, n: nat)
    requires n <= |rest| && (n == RAW_BUFFER_SIZE || n == |rest|)
    ensures EncodePadded(rest) == EncodePadded(rest[..n]) + EncodePadded(rest[n..])
    ensures |EncodePadded(rest[..n])| <= BASE64_BUFFER_SIZE || n > RAW_BUFFER_SIZE
    ensures n > 0 ==> |EncodePadded(rest[..n])| > 0
  {
    if n == |rest| {
      assert rest[..n] == rest && rest[n..] == [];
    } else {
      EncodePaddedConcat(rest[..n], rest[n..]);
      assert rest == rest[..n] + rest[n..];
    }
  }

  lemma NothingEncoded(dump: bytes)
    ensures EncodePadded(dump[|dump|..]) == []
  {
  }

  /** Any sequence of read capacities yields the body, in order and without gaps. */
  method ReadAll(reader: CoreDumpJsonReader, capacities: seq<nat>) returns (output: bytes)
    requires reader.Valid() && reader.started && !reader.failed && reader.bytesRead == 0
    modifies reader, reader.base64
    ensures var body := Body(reader.pending.prefix, reader.pending.dump);
            && output <= body
            && (!reader.failed ==> |output| == Min(Sum(capacities), |body|))
            && (reader.pending.unreadable == {} ==> !reader.failed)
  {
    hide Encode, EncodePadded, Body;
    ghost var body := Body(reader.pending.prefix, reader.pending.dump);
    output := [];
    for i := 0 to |capacities|
      invariant reader.Valid() && reader.started && reader.bytesRead == |output| <= |body|
      invariant output == body[..|output|]
      invariant !reader.failed ==> |output| == Min(Sum(capacities[..i]), |body|)
      invariant reader.pending.unreadable == {} ==> !reader.failed
    {
      assert capacities[..i + 1][..i] == capacities[..i];
      ghost var before := |output|;
      var buffer := new byte[capacities[i]];
      var n := reader.Read(buffer, capacities[i]);
      output := output + buffer[..n];
      if n > 0 {
        assert body[..before + n] == body[..before] + body[before..][..n];
      }
    }
    assert capacities[..|capacities|] == capacities;
  }

  function Sum(s: seq<nat>): nat {
    if s == [] then 0 else Sum(s[..|s| - 1]) + s[|s| - 1]
  }

  /** writeCoreDumpJson(): the loop ends, and success means that the sink got the
    * whole body. `refuseAt` is the write that the sink refuses, if any. */
  method WriteCoreDumpJson(pending: PendingCoreDump, refuseAt: Option<nat>) returns (ok: bool, sink: bytes)
    ensures sink <= Body(pending.prefix, pending.dump)
    ensures ok ==> sink == Body(pending.prefix, pending.dump)
    ensures |pending.prefix| < PREFIX_CAPACITY && pending.unreadable == {} && refuseAt.None? ==> ok
  {
    hide Encode, EncodePadded, Body, CoreDumpJsonReader.Remaining;
    ghost var body := Body(pending.prefix, pending.dump);
    var reader := new CoreDumpJsonReader(pending);
    sink := [];
    if !reader.started {
      return false, sink;
    }
    var buffer, writes := new byte[256], 0;
    var available := reader.Available();
    while available != 0
      invariant reader.Valid() && reader.started && !reader.failed && reader.pending == pending
      invariant fresh(reader) && fresh(reader.base64) && reader.base64 != buffer
      invariant reader.bytesRead == |sink| <= |body| && sink == body[..|sink|]
      invariant available == |body| - |sink|
      decreases available
    {
      ghost var before := reader.bytesRead;
      var size := reader.Read(buffer, 256);
      if size == 0 || refuseAt == Some(writes) {
        return false, sink;
      }
      assert body[..before + size] == body[..before] + body[before..][..size];
      sink, writes := sink + buffer[..size], writes + 1;
      if reader.failed {
        return false, sink;
      }
      available := reader.Available();
    }
    assert body[..|body|] == body;
    return true, sink;
  }
}
