/** The streaming updater (src/ota_update.cpp): an image is finalised only if
  * exactly the promised bytes went to the backend.
  */
module OtaUpdate {
  import opened Bytes
  import opened OtaInstallState
  import opened Sha256
  import opened Wire

  const MAXIMUM_CHUNK := 4096

  /** otaSectorBoundedChunkSize(): no write crosses a flash sector boundary. */
  function SectorBoundedChunkSize(bytesWritten: nat, available: nat, remaining: nat): (n: nat)
    ensures n <= available && n <= remaining && n <= MAXIMUM_CHUNK
    ensures n == 0 <==> available == 0 || remaining == 0
    ensures n > 0 ==> bytesWritten / MAXIMUM_CHUNK == (bytesWritten + n - 1) / MAXIMUM_CHUNK
    // It is the largest such chunk.
    ensures n == available || n == remaining || (bytesWritten + n) % MAXIMUM_CHUNK == 0
  {
    if available == 0 || remaining == 0 then 0
    else
      var sectorRemaining := MAXIMUM_CHUNK - bytesWritten % MAXIMUM_CHUNK;
      var requested := if available < remaining then available else remaining;
      if requested < sectorRemaining then requested else sectorRemaining
  }

  datatype UpdateState = IdleUpdate | Writing | ReadyToReboot | Aborted | Failed

  datatype UpdateError =
    | NoError | InvalidVerifiedRelease | InvalidBackend | BackendBeginFailed | NotWriting | ChunkTooLarge
    | ImageLengthOverflow | BackendShortWrite | HashFailure | ImageLengthMismatch
    | ImageDigestMismatch | BackendFinishFailed | OperatorAborted

  /** Calls into the flash backend. */
  datatype Call = BeginCall(size: nat, ok: bool) | WriteCall(data: bytes) | FinishCall(ok: bool) | AbortCall

  /** What the backend was handed since the latest begin(), in order. */
  function Handed(calls: seq<Call>): bytes {
    if calls == [] then []
    else
      var init, last := calls[..|calls| - 1], calls[|calls| - 1];
      match last
      case BeginCall(_, _) => []
      case WriteCall(data) => Handed(init) + data
      case _ => Handed(init)
  }

  function Aborts(calls: seq<Call>): nat {
    if calls == [] then 0
    else
      var init, last := calls[..|calls| - 1], calls[|calls| - 1];
      if last.BeginCall? then 0 else Aborts(init) + (if last.AbortCall? then 1 else 0)
  }

  function Finished(calls: seq<Call>): bool {
    if calls == [] then false
    else
      var init, last := calls[..|calls| - 1], calls[|calls| - 1];
      if last.BeginCall? then false else Finished(init) || last == FinishCall(true)
  }

  /** At every moment: at most one abort since the latest begin, and none once a
    * finish succeeded. */
  predicate Disciplined(calls: seq<Call>) {
    calls == [] ||
    (&& Disciplined(calls[..|calls| - 1]) && Aborts(calls) <= 1
     && (Finished(calls) ==> Aborts(calls) == 0))
  }

  lemma {:induction false} DisciplinedAlways(calls: seq<Call>, n: nat)
    requires Disciplined(calls) && n <= |calls|
    ensures Aborts(calls[..n]) <= 1 && (Finished(calls[..n]) ==> Aborts(calls[..n]) == 0)
  {
    if n < |calls| {
      DisciplinedAlways(calls[..|calls| - 1], n);
      assert calls[..|calls| - 1][..n] == calls[..n];
    } else {
      assert calls[..n] == calls;
    }
  }

  lemma DisciplinedStep(calls: seq<Call>, call: Call)
    requires Disciplined(calls)
    requires Aborts(calls + [call]) <= 1 && (Finished(calls + [call]) ==> Aborts(calls + [call]) == 0)
    ensures Disciplined(calls + [call])
  {
    assert (calls + [call])[..|calls|] == calls;
  }

  /** A begin() starts a new account. */
  lemma AfterBegin(calls: seq<Call>, size: nat, ok: bool)
    requires Disciplined(calls)
    ensures Disciplined(calls + [BeginCall(size, ok)])
    ensures var after := calls + [BeginCall(size, ok)];
            Handed(after) == [] && Aborts(after) == 0 && !Finished(after)
  {
    DisciplinedStep(calls, BeginCall(size, ok));
  }

  lemma Appended(calls: seq<Call>, call: Call)
    ensures (calls + [call])[..|calls|] == calls
  {
  }

  class OtaStreamUpdater {
    var state: UpdateState
    var error: UpdateError
    var imageSize: nat
    var bytesWritten: nat
    var expectedDigest: Digest
    const hasher: OtaSha256
    ghost var calls: seq<Call>

    /** Enough to fail from. */
    ghost predicate Sound()
      reads this, hasher, hasher.state, hasher.buffer
    {
      && hasher.Valid() && Disciplined(calls) && imageSize < U32_LIMIT
      && (state == Writing ==> Aborts(calls) == 0 && !Finished(calls))
    }

    ghost predicate Valid()
      reads this, hasher, hasher.state, hasher.buffer
    {
      && Sound()
      && (state == Writing ==>
            && !hasher.finalized && hasher.message == Handed(calls)
            && bytesWritten == |Handed(calls)| <= imageSize)
      && (state == ReadyToReboot ==>
            && |Handed(calls)| == imageSize && Hash(Handed(calls)) == expectedDigest
            && Finished(calls))
    }

    constructor ()
      ensures hasher.Valid() && !hasher.finalized && Valid()
      ensures state == IdleUpdate && calls == []
      ensures fresh(hasher) && fresh(hasher.state) && fresh(hasher.buffer)
    {
      hide Hash, OtaSha256.Valid, Handed, Finished, Aborts;
      state, error, imageSize, bytesWritten, expectedDigest := IdleUpdate, NoError, 0, 0, Zeros(32);
      calls := [];
      hasher := new OtaSha256();
    }

    /** fail(): the only other place that aborts the backend. */
    method Fail(e: UpdateError)
      requires Sound()
      modifies this`state, this`error, this`calls
      ensures Valid() && state == Failed && error == e
      ensures calls == if old(state) == Writing then old(calls) + [AbortCall] else old(calls)
      ensures Handed(calls) == old(Handed(calls))
    {
      hide Hash, Disciplined, OtaSha256.Valid;
      if state == Writing {
        Appended(calls, AbortCall);
        DisciplinedStep(calls, AbortCall);
        calls := calls + [AbortCall];
      }
      state, error := Failed, e;
    }

    /** begin() forgets the previous image. */
    method Restart()
      requires Valid() && state != Writing
      modifies this, hasher, hasher.state, hasher.buffer
      ensures Sound() && state == IdleUpdate && error == NoError && calls == old(calls)
      ensures imageSize == bytesWritten == 0 && !hasher.finalized && hasher.message == []
    {
      hide Hash, Disciplined, OtaSha256.Valid, Handed, Aborts, Finished;
      expectedDigest := Zeros(32);
      imageSize, bytesWritten := 0, 0;
      hasher.Reset();
      state, error := IdleUpdate, NoError;
    }

    /** begin() for a release, None if it is not verified, and a backend that may
      * lack a callback. The first thing that is wrong is reported. */
    method Begin(release: Option<(nat, Digest)>, backendComplete: bool, backendOk: bool) returns (ok: bool)
      requires Valid() && (release.Some? ==> release.value.0 < U32_LIMIT)
      modifies this, hasher, hasher.state, hasher.buffer
      ensures Valid()
      ensures ok <==> old(state) != Writing && release.Some? && backendComplete && backendOk
      ensures error == if old(state) == Writing then old(error)
                       else if release.None? then InvalidVerifiedRelease
                       else if !backendComplete then InvalidBackend
                       else if !backendOk then BackendBeginFailed else NoError
      // The backend is asked only for a verified release.
      ensures old(state) == Writing || release.None? || !backendComplete ==> calls == old(calls)
      ensures ok ==> state == Writing && imageSize == release.value.0 && expectedDigest == release.value.1
                     && calls == old(calls) + [BeginCall(imageSize, true)]
      ensures !ok ==> state == if old(state) == Writing then Writing else Failed
    {
      hide Hash, Disciplined, OtaSha256.Valid, Handed, Aborts, Finished;
      if state == Writing {
        return false;
      }
      Restart();
      if release.None? {
        Fail(InvalidVerifiedRelease);
        return false;
      }
      if !backendComplete {
        Fail(InvalidBackend);
        return false;
      }
      imageSize, expectedDigest := release.value.0, release.value.1;
      AfterBegin(calls, imageSize, backendOk);
      calls := calls + [BeginCall(imageSize, backendOk)];
      if !backendOk {
        Fail(BackendBeginFailed);
        return false;
      }
      state := Writing;
      return true;
    }

    /** `written` is the count that the backend reports. */
    method Write(data: bytes, written: nat) returns (ok: bool)
      requires Valid()
      modifies this, hasher, hasher.state, hasher.buffer
      ensures Valid() && imageSize == old(imageSize) && expectedDigest == old(expectedDigest)
      ensures ok <==> && old(state) == Writing && |data| <= MAXIMUM_CHUNK
                      && |data| <= old(imageSize) - old(bytesWritten)
                      && (data == [] || written == |data|)
      ensures ok ==> state == Writing && Handed(calls) == old(Handed(calls)) + data
      ensures !ok ==> state == if old(state) == Writing then Failed else old(state)
      ensures !ok ==> error == if old(state) != Writing then NotWriting
                               else if |data| > MAXIMUM_CHUNK then ChunkTooLarge
                               else if |data| > old(imageSize) - old(bytesWritten) then ImageLengthOverflow
                               else BackendShortWrite
    {
      hide Hash, Disciplined, OtaSha256.Valid;
      if state != Writing {
        error := NotWriting;
        return false;
      }
      if |data| > MAXIMUM_CHUNK {
        Fail(ChunkTooLarge);
        return false;
      }
      if |data| > imageSize - bytesWritten {
        Fail(ImageLengthOverflow);
        return false;
      }
      if data == [] {
        return true;
      }
      var hashed := hasher.Update(data);
      assert hashed;  // the hasher refuses only what exceeds 2^64 bytes
      Appended(calls, WriteCall(data));
      DisciplinedStep(calls, WriteCall(data));
      calls := calls + [WriteCall(data)];
      if written != |data| {
        Fail(BackendShortWrite);
        return false;
      }
      bytesWritten := bytesWritten + |data|;
      return true;
    }

    method Finish(backendOk: bool) returns (ok: bool)
      requires Valid()
      modifies this, hasher, hasher.state, hasher.buffer
      ensures Valid() && imageSize == old(imageSize) && expectedDigest == old(expectedDigest)
      ensures Handed(calls) == old(Handed(calls))
      // Exactly when the backend got the promised bytes, all of them and no others.
      ensures ok <==> && old(state) == Writing && backendOk
                      && |Handed(calls)| == imageSize && Hash(Handed(calls)) == expectedDigest
      ensures ok ==> state == ReadyToReboot && error == NoError && calls == old(calls) + [FinishCall(true)]
      ensures !ok ==> state == if old(state) == Writing then Failed else old(state)
      ensures !ok ==> error == if old(state) != Writing then NotWriting
                               else if |Handed(calls)| != imageSize then ImageLengthMismatch
                               else if Hash(Handed(calls)) != expectedDigest then ImageDigestMismatch
                               else BackendFinishFailed
    {
      hide Hash, Disciplined, OtaSha256.Valid;
      if state != Writing {
        error := NotWriting;
        return false;
      }
      if bytesWritten != imageSize {
        Fail(ImageLengthMismatch);
        return false;
      }
      var actual := hasher.Finish();
      if actual.None? || actual.value != expectedDigest {
        Fail(if actual.None? then HashFailure else ImageDigestMismatch);
        return false;
      }
      Appended(calls, FinishCall(backendOk));
      DisciplinedStep(calls, FinishCall(backendOk));
      calls := calls + [FinishCall(backendOk)];
      if !backendOk {
        Fail(BackendFinishFailed);
        return false;
      }
      state, error := ReadyToReboot, NoError;
      return true;
    }

    method Abort()
      requires Valid()
      modifies this`state, this`error, this`calls
      ensures Valid() && state == if old(state) == ReadyToReboot then ReadyToReboot else Aborted
      ensures calls == if old(state) == Writing then old(calls) + [AbortCall] else old(calls)
    {
      hide Hash, Disciplined, OtaSha256.Valid;
      if state == Writing {
        Appended(calls, AbortCall);
        DisciplinedStep(calls, AbortCall);
        calls := calls + [AbortCall];
      }
      if state != ReadyToReboot {
        state, error := Aborted, OperatorAborted;
      }
    }
  }
}
