/** Incremental SHA-256 (src/ota_crypto.cpp) against sections 4.1.2, 5.1.1, 5.2.1,
  * 6.2.1 and 6.2.2 of FIPS 180-4.
  */
module Sha256 {
  import opened Bytes
  import opened OtaInstallState
  import opened Wire

  type Words = s: seq<bv32> | |s| == 8 witness [0, 0, 0, 0, 0, 0, 0, 0]

  function InitialHash(): Words {
    [0x6a09e667, 0xbb67ae85, 0x3c6ef372, 0xa54ff53a, 0x510e527f, 0x9b05688c, 0x1f83d9ab, 0x5be0cd19]
  }

  function RoundConstants(): (k: seq<bv32>)
    ensures |k| == 64
  {
    [0x428a2f98, 0x71374491, 0xb5c0fbcf, 0xe9b5dba5, 0x3956c25b, 0x59f111f1, 0x923f82a4, 0xab1c5ed5,
     0xd807aa98, 0x12835b01, 0x243185be, 0x550c7dc3, 0x72be5d74, 0x80deb1fe, 0x9bdc06a7, 0xc19bf174,
     0xe49b69c1, 0xefbe4786, 0x0fc19dc6, 0x240ca1cc, 0x2de92c6f, 0x4a7484aa, 0x5cb0a9dc, 0x76f988da,
     0x983e5152, 0xa831c66d, 0xb00327c8, 0xbf597fc7, 0xc6e00bf3, 0xd5a79147, 0x06ca6351, 0x14292967,
     0x27b70a85, 0x2e1b2138, 0x4d2c6dfc, 0x53380d13, 0x650a7354, 0x766a0abb, 0x81c2c92e, 0x92722c85,
     0xa2bfe8a1, 0xa81a664b, 0xc24b8b70, 0xc76c51a3, 0xd192e819, 0xd6990624, 0xf40e3585, 0x106aa070,
     0x19a4c116, 0x1e376c08, 0x2748774c, 0x34b0bcb5, 0x391c0cb3, 0x4ed8aa4a, 0x5b9cca4f, 0x682e6ff3,
     0x748f82ee, 0x78a5636f, 0x84c87814, 0x8cc70208, 0x90befffa, 0xa4506ceb, 0xbef9a3f7, 0xc67178f2]
  }

  // ------------------------------------------------ the compression function

  function RotateRight(x: bv32, n: nat): bv32
    requires 0 < n < 32
  {
    (x >> n) | (x << (32 - n))
  }

  function Choose(x: bv32, y: bv32, z: bv32): bv32 { (x & y) ^ (!x & z) }

  function Majority(x: bv32, y: bv32, z: bv32): bv32 { (x & y) ^ (x & z) ^ (y & z) }

  function UpperSigma0(x: bv32): bv32 { RotateRight(x, 2) ^ RotateRight(x, 13) ^ RotateRight(x, 22) }

  function UpperSigma1(x: bv32): bv32 { RotateRight(x, 6) ^ RotateRight(x, 11) ^ RotateRight(x, 25) }

  function LowerSigma0(x: bv32): bv32 { RotateRight(x, 7) ^ RotateRight(x, 18) ^ (x >> 3) }

  function LowerSigma1(x: bv32): bv32 { RotateRight(x, 17) ^ RotateRight(x, 19) ^ (x >> 10) }

  function Add(x: bv32, y: bv32): bv32 { x + y }

  function BigEndianWord(a: byte, b: byte, c: byte, d: byte): bv32 {
    ((a as bv32) << 24) | ((b as bv32) << 16) | ((c as bv32) << 8) | (d as bv32)
  }

  /** Step 1 of section 6.2.2: the message schedule, the four terms in the order
    * in which the source adds them. */
  function Schedule(block: bytes, t: nat): bv32
    requires |block| == 64 && t < 64
  {
    if t < 16 then BigEndianWord(block[4 * t], block[4 * t + 1], block[4 * t + 2], block[4 * t + 3])
    else Add(Add(Add(Schedule(block, t - 16), LowerSigma0(Schedule(block, t - 15))), Schedule(block, t - 7)),
             LowerSigma1(Schedule(block, t - 2)))
  }

  /** One iteration of step 3. */
  function Round(v: Words, k: bv32, w: bv32): Words {
    var t1 := Add(Add(Add(Add(v[7], UpperSigma1(v[4])), Choose(v[4], v[5], v[6])), k), w);
    var t2 := Add(UpperSigma0(v[0]), Majority(v[0], v[1], v[2]));
    [Add(t1, t2), v[0], v[1], v[2], Add(v[3], t1), v[4], v[5], v[6]]
  }

  function Rounds(v: Words, block: bytes, t: nat): Words
    requires |block| == 64 && t <= 64
  {
    if t == 0 then v else Round(Rounds(v, block, t - 1), RoundConstants()[t - 1], Schedule(block, t - 1))
  }

  /** Step 4: the intermediate hash value. */
  function Compress(h: Words, block: bytes): Words
    requires |block| == 64
  {
    var v := Rounds(h, block, 64);
    [Add(h[0], v[0]), Add(h[1], v[1]), Add(h[2], v[2]), Add(h[3], v[3]),
     Add(h[4], v[4]), Add(h[5], v[5]), Add(h[6], v[6]), Add(h[7], v[7])]
  }

  // --------------------------------------------------- padding, one-shot hash

  /** Section 5.1.1: the least k with |m| + 1 + k = 56 modulo 64. */
  function PadZeros(length: nat): (k: nat)
    ensures k < 64 && (length + 1 + k) % 64 == 56
  {
    (119 - length % 64) % 64
  }

  /** The message length in bits. */
  function LengthBytes(length: nat): (r: bytes)
    ensures |r| == 8
  {
    PutBe((8 * length) % U64_LIMIT, 8)
  }

  lemma PadAligns(length: nat)
    ensures (length + PadZeros(length) + 9) % 64 == 0
  {
    assert (length + 1 + PadZeros(length)) % 64 == 56;
    var n := length + 1 + PadZeros(length);
    assert (n + 8) % 64 == (n % 64 + 8) % 64;
  }

  function Padding(length: nat): (r: bytes)
    ensures |r| == PadZeros(length) + 9 && (length + |r|) % 64 == 0
  {
    PadAligns(length);
    [0x80] + Zeros(PadZeros(length)) + LengthBytes(length)
  }

  function Fold(h: Words, m: bytes): Words
    requires |m| % 64 == 0
  {
    if m == [] then h else Compress(Fold(h, m[..|m| - 64]), m[|m| - 64..])
  }

  function WordBytes(w: bv32): (r: bytes)
    ensures |r| == 4
  {
    PutBe(w as nat, 4)
  }

  function DigestBytes(h: Words): (d: Digest) {
    WordBytes(h[0]) + WordBytes(h[1]) + WordBytes(h[2]) + WordBytes(h[3]) +
    WordBytes(h[4]) + WordBytes(h[5]) + WordBytes(h[6]) + WordBytes(h[7])
  }

  /** The whole message at once. */
  function Hash(m: bytes): Digest {
    DigestBytes(Fold(InitialHash(), m + Padding(|m|)))
  }

  lemma {:induction false} FoldConcat(h: Words, a: bytes, b: bytes)
    requires |a| % 64 == 0 && |b| % 64 == 0
    ensures Fold(h, a + b) == Fold(Fold(h, a), b)
  {
    hide Compress;
    if b == [] {
      assert a + b == a;
    } else {
      FoldConcat(h, a, b[..|b| - 64]);
      assert (a + b)[..|a + b| - 64] == a + b[..|b| - 64];
      assert (a + b)[|a + b| - 64..] == b[|b| - 64..];
    }
  }

  // ------------------------------------------------------ the streaming hasher

  const MAXIMUM_U64 := U64_LIMIT - 1

  class OtaSha256 {
    const state: array<bv32>
    const buffer: array<byte>
    var totalBytes: nat
    var bufferSize: nat
    var finalized: bool
    // Everything that was hashed since the last reset.
    ghost var message: bytes

    ghost predicate Shape() {
      state.Length == 8 && buffer.Length == 64
    }

    ghost predicate Valid()
      reads this, state, buffer
    {
      && Shape() && totalBytes == |message| <= MAXIMUM_U64
      && (!finalized ==> Absorbed(message) && bufferSize < 64)
    }

    /** The whole blocks of `m` are folded into the state, the rest is buffered. */
    ghost predicate Absorbed(m: bytes)
      requires Shape()
      reads this`bufferSize, state, buffer
    {
      && bufferSize <= 64 && bufferSize <= |m| && (|m| - bufferSize) % 64 == 0
      && buffer[..bufferSize] == m[|m| - bufferSize..]
      && state[..] == Fold(InitialHash(), m[..|m| - bufferSize])
    }

    constructor ()
      ensures Valid() && !finalized && message == [] && fresh(state) && fresh(buffer)
    {
      state, buffer := new bv32[8], new byte[64];
      totalBytes, bufferSize, finalized, message := 0, 0, false, [];
      new;
      Clear();
    }

    method Reset()
      requires Valid()
      modifies this, state, buffer
      ensures Valid() && !finalized && message == []
    {
      Clear();
    }

    method Clear()
      requires Shape()
      modifies this, state, buffer
      ensures Valid() && !finalized && message == []
    {
      hide Compress, InitialHash;
      var initial := InitialHash();
      for i := 0 to 8
        invariant forall k :: 0 <= k < i ==> state[k] == initial[k]
      {
        state[i] := initial[i];
      }
      for i := 0 to 64
        invariant state[..] == initial
      {
        buffer[i] := 0;
      }
      totalBytes, bufferSize, finalized, message := 0, 0, false, [];
      assert state[..] == initial;
    }

    method PrepareSchedule(block: bytes) returns (words: array<bv32>)
      requires |block| == 64
      ensures fresh(words) && words.Length == 64
      ensures forall t :: 0 <= t < 64 ==> words[t] == Schedule(block, t)
    {
      hide LowerSigma0, LowerSigma1, BigEndianWord, Add;
      words := new bv32[64];
      for index := 0 to 16
        invariant forall t :: 0 <= t < index ==> words[t] == Schedule(block, t)
      {
        words[index] := BigEndianWord(block[index * 4], block[index * 4 + 1],
                                      block[index * 4 + 2], block[index * 4 + 3]);
      }
      for index := 16 to 64
        invariant forall t :: 0 <= t < index ==> words[t] == Schedule(block, t)
      {
        var first := LowerSigma0(words[index - 15]);
        var second := LowerSigma1(words[index - 2]);
        words[index] := Add(Add(Add(words[index - 16], first), words[index - 7]), second);
      }
    }

    method Transform(block: bytes)
      requires Shape() && |block| == 64
      modifies state
      ensures state[..] == Compress(old(state[..]), block)
    {
      hide Add, Choose, Majority, UpperSigma0, UpperSigma1, Schedule, RoundConstants, Round;
      ghost var initial := state[..];
      var words := PrepareSchedule(block);
      var v: Words := state[..];
      for index := 0 to 64
        invariant v == Rounds(initial, block, index)
        invariant state[..] == initial
      {
        v := Round(v, RoundConstants()[index], words[index]);
      }
      var sum := [Add(state[0], v[0]), Add(state[1], v[1]), Add(state[2], v[2]), Add(state[3], v[3]),
                  Add(state[4], v[4]), Add(state[5], v[5]), Add(state[6], v[6]), Add(state[7], v[7])];
      for i := 0 to 8
        invariant forall k :: 0 <= k < i ==> state[k] == sum[k]
      {
        state[i] := sum[i];
      }
      assert state[..] == sum;
    }

    method Update(bytes: seq<byte>) returns (ok: bool)
      requires Valid()
      modifies this, state, buffer
      ensures Valid() && finalized == old(finalized)
      ensures ok == (!old(finalized) && |old(message)| + |bytes| <= MAXIMUM_U64)
      ensures message == if ok then old(message) + bytes else old(message)
    {
      hide Fold, Compress, InitialHash, Absorbed;
      if finalized || |bytes| > MAXIMUM_U64 - totalBytes {
        return false;
      }
      ghost var start := message;
      totalBytes, message := totalBytes + |bytes|, message + bytes;
      var consumed := 0;
      assert start + bytes[..0] == start;
      if bufferSize != 0 {
        var needed := 64 - bufferSize;
        consumed := if |bytes| < needed then |bytes| else needed;
        Buffer(start, bytes[..consumed]);
      }
      while |bytes| - consumed >= 64
        invariant Shape() && consumed <= |bytes| && bufferSize < 64
        invariant totalBytes == |message| && message == start + bytes && !finalized
        invariant consumed < |bytes| ==> bufferSize == 0
        invariant Absorbed(start + bytes[..consumed])
      {
        Block(start + bytes[..consumed], bytes[consumed..consumed + 64]);
        assert start + bytes[..consumed + 64] == start + bytes[..consumed] + bytes[consumed..consumed + 64];
        consumed := consumed + 64;
      }
      if consumed < |bytes| {
        Buffer(start + bytes[..consumed], bytes[consumed..]);
        assert start + bytes == start + bytes[..consumed] + bytes[consumed..];
      }
      assert bytes[..|bytes|] == bytes;
      return true;
    }

    /** A whole block, past the empty buffer. */
    method Block(ghost m: bytes, block: seq<byte>)
      requires Shape() && bufferSize == 0 && Absorbed(m) && |block| == 64
      modifies state
      ensures Absorbed(m + block)
    {
      hide Fold, Compress, InitialHash;
      Transform(block);
      FoldStep(m + block, |m| + 64);
      assert (m + block)[..|m|] == m && (m + block)[|m|..] == block && m[..|m|] == m;
      assert (m + block)[..|m + block|] == m + block;
    }

    method Extend(ghost m: bytes, chunk: seq<byte>)
      requires Shape() && bufferSize + |chunk| <= 64 && Absorbed(m)
      modifies this`bufferSize, buffer
      ensures Absorbed(m + chunk) && bufferSize == old(bufferSize) + |chunk|
    {
      hide Fold, Compress, InitialHash;
      ghost var held := m[..|m| - bufferSize];
      FillBuffer(chunk);
      assert (m + chunk)[..|m + chunk| - bufferSize] == held;
      assert buffer[..bufferSize] == (m + chunk)[|held|..];
    }

    /** A full buffer is folded. */
    method Flush(ghost m: bytes)
      requires Shape() && bufferSize == 64 && Absorbed(m)
      modifies this`bufferSize, state
      ensures Absorbed(m) && bufferSize == 0
    {
      hide Fold, Compress, InitialHash;
      assert buffer[..] == buffer[..64] == m[|m| - 64..|m|];
      Transform(buffer[..]);
      FoldStep(m, |m|);
      bufferSize := 0;
      assert m[..|m|] == m;
    }

    /** At most as much as the buffer takes; a full buffer is folded. */
    method Buffer(ghost m: bytes, chunk: seq<byte>)
      requires Shape() && bufferSize + |chunk| <= 64 && bufferSize < 64 && Absorbed(m)
      modifies this`bufferSize, state, buffer
      ensures Absorbed(m + chunk) && bufferSize < 64
      ensures old(bufferSize) + |chunk| == 64 ==> bufferSize == 0
    {
      hide Fold, Compress, InitialHash, Absorbed;
      Extend(m, chunk);
      if bufferSize == 64 {
        Flush(m + chunk);
      }
    }

    /** memcpy() behind the buffered bytes. */
    method FillBuffer(chunk: seq<byte>)
      requires Shape() && bufferSize + |chunk| <= 64
      modifies this`bufferSize, buffer
      ensures bufferSize == old(bufferSize) + |chunk|
      ensures buffer[..bufferSize] == old(buffer[..bufferSize]) + chunk
    {
      for i := 0 to |chunk|
        invariant bufferSize == old(bufferSize)
        invariant buffer[..bufferSize + i] == old(buffer[..bufferSize]) + chunk[..i]
      {
        buffer[bufferSize + i] := chunk[i];
        assert buffer[..bufferSize + i + 1] == buffer[..bufferSize + i] + [chunk[i]];
      }
      bufferSize := bufferSize + |chunk|;
      assert chunk[..|chunk|] == chunk;
    }

    method Finish() returns (output: Option<Digest>)
      requires Valid()
      modifies this, state, buffer
      ensures Valid() && message == old(message)
      ensures output.Some? <==> !old(finalized) && 8 * |message| <= MAXIMUM_U64
      ensures output.Some? ==> finalized && output.value == Hash(message)
      ensures output.None? ==> finalized == old(finalized)
    {
      hide Fold, Compress, InitialHash, DigestBytes, Padding;
      if finalized || totalBytes > MAXIMUM_U64 / 8 {
        return None;
      }
      PadMessage(message);
      ghost var padded := message + Padding(|message|);
      assert padded[..|padded|] == padded;
      output := Some(DigestBytes(state[..]));
      finalized := true;
    }

    /** The 0x80 byte, the zeros and the length, over one block or two. */
    method PadMessage(ghost m: bytes)
      requires Shape() && Absorbed(m) && bufferSize < 64 && totalBytes == |m|
      modifies this`bufferSize, state, buffer
      ensures Absorbed(m + Padding(|m|)) && bufferSize == 0
    {
      hide Fold, Compress, InitialHash, LengthBytes, PadZeros, Padding, Absorbed;
      ghost var buffered := bufferSize;
      assert |m| % 64 == buffered by { BufferedCount(m); }
      Extend(m, [0x80]);
      ghost var padded, zeros := m + [0x80], 0;
      if bufferSize > 56 {
        zeros := 64 - bufferSize;
        Extend(padded, Zeros(64 - bufferSize));
        padded := padded + Zeros(zeros);
        Flush(padded);
      } else {
        assert padded == padded + Zeros(0);
      }
      ghost var more := 56 - bufferSize;
      Extend(padded, Zeros(56 - bufferSize));
      padded := padded + Zeros(more);
      Extend(padded, LengthBytes(totalBytes));
      Flush(padded + LengthBytes(|m|));
      PaddingInTwo(m, buffered, zeros, more);
      assert padded == m + [0x80] + Zeros(zeros) + Zeros(more);
    }

    lemma BufferedCount(m: bytes)
      requires Shape() && Absorbed(m) && bufferSize < 64
      ensures |m| % 64 == bufferSize
    {
    }
  }

  /** Whether the length still fits the last block or not, the zeros are those
    * of the standard. */
  lemma PaddingInTwo(m: bytes, buffered: nat, first: nat, more: nat)
    requires buffered < 64 && |m| % 64 == buffered
    requires if buffered + 1 > 56 then first == 63 - buffered && more == 56 else first == 0 && more == 55 - buffered
    ensures m + [0x80] + Zeros(first) + Zeros(more) + LengthBytes(|m|) == m + Padding(|m|)
  {
    hide LengthBytes;
    assert PadZeros(|m|) == first + more;
    assert Zeros(first) + Zeros(more) == Zeros(first + more);
  }

  /** Hash a message handed over in pieces, however it was cut. */
  function Concat(pieces: seq<bytes>): bytes {
    if pieces == [] then [] else Concat(pieces[..|pieces| - 1]) + pieces[|pieces| - 1]
  }

  method HashPieces(pieces: seq<bytes>) returns (digest: Option<Digest>)
    ensures 8 * |Concat(pieces)| <= MAXIMUM_U64 ==> digest == Some(Hash(Concat(pieces)))
  {
    hide Hash, Fold, Compress, InitialHash, OtaSha256.Valid;
    var hasher := new OtaSha256();
    for i := 0 to |pieces|
      invariant hasher.Valid() && !hasher.finalized && fresh(hasher) && fresh(hasher.state) && fresh(hasher.buffer)
      invariant |Concat(pieces[..i])| <= MAXIMUM_U64 ==> hasher.message == Concat(pieces[..i])
    {
      assert pieces[..i + 1][..i] == pieces[..i];
      assert Concat(pieces[..i + 1]) == Concat(pieces[..i]) + pieces[i];
      var _ := hasher.Update(pieces[i]);
    }
    assert pieces[..|pieces|] == pieces;
    digest := hasher.Finish();
  }

  /** One more block of a message that is being folded. */
  lemma FoldStep(m: bytes, end: nat)
    requires 64 <= end <= |m| && end % 64 == 0
    ensures Fold(InitialHash(), m[..end]) == Compress(Fold(InitialHash(), m[..end - 64]), m[end - 64..end])
  {
    hide Compress;
    assert m[..end][..end - 64] == m[..end - 64] && m[..end][end - 64..] == m[end - 64..end];
  }
}
