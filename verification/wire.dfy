/** Little-endian integers, zero-padded text and the CRC-32 that the durable
  * records and the feedback frame share.
  */
module Wire {
  import opened Bytes

  function Pow256(n: nat): (r: nat)
    ensures r > 0
  {
    if n == 0 then 1 else 256 * Pow256(n - 1)
  }

  lemma PowValues()
    ensures Pow256(2) == 0x1_0000 && Pow256(4) == U32_LIMIT && Pow256(8) == U64_LIMIT
  {
    assert Pow256(3) == 256 * Pow256(2);
    assert Pow256(4) == 0x1_0000_0000;
    assert Pow256(6) == 256 * Pow256(5);
    assert Pow256(8) == 256 * Pow256(7);
  }

  function PutLe(v: nat, n: nat): (r: bytes)
    ensures |r| == n
  {
    if n == 0 then [] else [v % 256] + PutLe(v / 256, n - 1)
  }

  function GetLe(b: bytes): (v: nat)
    ensures v < Pow256(|b|)
  {
    if b == [] then 0 else b[0] + 256 * GetLe(b[1..])
  }

  lemma {:induction false} GetOfPut(v: nat, n: nat)
    requires v < Pow256(n)
    ensures GetLe(PutLe(v, n)) == v
  {
    if n > 0 {
      GetOfPut(v / 256, n - 1);
      assert PutLe(v, n)[1..] == PutLe(v / 256, n - 1);
    }
  }

  lemma {:induction false} PutOfGet(b: bytes)
    ensures PutLe(GetLe(b), |b|) == b
  {
    if b != [] {
      PutOfGet(b[1..]);
      assert (b[0] + 256 * GetLe(b[1..])) / 256 == GetLe(b[1..]);
    }
  }

  function PutBe(v: nat, n: nat): (r: bytes)
    ensures |r| == n
  {
    if n == 0 then [] else PutBe(v / 256, n - 1) + [v % 256]
  }

  function GetBe(b: bytes): (v: nat)
    ensures v < Pow256(|b|)
  {
    if b == [] then 0 else 256 * GetBe(b[..|b| - 1]) + b[|b| - 1]
  }

  lemma {:induction false} GetBeOfPut(v: nat, n: nat)
    requires v < Pow256(n)
    ensures GetBe(PutBe(v, n)) == v
  {
    if n > 0 {
      GetBeOfPut(v / 256, n - 1);
      assert PutBe(v, n)[..n - 1] == PutBe(v / 256, n - 1);
    }
  }

  lemma {:induction false} PutBeOfGet(b: bytes)
    ensures PutBe(GetBe(b), |b|) == b
  {
    if b != [] {
      var h, d := GetBe(b[..|b| - 1]), b[|b| - 1];
      PutBeOfGet(b[..|b| - 1]);
      assert (256 * h + d) / 256 == h && (256 * h + d) % 256 == d;
      assert b == b[..|b| - 1] + [d];
    }
  }

  // ------------------------------------------------------------------ text

  predicate IsAscii(s: string) {
    forall i :: 0 <= i < |s| ==> 0 < s[i] as int < 128
  }

  function ToBytes(s: string): (r: bytes)
    requires IsAscii(s)
    ensures |r| == |s|
    ensures forall i :: 0 <= i < |s| ==> r[i] == s[i] as int
  {
    seq(|s|, i requires 0 <= i < |s| => s[i] as int)
  }

  function FromBytes(b: bytes): (r: string)
    ensures |r| == |b|
    ensures forall i :: 0 <= i < |b| ==> r[i] as int == b[i]
  {
    seq(|b|, i requires 0 <= i < |b| => b[i] as char)
  }

  lemma FromOfTo(s: string)
    requires IsAscii(s)
    ensures FromBytes(ToBytes(s)) == s
  {
    var r := FromBytes(ToBytes(s));
    assert forall i :: 0 <= i < |s| ==> r[i] as int == s[i] as int;
  }

  function Zeros(n: nat): (r: bytes)
    ensures |r| == n && forall i :: 0 <= i < n ==> r[i] == 0
  {
    seq(n, _ => 0)
  }

  function Padded(s: string, width: nat): (r: bytes)
    requires IsAscii(s) && |s| <= width
    ensures |r| == width
  {
    ToBytes(s) + Zeros(width - |s|)
  }

  lemma PaddedText(s: string, width: nat)
    requires IsAscii(s) && |s| <= width
    ensures FromBytes(Padded(s, width)[..|s|]) == s
    ensures Padded(s, width)[|s|..] == Zeros(width - |s|)
  {
    FromOfTo(s);
    assert Padded(s, width)[..|s|] == ToBytes(s);
  }

  // ---------------------------------------------------------------- CRC-32

  function CrcBit(crc: bv32): bv32 {
    if crc & 1 == 1 then (crc >> 1) ^ 0xedb88320 else crc >> 1
  }

  function CrcBits(crc: bv32, n: nat): bv32 {
    if n == 0 then crc else CrcBit(CrcBits(crc, n - 1))
  }

  function Word(b: byte): bv32 {
    b as bv32
  }

  /** One byte of the reflected CRC-32. */
  function CrcByte(crc: bv32, b: byte): bv32 {
    CrcBits(crc ^ Word(b), 8)
  }

  function CrcUpdate(crc: bv32, data: bytes): bv32 {
    if data == [] then crc
    else CrcByte(CrcUpdate(crc, data[..|data| - 1]), data[|data| - 1])
  }

  function CrcFinal(crc: bv32): bv32 {
    crc ^ 0xffffffff
  }

  function Crc32(data: bytes): bv32 {
    CrcFinal(CrcUpdate(0xffffffff, data))
  }

  /** Splitting the input anywhere does not change the checksum. */
  lemma {:induction false} CrcComposes(crc: bv32, a: bytes, b: bytes)
    ensures CrcUpdate(crc, a + b) == CrcUpdate(CrcUpdate(crc, a), b)
  {
    if b == [] {
      assert a + b == a;
    } else {
      CrcComposes(crc, a, b[..|b| - 1]);
      assert (a + b)[..|a + b| - 1] == a + b[..|b| - 1];
    }
  }

  /** The source selects the polynomial with a mask instead of a branch. */
  lemma BitByMask(crc: bv32)
    ensures CrcBit(crc) == (crc >> 1) ^ (0xedb88320 & (0 - (crc & 1)))
  {
    if crc & 1 == 1 {
    } else {
      assert crc & 1 == 0;
    }
  }

  method ComputeCrcBits(start: bv32) returns (r: bv32)
    ensures r == CrcBits(start, 8)
  {
    hide CrcBit;
    r := start;
    for bit := 0 to 8
      invariant r == CrcBits(start, bit)
    {
      BitByMask(r);
      r := (r >> 1) ^ (0xedb88320 & (0 - (r & 1)));
    }
  }

  /** The nested loops of the source. */
  method ComputeCrcUpdate(crc: bv32, data: bytes) returns (r: bv32)
    ensures r == CrcUpdate(crc, data)
  {
    hide CrcBits, Word;
    r := crc;
    for index := 0 to |data|
      invariant r == CrcUpdate(crc, data[..index])
    {
      assert data[..index + 1][..index] == data[..index];
      r := ComputeCrcBits(r ^ Word(data[index]));
    }
    assert data[..|data|] == data;
  }

  function PutCrc(crc: bv32): (r: bytes)
    ensures |r| == 4
  {
    PutLe(crc as nat, 4)
  }
}
