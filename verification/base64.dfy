/** Base64 as sections 4 and 5 of RFC 4648 define it: padded for core dumps
  * (src/core_dump_json.cpp), URL-safe and unpadded for provisioning
  * (src/provisioning_protocol.cpp).
  */
module Base64 {
  import opened Bytes

  type sextet = x: int | 0 <= x < 64

  /** Upper case, lower case, digits, and the two characters that differ. */
  function CharOf(url: bool, v: sextet): byte {
    if v < 26 then 0x41 + v
    else if v < 52 then 0x61 + (v - 26)
    else if v < 62 then 0x30 + (v - 52)
    else if v == 62 then (if url then 0x2d else 0x2b)
    else (if url then 0x5f else 0x2f)
  }

  function SextetOf(url: bool, c: byte): (r: Option<sextet>)
    ensures r.Some? ==> CharOf(url, r.value) == c
  {
    if 0x41 <= c <= 0x5a then Some(c - 0x41)
    else if 0x61 <= c <= 0x7a then Some(c - 0x61 + 26)
    else if 0x30 <= c <= 0x39 then Some(c - 0x30 + 52)
    else if c == CharOf(url, 62) then Some(62)
    else if c == CharOf(url, 63) then Some(63)
    else None
  }

  lemma SextetOfChar(url: bool, v: sextet)
    ensures SextetOf(url, CharOf(url, v)) == Some(v)
  {
  }

  lemma CharOfSextet(url: bool, c: byte)
    ensures SextetOf(url, c).Some? ==> CharOf(url, SextetOf(url, c).value) == c
  {
  }

  // ------------------------------------------------------------ 3 to 4 and back

  function First(a: byte): sextet { a / 4 }
  function Second(a: byte, b: byte): sextet { (a % 4) * 16 + b / 16 }
  function Third(b: byte, c: byte): sextet { (b % 16) * 4 + c / 64 }
  function Fourth(c: byte): sextet { c % 64 }

  function Byte1(p: sextet, q: sextet): byte { p * 4 + q / 16 }
  function Byte2(q: sextet, r: sextet): byte { (q % 16) * 16 + r / 4 }
  function Byte3(r: sextet, s: sextet): byte { (r % 4) * 64 + s }

  lemma BytesOfSextets(a: byte, b: byte, c: byte)
    ensures Byte1(First(a), Second(a, b)) == a
    ensures Byte2(Second(a, b), Third(b, c)) == b
    ensures Byte3(Third(b, c), Fourth(c)) == c
  {
  }

  lemma SextetsOfBytes(p: sextet, q: sextet, r: sextet, s: sextet)
    ensures First(Byte1(p, q)) == p
    ensures Second(Byte1(p, q), Byte2(q, r)) == q
    ensures Third(Byte2(q, r), Byte3(r, s)) == r
    ensures Fourth(Byte3(r, s)) == s
  {
  }

  // ------------------------------------------------------------------ encoding

  function Encode(url: bool, b: bytes): (s: bytes)
    ensures |s| == |b| / 3 * 4 + (if |b| % 3 == 0 then 0 else |b| % 3 + 1)
  {
    if |b| == 0 then []
    else if |b| == 1 then [CharOf(url, First(b[0])), CharOf(url, Second(b[0], 0))]
    else if |b| == 2 then
      [CharOf(url, First(b[0])), CharOf(url, Second(b[0], b[1])), CharOf(url, Third(b[1], 0))]
    else
      [CharOf(url, First(b[0])), CharOf(url, Second(b[0], b[1])),
       CharOf(url, Third(b[1], b[2])), CharOf(url, Fourth(b[2]))] + Encode(url, b[3..])
  }

  lemma EncodeNothing(url: bool)
    ensures Encode(url, []) == []
  {
  }

  lemma EncodeStep(url: bool, b: bytes)
    requires |b| >= 3
    ensures Encode(url, b)
            == [CharOf(url, First(b[0])), CharOf(url, Second(b[0], b[1])),
                CharOf(url, Third(b[1], b[2])), CharOf(url, Fourth(b[2]))] + Encode(url, b[3..])
  {
  }

  lemma {:induction false} EncodeConcat(url: bool, a: bytes, b: bytes)
    requires |a| % 3 == 0
    ensures Encode(url, a + b) == Encode(url, a) + Encode(url, b)
  {
    hide Encode, CharOf, First, Second, Third, Fourth;
    if a == [] {
      EncodeNothing(url);
      assert a + b == b;
    } else {
      EncodeStep(url, a);
      EncodeStep(url, a + b);
      EncodeConcat(url, a[3..], b);
      assert (a + b)[3..] == a[3..] + b;
    }
  }

  const PAD: byte := 0x3d

  function PadCount(length: nat): (n: nat)
    ensures n <= 2
  {
    (3 - length % 3) % 3
  }

  /** With the padding of section 4. */
  function EncodePadded(b: bytes): (s: bytes)
    ensures |s| == (|b| + 2) / 3 * 4
  {
    Encode(false, b) + [PAD, PAD][..PadCount(|b|)]
  }

  lemma PadCountAdds(m: nat, n: nat)
    requires m % 3 == 0
    ensures PadCount(m) == 0 && PadCount(m + n) == PadCount(n)
  {
  }

  lemma EncodePaddedConcat(a: bytes, b: bytes)
    requires |a| % 3 == 0
    ensures EncodePadded(a + b) == EncodePadded(a) + EncodePadded(b)
  {
    hide Encode, PadCount;
    EncodeConcat(false, a, b);
    PadCountAdds(|a|, |b|);
    var tail := [PAD, PAD][..PadCount(|b|)];
    assert Encode(false, a) + [] == Encode(false, a);
    assert (Encode(false, a) + Encode(false, b)) + tail == Encode(false, a) + (Encode(false, b) + tail);
  }

  // ------------------------------------------------------------------ decoding

  datatype DecodeError = InvalidLength | InvalidCharacter | NonCanonicalTrailingBits

  datatype Decoded = Ok(value: bytes) | Err(error: DecodeError)

  /** Four characters make three bytes. */
  function Group(c0: byte, c1: byte, c2: byte, c3: byte): (r: Option<bytes>)
    ensures r.Some? ==> |r.value| == 3
  {
    var p, q, r, t := SextetOf(true, c0), SextetOf(true, c1), SextetOf(true, c2), SextetOf(true, c3);
    if p.None? || q.None? || r.None? || t.None? then None
    else Some([Byte1(p.value, q.value), Byte2(q.value, r.value), Byte3(r.value, t.value)])
  }

  /** decodeBase64UrlNoPadding() on a text whose length is possible. */
  function DecodeGroups(s: bytes): Decoded
    requires |s| % 4 != 1
  {
    if |s| == 0 then Ok([])
    else if |s| == 2 then
      var p, q := SextetOf(true, s[0]), SextetOf(true, s[1]);
      if p.None? || q.None? then Err(InvalidCharacter)
      else if q.value % 16 != 0 then Err(NonCanonicalTrailingBits)
      else Ok([Byte1(p.value, q.value)])
    else if |s| == 3 then
      var p, q, r := SextetOf(true, s[0]), SextetOf(true, s[1]), SextetOf(true, s[2]);
      if p.None? || q.None? || r.None? then Err(InvalidCharacter)
      else if r.value % 4 != 0 then Err(NonCanonicalTrailingBits)
      else Ok([Byte1(p.value, q.value), Byte2(q.value, r.value)])
    else
      var group := Group(s[0], s[1], s[2], s[3]);
      if group.None? then Err(InvalidCharacter) else Prepend(group.value, DecodeGroups(s[4..]))
  }

  function Prepend(b: bytes, d: Decoded): Decoded {
    match d
    case Ok(rest) => Ok(b + rest)
    case Err(e) => Err(e)
  }

  function Decode(s: bytes): Decoded {
    if |s| % 4 == 1 then Err(InvalidLength) else DecodeGroups(s)
  }

  lemma {:induction false} DecodeOfEncode(b: bytes)
    ensures Decode(Encode(true, b)) == Ok(b)
  {
    hide SextetOf, CharOf, First, Second, Third, Fourth, Byte1, Byte2, Byte3;
    var s := Encode(true, b);
    if |b| == 1 {
      TailOfOne(b[0]);
    } else if |b| == 2 {
      TailOfTwo(b[0], b[1]);
    } else if |b| >= 3 {
      DecodeOfEncode(b[3..]);
      assert s[4..] == Encode(true, b[3..]);
      DecodesTriple(b[0], b[1], b[2], Encode(true, b[3..]));
      assert b == [b[0], b[1], b[2]] + b[3..];
    }
  }

  lemma DecodesTriple(x: byte, y: byte, z: byte, text: bytes)
    ensures Decode(text).Ok? ==>
              Decode([CharOf(true, First(x)), CharOf(true, Second(x, y)), CharOf(true, Third(y, z)),
                      CharOf(true, Fourth(z))] + text) == Ok([x, y, z] + Decode(text).value)
  {
    hide SextetOf, CharOf, First, Second, Third, Fourth, Byte1, Byte2, Byte3;
    var four := [CharOf(true, First(x)), CharOf(true, Second(x, y)), CharOf(true, Third(y, z)),
                 CharOf(true, Fourth(z))];
    assert (four + text)[4..] == text;
    SextetOfChar(true, First(x));
    SextetOfChar(true, Second(x, y));
    SextetOfChar(true, Third(y, z));
    SextetOfChar(true, Fourth(z));
    BytesOfSextets(x, y, z);
  }

  lemma TailOfOne(a: byte)
    ensures Decode([CharOf(true, First(a)), CharOf(true, Second(a, 0))]) == Ok([a])
  {
    SextetOfChar(true, First(a));
    SextetOfChar(true, Second(a, 0));
    hide SextetOf, CharOf;
  }

  lemma TailOfTwo(a: byte, b: byte)
    ensures Decode([CharOf(true, First(a)), CharOf(true, Second(a, b)), CharOf(true, Third(b, 0))]) == Ok([a, b])
  {
    SextetOfChar(true, First(a));
    SextetOfChar(true, Second(a, b));
    SextetOfChar(true, Third(b, 0));
    BytesOfSextets(a, b, 0);
    hide SextetOf, CharOf;
  }

  lemma TwoCharacters(s: bytes)
    requires |s| == 2 && Decode(s).Ok?
    ensures Encode(true, Decode(s).value) == s
  {
    CharOfSextet(true, s[0]);
    CharOfSextet(true, s[1]);
    ZeroTail(SextetOf(true, s[0]).value, SextetOf(true, s[1]).value);
    hide CharOf, SextetOf, First, Second, Byte1;
    assert s == [s[0], s[1]];
  }

  lemma ThreeCharacters(s: bytes)
    requires |s| == 3 && Decode(s).Ok?
    ensures Encode(true, Decode(s).value) == s
  {
    CharOfSextet(true, s[0]);
    CharOfSextet(true, s[1]);
    CharOfSextet(true, s[2]);
    var p, q, r := SextetOf(true, s[0]).value, SextetOf(true, s[1]).value, SextetOf(true, s[2]).value;
    SextetsOfBytes(p, q, r, 0);
    ZeroTail2(q, r);
    hide CharOf, SextetOf, First, Second, Third, Byte1, Byte2;
    assert s == [s[0], s[1], s[2]];
  }

  /** The zero-trailing-bits rule leaves one spelling of every byte string. */
  lemma {:induction false} EncodeOfDecode(s: bytes)
    requires Decode(s).Ok?
    ensures Encode(true, Decode(s).value) == s
  {
    hide Encode, CharOf, SextetOf, First, Second, Third, Fourth, Byte1, Byte2, Byte3;
    if |s| == 0 {
      EncodeNothing(true);
    } else if |s| == 2 {
      TwoCharacters(s);
    } else if |s| == 3 {
      ThreeCharacters(s);
    } else if |s| >= 4 {
      var p, q, r, t := SextetOf(true, s[0]).value, SextetOf(true, s[1]).value,
                        SextetOf(true, s[2]).value, SextetOf(true, s[3]).value;
      EncodeOfDecode(s[4..]);
      SextetsOfBytes(p, q, r, t);
      CharOfSextet(true, s[0]);
      CharOfSextet(true, s[1]);
      CharOfSextet(true, s[2]);
      CharOfSextet(true, s[3]);
      var rest := Decode(s[4..]).value;
      var three := [Byte1(p, q), Byte2(q, r), Byte3(r, t)];
      assert (three + rest)[3..] == rest;
      EncodeStep(true, three + rest);
      assert s == [s[0], s[1], s[2], s[3]] + s[4..];
    }
  }

  lemma EncodeThree(url: bool, b: bytes)
    requires |b| == 3
    ensures Encode(url, b) == [CharOf(url, First(b[0])), CharOf(url, Second(b[0], b[1])),
                               CharOf(url, Third(b[1], b[2])), CharOf(url, Fourth(b[2]))]
  {
    assert b[3..] == [];
  }

  lemma ZeroTail(p: sextet, q: sextet)
    requires q % 16 == 0
    ensures First(Byte1(p, q)) == p && Second(Byte1(p, q), 0) == q
  {
  }

  lemma ZeroTail2(q: sextet, r: sextet)
    requires r % 4 == 0
    ensures Third(Byte2(q, r), 0) == r
  {
  }

  /** Both directions at once: decoding accepts exactly the encodings. */
  lemma DecodeIsInverse(s: bytes, b: bytes)
    ensures Decode(s) == Ok(b) <==> s == Encode(true, b)
  {
    DecodeOfEncode(b);
    if Decode(s) == Ok(b) {
      EncodeOfDecode(s);
    }
  }

  // ------------------------------------------------------------ the C++ loops

  /** encodeBase64(): into a buffer, with padding; 0 when it does not fit. */
  method EncodeBase64(source: bytes, destination: array<byte>) returns (output: nat)
    modifies destination
    ensures output == if (|source| + 2) / 3 * 4 > destination.Length then 0 else (|source| + 2) / 3 * 4
    ensures (|source| + 2) / 3 * 4 <= destination.Length ==> destination[..output] == EncodePadded(source)
  {
    hide Encode, EncodePadded, PadCount;
    if (|source| + 2) / 3 * 4 > destination.Length {
      return 0;
    }
    var input := 0;
    output := 0;
    assert source[..0] == [] && Encode(false, []) == [] by { EncodeNothing(false); }
    ghost var k := 0;
    while input + 3 <= |source|
      invariant input == 3 * k <= |source| && output == 4 * k
      invariant destination[..output] == Encode(false, source[..input])
    {
      EncodeRoom(|source|, k);
      EncodeGroup(source[input..input + 3], destination, output);
      EncodeConcat(false, source[..input], source[input..input + 3]);
      assert source[..input + 3] == source[..input] + source[input..input + 3];
      input, output, k := input + 3, output + 4, k + 1;
    }
    EncodeRoom(|source|, k);
    EncodePaddedTail(source, input);
    var n := EncodeTail(source[input..], destination, output);
    output := output + n;
  }

  lemma EncodePaddedTail(source: bytes, input: nat)
    requires input <= |source| && input % 3 == 0
    ensures Encode(false, source[..input]) + EncodePadded(source[input..]) == EncodePadded(source)
  {
    assert source == source[..input] + source[input..];
    EncodePaddedConcat(source[..input], source[input..]);
    assert PadCount(input) == 0;
  }

  method EncodeGroup(b: bytes, destination: array<byte>, at: nat)
    requires |b| == 3 && at + 4 <= destination.Length
    modifies destination
    ensures destination[..at + 4] == old(destination[..at]) + Encode(false, b)
  {
    hide CharOf, First, Second, Third, Fourth;
    EncodeThree(false, b);
    destination[at] := CharOf(false, First(b[0]));
    destination[at + 1] := CharOf(false, Second(b[0], b[1]));
    destination[at + 2] := CharOf(false, Third(b[1], b[2]));
    destination[at + 3] := CharOf(false, Fourth(b[2]));
    assert destination[at..at + 4] == Encode(false, b);
    assert destination[..at + 4] == destination[..at] + destination[at..at + 4];
  }

  /** The last one or two bytes. */
  method EncodeTail(tail: bytes, destination: array<byte>, at: nat) returns (n: nat)
    requires |tail| < 3 && at + (|tail| + 2) / 3 * 4 <= destination.Length
    modifies destination
    ensures n == (|tail| + 2) / 3 * 4
    ensures destination[..at + n] == old(destination[..at]) + EncodePadded(tail)
  {
    hide CharOf, First, Second, Third, Fourth;
    if |tail| == 1 {
      destination[at] := CharOf(false, First(tail[0]));
      destination[at + 1] := CharOf(false, Second(tail[0], 0));
      destination[at + 2] := PAD;
      destination[at + 3] := PAD;
      assert destination[at..at + 4] == EncodePadded(tail);
      return 4;
    } else if |tail| == 2 {
      destination[at] := CharOf(false, First(tail[0]));
      destination[at + 1] := CharOf(false, Second(tail[0], tail[1]));
      destination[at + 2] := CharOf(false, Third(tail[1], 0));
      destination[at + 3] := PAD;
      assert destination[at..at + 4] == EncodePadded(tail);
      return 4;
    }
    return 0;
  }

  datatype Base64UrlError =
    | UrlOk | UrlInvalidLength | UrlInvalidCharacter | UrlNonCanonicalTrailingBits | UrlOutputTooSmall

  function ErrorOf(d: Decoded): Base64UrlError {
    match d
    case Ok(_) => UrlOk
    case Err(InvalidLength) => UrlInvalidLength
    case Err(InvalidCharacter) => UrlInvalidCharacter
    case Err(NonCanonicalTrailingBits) => UrlNonCanonicalTrailingBits
  }

  lemma PrependTwice(a: bytes, b: bytes, d: Decoded)
    ensures Prepend(a, Prepend(b, d)) == Prepend(a + b, d)
  {
    if d.Ok? {
      assert a + (b + d.value) == a + b + d.value;
    }
  }

  /** The loop over whole groups: `k` of them before anything is left, or failure. */
  method DecodeWhole(input: bytes, output: array<byte>) returns (ok: bool, k: nat)
    requires |input| % 4 != 1 && DecodedLength(|input|) <= output.Length
    modifies output
    ensures !ok ==> DecodeGroups(input) == Err(InvalidCharacter)
    ensures ok ==> && 4 * k <= |input| < 4 * k + 4 && 3 * k <= output.Length
                   && DecodeGroups(input) == Prepend(output[..3 * k], DecodeGroups(input[4 * k..]))
  {
    hide Group, DecodeGroups, Prepend, DecodedLength;
    PrependNothing(DecodeGroups(input));
    assert input[0..] == input && output[..0] == [];
    DecodeRoom(|input|, 0);
    k := 0;
    while |input| - 4 * k >= 4
      invariant 4 * k <= |input| && 3 * k <= output.Length
      invariant DecodeGroups(input) == Prepend(output[..3 * k], DecodeGroups(input[4 * k..]))
    {
      ghost var done, rest := output[..3 * k], input[4 * k..];
      DecodeRoom(|input|, k);
      DecodeGroupsStep(rest);
      ok := DecodeGroup(input[4 * k], input[4 * k + 1], input[4 * k + 2], input[4 * k + 3], output, 3 * k);
      if !ok {
        PrependError(done, InvalidCharacter);
        return false, k;
      }
      PrependTwice(done, Group(rest[0], rest[1], rest[2], rest[3]).value, DecodeGroups(rest[4..]));
      assert rest[4..] == input[4 * (k + 1)..];
      k := k + 1;
    }
    return true, k;
  }

  lemma PrependError(b: bytes, e: DecodeError)
    ensures Prepend(b, Err(e)) == Err(e)
  {
  }

  lemma PrependKeepsError(b: bytes, d: Decoded)
    ensures ErrorOf(Prepend(b, d)) == ErrorOf(d)
  {
  }

  /** decodeBase64UrlNoPadding(). The length and the capacity are judged first. */
  method DecodeBase64Url(input: bytes, output: array<byte>) returns (r: Base64UrlError, length: nat)
    modifies output
    ensures r == if |input| % 4 == 1 then UrlInvalidLength
                 else if output.Length < DecodedLength(|input|) then UrlOutputTooSmall
                 else ErrorOf(Decode(input))
    ensures r == UrlOk ==> length <= output.Length && Decode(input) == Ok(output[..length])
  {
    hide DecodeGroups, Prepend, DecodedLength;
    if |input| % 4 == 1 {
      return UrlInvalidLength, 0;
    }
    if output.Length < DecodedLength(|input|) {
      return UrlOutputTooSmall, 0;
    }
    var ok, k := DecodeWhole(input, output);
    if !ok {
      return UrlInvalidCharacter, 0;
    }
    DecodeRoom(|input|, k);
    PrependKeepsError(output[..3 * k], DecodeGroups(input[4 * k..]));
    var n;
    r, n := DecodeTail(input[4 * k..], output, 3 * k);
    length := if r == UrlOk then 3 * k + n else 0;
  }

  lemma DecodeRoom(n: nat, k: nat)
    requires 4 * k <= n && n % 4 != 1
    ensures n - 4 * k >= 4 ==> 3 * k + 3 <= DecodedLength(n)
    ensures n - 4 * k < 4 ==> n - 4 * k in {0, 2, 3} && 3 * k + DecodedLength(n - 4 * k) == DecodedLength(n)
    ensures (n - 4 * k) % 4 == n % 4
  {
    assert (n - 4 * k) / 4 == n / 4 - k;
  }

  lemma EncodeRoom(n: nat, k: nat)
    requires 3 * k <= n
    ensures n - 3 * k >= 3 ==> 4 * k + 4 <= (n + 2) / 3 * 4
    ensures n - 3 * k < 3 ==> 4 * k + (n - 3 * k + 2) / 3 * 4 == (n + 2) / 3 * 4
  {
    assert (n - 3 * k + 2) / 3 == (n + 2) / 3 - k;
  }

  lemma PrependNothing(d: Decoded)
    ensures Prepend([], d) == d
  {
    if d.Ok? {
      assert [] + d.value == d.value;
    }
  }

  lemma DecodeGroupsStep(s: bytes)
    requires |s| >= 4 && |s| % 4 != 1
    ensures Group(s[0], s[1], s[2], s[3]).None? ==> DecodeGroups(s) == Err(InvalidCharacter)
    ensures Group(s[0], s[1], s[2], s[3]).Some? ==>
              DecodeGroups(s) == Prepend(Group(s[0], s[1], s[2], s[3]).value, DecodeGroups(s[4..]))
  {
  }

  method DecodeGroup(c0: byte, c1: byte, c2: byte, c3: byte, output: array<byte>, at: nat) returns (ok: bool)
    requires at + 3 <= output.Length
    modifies output
    ensures ok == Group(c0, c1, c2, c3).Some?
    ensures ok ==> output[..at + 3] == old(output[..at]) + Group(c0, c1, c2, c3).value
  {
    hide SextetOf, CharOf, Byte1, Byte2, Byte3;
    var p, q, r, t := SextetOf(true, c0), SextetOf(true, c1), SextetOf(true, c2), SextetOf(true, c3);
    if p.None? || q.None? || r.None? || t.None? {
      return false;
    }
    output[at] := Byte1(p.value, q.value);
    output[at + 1] := Byte2(q.value, r.value);
    output[at + 2] := Byte3(r.value, t.value);
    assert output[at..at + 3] == Group(c0, c1, c2, c3).value;
    assert output[..at + 3] == output[..at] + output[at..at + 3];
    return true;
  }

  /** The last two or three characters. */
  method DecodeTail(tail: bytes, output: array<byte>, at: nat) returns (r: Base64UrlError, n: nat)
    requires |tail| in {0, 2, 3} && at + DecodedLength(|tail|) <= output.Length
    modifies output
    ensures r == ErrorOf(DecodeGroups(tail))
    ensures r == UrlOk ==> n == DecodedLength(|tail|)
                           && Prepend(old(output[..at]), DecodeGroups(tail)) == Ok(output[..at + n])
  {
    hide SextetOf, CharOf, Byte1, Byte2, Byte3;
    if |tail| == 0 {
      return UrlOk, 0;
    }
    var p, q := SextetOf(true, tail[0]), SextetOf(true, tail[1]);
    var s := if |tail| == 3 then SextetOf(true, tail[2]) else Some(0);
    if p.None? || q.None? || s.None? {
      return UrlInvalidCharacter, 0;
    }
    if |tail| == 2 {
      if q.value % 16 != 0 {
        return UrlNonCanonicalTrailingBits, 0;
      }
      output[at] := Byte1(p.value, q.value);
      assert output[..at + 1] == old(output[..at]) + [output[at]];
      return UrlOk, 1;
    }
    if s.value % 4 != 0 {
      return UrlNonCanonicalTrailingBits, 0;
    }
    output[at] := Byte1(p.value, q.value);
    output[at + 1] := Byte2(q.value, s.value);
    assert output[..at + 2] == old(output[..at]) + [output[at], output[at + 1]];
    return UrlOk, 2;
  }

  function DecodedLength(n: nat): nat {
    n / 4 * 3 + (if n % 4 == 2 then 1 else if n % 4 == 3 then 2 else 0)
  }
}
