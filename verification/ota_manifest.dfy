/** The canonical binary release manifest (src/ota_manifest.cpp). */
module OtaManifests {
  import opened Bytes
  import opened Wire
  import opened OtaInstallState

  const HEADER_SIZE := 8
  const MAXIMUM_SIZE := 320
  const HARDWARE_MAXIMUM := 48
  const FIRMWARE_VERSION_MAXIMUM := 32
  const BUILD_ID_MAXIMUM := 64
  const SIGNING_KEY_ID_MAXIMUM := 32
  const FIRMWARE_MAXIMUM_SIZE := 0x64_0000
  const ELF_MAXIMUM_SIZE := 0x400_0000

  datatype OtaManifest = OtaManifest(
    hardware: string, firmwareVersion: string, releaseCounter: nat, buildId: string, signingKeyId: string,
    firmwareSize: nat, firmwareSha256: Digest, elfSize: nat, elfSha256: Digest)
  {
    predicate InRange() {
      && CanonicalField(hardware, HARDWARE_MAXIMUM)
      && CanonicalField(firmwareVersion, FIRMWARE_VERSION_MAXIMUM)
      && 0 < releaseCounter <= MAXIMUM_RELEASE_COUNTER
      && CanonicalField(buildId, BUILD_ID_MAXIMUM)
      && CanonicalField(signingKeyId, SIGNING_KEY_ID_MAXIMUM)
      && 0 < firmwareSize <= FIRMWARE_MAXIMUM_SIZE
      && 0 < elfSize <= ELF_MAXIMUM_SIZE
    }
  }

  datatype ParseError =
    | LengthOutOfRange | BadMagic | UnsupportedManifestVersion | UnsupportedSignatureVersion
    | TotalLengthMismatch | Truncated | StringLengthOutOfRange | NonCanonicalString
    | ReleaseCounterOutOfRange | FirmwareSizeOutOfRange | ElfSizeOutOfRange
    | DigestLengthMismatch | TrailingData

  datatype Result<+T> = Ok(value: T) | Err(error: ParseError)

  predicate CanonicalField(s: string, maximum: nat) {
    0 < |s| <= maximum && forall i :: 0 <= i < |s| ==> CanonicalByte(s[i], false)
  }

  predicate CanonicalBytes(b: bytes) {
    forall i :: 0 <= i < |b| ==> CanonicalByte(b[i] as char, false)
  }

  // ------------------------------------------------------------- one spelling

  function PutText(s: string): bytes
    requires IsAscii(s)
  {
    PutBe(|s|, 2) + ToBytes(s)
  }

  lemma CanonicalIsAscii(s: string, maximum: nat)
    requires CanonicalField(s, maximum)
    ensures IsAscii(s)
  {
    forall i | 0 <= i < |s| ensures 0 < s[i] as int < 128 {
      assert CanonicalByte(s[i], false);
    }
  }

  function Tail5(m: OtaManifest): bytes { PutBe(m.elfSize, 4) + (PutBe(DIGEST_SIZE, 2) + m.elfSha256) }

  function Tail4(m: OtaManifest): bytes {
    PutBe(m.firmwareSize, 4) + (PutBe(DIGEST_SIZE, 2) + m.firmwareSha256 + Tail5(m))
  }

  function Tail3(m: OtaManifest): bytes
    requires m.InRange()
  {
    CanonicalIsAscii(m.buildId, BUILD_ID_MAXIMUM);
    CanonicalIsAscii(m.signingKeyId, SIGNING_KEY_ID_MAXIMUM);
    PutText(m.buildId) + (PutText(m.signingKeyId) + Tail4(m))
  }

  function Body(m: OtaManifest): bytes
    requires m.InRange()
  {
    CanonicalIsAscii(m.hardware, HARDWARE_MAXIMUM);
    CanonicalIsAscii(m.firmwareVersion, FIRMWARE_VERSION_MAXIMUM);
    PutText(m.hardware) + (PutText(m.firmwareVersion) + (PutBe(m.releaseCounter, 8) + Tail3(m)))
  }

  /** The wire form that the packager signs. */
  function Serialize(m: OtaManifest): bytes
    requires m.InRange()
  {
    [0x4d, 0x35, 0x4f, 0x54, 1, 1] + PutBe(HEADER_SIZE + |Body(m)|, 2) + Body(m)
  }

  // -------------------------------------------------------------- the reading

  /** A field, and what follows it. */
  datatype Read<+T> = Got(value: T, rest: bytes) | Stop(error: ParseError)

  function ReadNumber(s: bytes, n: nat): Read<nat> {
    if |s| < n then Stop(Truncated) else Got(GetBe(s[..n]), s[n..])
  }

  function ReadText(s: bytes, maximum: nat): Read<string> {
    match ReadNumber(s, 2)
    case Stop(e) => Stop(e)
    case Got(length, rest) =>
      if length == 0 || length > maximum then Stop(StringLengthOutOfRange)
      else if |rest| < length then Stop(Truncated)
      else if !CanonicalBytes(rest[..length]) then Stop(NonCanonicalString)
      else Got(FromBytes(rest[..length]), rest[length..])
  }

  function ReadDigest(s: bytes): Read<Digest> {
    match ReadNumber(s, 2)
    case Stop(e) => Stop(e)
    case Got(length, rest) =>
      if length != DIGEST_SIZE then Stop(DigestLengthMismatch)
      else if |rest| < DIGEST_SIZE then Stop(Truncated)
      else Got(rest[..DIGEST_SIZE], rest[DIGEST_SIZE..])
  }

  function ReadBounded(s: bytes, n: nat, maximum: nat, error: ParseError): Read<nat> {
    match ReadNumber(s, n)
    case Stop(e) => Stop(e)
    case Got(value, rest) => if value == 0 || value > maximum then Stop(error) else Got(value, rest)
  }

  lemma NumberForward(v: nat, n: nat, rest: bytes)
    requires v < Pow256(n)
    ensures ReadNumber(PutBe(v, n) + rest, n) == Got(v, rest)
  {
    GetBeOfPut(v, n);
    assert (PutBe(v, n) + rest)[..n] == PutBe(v, n) && (PutBe(v, n) + rest)[n..] == rest;
  }

  lemma NumberBackward(s: bytes, n: nat)
    requires ReadNumber(s, n).Got?
    ensures ReadNumber(s, n).value < Pow256(n)
    ensures PutBe(ReadNumber(s, n).value, n) + ReadNumber(s, n).rest == s
  {
    hide Pow256, PutBe;
    var head := s[..n];
    PutBeOfGet(head);
    assert |head| == n && GetBe(head) < Pow256(|head|);
    assert head + s[n..] == s;
  }

  lemma TextForward(text: string, maximum: nat, rest: bytes)
    requires CanonicalField(text, maximum) && IsAscii(text) && maximum < 0x1_0000
    ensures ReadText(PutText(text) + rest, maximum) == Got(text, rest)
  {
    hide PutBe, GetBe;
    PowValues();
    var s, tail := PutText(text) + rest, ToBytes(text) + rest;
    assert s == PutBe(|text|, 2) + tail;
    NumberForward(|text|, 2, tail);
    assert tail[..|text|] == ToBytes(text) && tail[|text|..] == rest;
    FromOfTo(text);
    forall i | 0 <= i < |text| ensures CanonicalByte(ToBytes(text)[i] as char, false) {
      assert ToBytes(text)[i] as char == text[i];
    }
  }

  lemma TextBackward(s: bytes, maximum: nat)
    requires ReadText(s, maximum).Got?
    ensures var text := ReadText(s, maximum).value;
            && CanonicalField(text, maximum) && IsAscii(text)
            && PutText(text) + ReadText(s, maximum).rest == s
  {
    hide PutBe, GetBe;
    NumberBackward(s, 2);
    var rest := ReadNumber(s, 2).rest;
    var length := ReadNumber(s, 2).value;
    var text := FromBytes(rest[..length]);
    forall i | 0 <= i < |text| ensures CanonicalByte(text[i], false) {
      assert CanonicalByte(rest[..length][i] as char, false);
    }
    CanonicalIsAscii(text, maximum);
    assert ToBytes(text) == rest[..length];
    assert rest == rest[..length] + rest[length..];
  }

  lemma DigestForward(d: Digest, rest: bytes)
    ensures ReadDigest(PutBe(DIGEST_SIZE, 2) + d + rest) == Got(d, rest)
  {
    hide PutBe, GetBe;
    PowValues();
    NumberForward(DIGEST_SIZE, 2, d + rest);
    assert PutBe(DIGEST_SIZE, 2) + d + rest == PutBe(DIGEST_SIZE, 2) + (d + rest);
    assert (d + rest)[..DIGEST_SIZE] == d && (d + rest)[DIGEST_SIZE..] == rest;
  }

  lemma DigestBackward(s: bytes)
    requires ReadDigest(s).Got?
    ensures PutBe(DIGEST_SIZE, 2) + ReadDigest(s).value + ReadDigest(s).rest == s
  {
    hide PutBe, GetBe;
    NumberBackward(s, 2);
    var rest := ReadNumber(s, 2).rest;
    assert rest == rest[..DIGEST_SIZE] + rest[DIGEST_SIZE..];
  }

  // ------------------------------------------------------------------ parsing

  datatype Names = Names(hardware: string, firmwareVersion: string, releaseCounter: nat)

  function ReadNames(s: bytes): Read<Names> {
    match ReadText(s, HARDWARE_MAXIMUM)
    case Stop(e) => Stop(e)
    case Got(hardware, s1) =>
      match ReadText(s1, FIRMWARE_VERSION_MAXIMUM)
      case Stop(e) => Stop(e)
      case Got(version, s2) =>
        match ReadBounded(s2, 8, MAXIMUM_RELEASE_COUNTER, ReleaseCounterOutOfRange)
        case Stop(e) => Stop(e)
        case Got(counter, s3) => Got(Names(hardware, version, counter), s3)
  }

  datatype Image = Image(size: nat, sha256: Digest)

  function ReadImage(s: bytes, maximum: nat, error: ParseError): Read<Image> {
    match ReadBounded(s, 4, maximum, error)
    case Stop(e) => Stop(e)
    case Got(size, s1) =>
      match ReadDigest(s1)
      case Stop(e) => Stop(e)
      case Got(digest, s2) => Got(Image(size, digest), s2)
  }

  function ReadBody(s: bytes): Read<OtaManifest> {
    match ReadNames(s)
    case Stop(e) => Stop(e)
    case Got(names, s3) =>
      match ReadText(s3, BUILD_ID_MAXIMUM)
      case Stop(e) => Stop(e)
      case Got(buildId, s4) =>
        match ReadText(s4, SIGNING_KEY_ID_MAXIMUM)
        case Stop(e) => Stop(e)
        case Got(key, s5) =>
          match ReadImage(s5, FIRMWARE_MAXIMUM_SIZE, FirmwareSizeOutOfRange)
          case Stop(e) => Stop(e)
          case Got(firmware, s6) =>
            match ReadImage(s6, ELF_MAXIMUM_SIZE, ElfSizeOutOfRange)
            case Stop(e) => Stop(e)
            case Got(elf, s7) =>
              Got(OtaManifest(names.hardware, names.firmwareVersion, names.releaseCounter, buildId, key,
                              firmware.size, firmware.sha256, elf.size, elf.sha256), s7)
  }

  /** parseOtaManifest(). */
  function Parse(b: bytes): Result<OtaManifest> {
    if |b| < HEADER_SIZE || |b| > MAXIMUM_SIZE then Err(LengthOutOfRange)
    else if b[..4] != [0x4d, 0x35, 0x4f, 0x54] then Err(BadMagic)
    else if b[4] != 1 then Err(UnsupportedManifestVersion)
    else if b[5] != 1 then Err(UnsupportedSignatureVersion)
    else if GetBe(b[6..8]) != |b| then Err(TotalLengthMismatch)
    else
      match ReadBody(b[HEADER_SIZE..])
      case Stop(e) => Err(e)
      case Got(m, rest) => if rest != [] then Err(TrailingData) else Ok(m)
  }

  lemma ImageForward(size: nat, digest: Digest, maximum: nat, error: ParseError, rest: bytes)
    requires 0 < size <= maximum < U32_LIMIT
    ensures ReadImage(PutBe(size, 4) + (PutBe(DIGEST_SIZE, 2) + digest + rest), maximum, error)
            == Got(Image(size, digest), rest)
  {
    PowValues();
    hide PutBe, GetBe, ReadNumber, ReadDigest;
    NumberForward(size, 4, PutBe(DIGEST_SIZE, 2) + digest + rest);
    DigestForward(digest, rest);
  }

  lemma ImageBackward(s: bytes, maximum: nat, error: ParseError)
    requires ReadImage(s, maximum, error).Got?
    ensures var r := ReadImage(s, maximum, error);
            && 0 < r.value.size <= maximum
            && PutBe(r.value.size, 4) + (PutBe(DIGEST_SIZE, 2) + r.value.sha256 + r.rest) == s
  {
    hide PutBe, GetBe;
    NumberBackward(s, 4);
    DigestBackward(ReadNumber(s, 4).rest);
  }

  lemma BodyForward(m: OtaManifest)
    requires m.InRange()
    ensures ReadBody(Body(m)) == Got(m, [])
  {
    PowValues();
    hide PutBe, GetBe, ReadNumber, ReadText, ReadImage, CanonicalField;
    CanonicalIsAscii(m.hardware, HARDWARE_MAXIMUM);
    CanonicalIsAscii(m.firmwareVersion, FIRMWARE_VERSION_MAXIMUM);
    CanonicalIsAscii(m.buildId, BUILD_ID_MAXIMUM);
    CanonicalIsAscii(m.signingKeyId, SIGNING_KEY_ID_MAXIMUM);
    TextForward(m.hardware, HARDWARE_MAXIMUM,
                PutText(m.firmwareVersion) + (PutBe(m.releaseCounter, 8) + Tail3(m)));
    TextForward(m.firmwareVersion, FIRMWARE_VERSION_MAXIMUM, PutBe(m.releaseCounter, 8) + Tail3(m));
    NumberForward(m.releaseCounter, 8, Tail3(m));
    TextForward(m.buildId, BUILD_ID_MAXIMUM, PutText(m.signingKeyId) + Tail4(m));
    TextForward(m.signingKeyId, SIGNING_KEY_ID_MAXIMUM, Tail4(m));
    ImageForward(m.firmwareSize, m.firmwareSha256, FIRMWARE_MAXIMUM_SIZE, FirmwareSizeOutOfRange, Tail5(m));
    ImageForward(m.elfSize, m.elfSha256, ELF_MAXIMUM_SIZE, ElfSizeOutOfRange, []);
    assert PutBe(DIGEST_SIZE, 2) + m.elfSha256 + [] == PutBe(DIGEST_SIZE, 2) + m.elfSha256;
  }

  lemma BodyBackward(s: bytes)
    requires ReadBody(s).Got? && ReadBody(s).rest == []
    ensures ReadBody(s).value.InRange() && Body(ReadBody(s).value) == s
  {
    hide PutBe, GetBe, ReadText, ReadImage, CanonicalField, PutText;
    var m := ReadBody(s).value;
    TextBackward(s, HARDWARE_MAXIMUM);
    var s1 := ReadText(s, HARDWARE_MAXIMUM).rest;
    TextBackward(s1, FIRMWARE_VERSION_MAXIMUM);
    var s2 := ReadText(s1, FIRMWARE_VERSION_MAXIMUM).rest;
    NumberBackward(s2, 8);
    var s3 := ReadNumber(s2, 8).rest;
    TextBackward(s3, BUILD_ID_MAXIMUM);
    var s4 := ReadText(s3, BUILD_ID_MAXIMUM).rest;
    TextBackward(s4, SIGNING_KEY_ID_MAXIMUM);
    var s5 := ReadText(s4, SIGNING_KEY_ID_MAXIMUM).rest;
    ImageBackward(s5, FIRMWARE_MAXIMUM_SIZE, FirmwareSizeOutOfRange);
    var s6 := ReadImage(s5, FIRMWARE_MAXIMUM_SIZE, FirmwareSizeOutOfRange).rest;
    ImageBackward(s6, ELF_MAXIMUM_SIZE, ElfSizeOutOfRange);
    assert PutBe(DIGEST_SIZE, 2) + m.elfSha256 + [] == PutBe(DIGEST_SIZE, 2) + m.elfSha256;
  }

  lemma BodyFits(m: OtaManifest)
    requires m.InRange()
    ensures HEADER_SIZE + |Body(m)| <= MAXIMUM_SIZE
  {
    hide PutBe;
  }

  lemma Sliced(head: bytes, length: bytes, body: bytes)
    requires |head| == 6 && |length| == 2
    ensures var b := head + length + body;
            && |b| == HEADER_SIZE + |body| && b[..4] == head[..4] && b[4] == head[4] && b[5] == head[5]
            && b[6..8] == length && b[HEADER_SIZE..] == body
  {
  }

  /** Every manifest in range has a wire form that parses to it ... */
  lemma ParseOfSerialize(m: OtaManifest)
    requires m.InRange()
    ensures Parse(Serialize(m)) == Ok(m)
  {
    hide PutBe, GetBe, Body, ReadBody;
    BodyFits(m);
    BodyForward(m);
    PowValues();
    var size := HEADER_SIZE + |Body(m)|;
    GetBeOfPut(size, 2);
    Sliced([0x4d, 0x35, 0x4f, 0x54, 1, 1], PutBe(size, 2), Body(m));
  }

  /** ... and no other: what is accepted is the wire form of its parse. */
  lemma SerializeOfParse(b: bytes)
    requires Parse(b).Ok?
    ensures Parse(b).value.InRange() && Serialize(Parse(b).value) == b
  {
    hide PutBe, GetBe, Body, ReadBody;
    BodyBackward(b[HEADER_SIZE..]);
    PutBeOfGet(b[6..8]);
    var head := b[..6];
    assert head == [b[0], b[1], b[2], b[3], b[4], b[5]];
    assert b[..4] == [b[0], b[1], b[2], b[3]];
    assert b == head + b[6..8] + b[HEADER_SIZE..];
  }

  /** A signature therefore covers one interpretation only. */
  lemma OneSpelling(a: bytes, b: bytes)
    ensures Parse(a).Ok? && Parse(a) == Parse(b) ==> a == b
  {
    if Parse(a).Ok? && Parse(b).Ok? {
      SerializeOfParse(a);
      SerializeOfParse(b);
    }
  }

  // --------------------------------------------------------- the cursor itself

  class Reader {
    const data: bytes
    var position: nat

    ghost predicate Valid()
      reads this
    {
      position <= |data|
    }

    ghost function Rest(): bytes
      reads this
      requires Valid()
    {
      data[position..]
    }

    constructor (data: bytes)
      requires |data| >= HEADER_SIZE
      ensures this.data == data && Valid() && Rest() == data[HEADER_SIZE..]
    {
      this.data := data;
      position := HEADER_SIZE;
    }

    method ReadU(n: nat) returns (output: Option<nat>)
      requires Valid()
      modifies this
      ensures Valid()
      ensures match ReadNumber(old(Rest()), n)
              case Got(v, rest) => output == Some(v) && Rest() == rest
              case Stop(_) => output == None && Rest() == old(Rest())
    {
      if n > |data| - position {
        return None;
      }
      var value: nat := 0;
      ghost var field := data[position..position + n];
      for index := 0 to n
        invariant value == GetBe(field[..index])
      {
        ghost var longer := field[..index + 1];
        assert longer[..|longer| - 1] == field[..index] && longer[|longer| - 1] == data[position + index];
        value := 256 * value + data[position + index];
      }
      assert field[..n] == field == Rest()[..n];
      position := position + n;
      assert Rest() == old(Rest())[n..];
      return Some(value);
    }

    method ReadTextField(maximum: nat) returns (r: Result<string>)
      requires Valid()
      modifies this
      ensures Valid()
      ensures match ReadText(old(Rest()), maximum)
              case Got(v, rest) => r == Ok(v) && Rest() == rest
              case Stop(e) => r == Err(e)
    {
      hide GetBe, FromBytes, CanonicalByte;
      var length := ReadU(2);
      if length.None? {
        return Err(Truncated);
      }
      var n := length.value;
      if n == 0 || n > maximum {
        return Err(StringLengthOutOfRange);
      }
      if n > |data| - position {
        return Err(Truncated);
      }
      ghost var field := data[position..position + n];
      assert field == Rest()[..n];
      for index := 0 to n
        invariant position == old(position) + 2
        invariant forall i :: 0 <= i < index ==> CanonicalByte(field[i] as char, false)
      {
        if !CanonicalByte(data[position + index] as char, false) {
          assert field[index] == data[position + index];
          return Err(NonCanonicalString);
        }
      }
      position := position + n;
      return Ok(FromBytes(data[position - n..position]));
    }

    method ReadDigestField() returns (r: Result<Digest>)
      requires Valid()
      modifies this
      ensures Valid()
      ensures match ReadDigest(old(Rest()))
              case Got(v, rest) => r == Ok(v) && Rest() == rest
              case Stop(e) => r == Err(e)
    {
      hide GetBe;
      var length := ReadU(2);
      if length.None? {
        return Err(Truncated);
      }
      if length.value != DIGEST_SIZE {
        return Err(DigestLengthMismatch);
      }
      if DIGEST_SIZE > |data| - position {
        return Err(Truncated);
      }
      assert data[position..position + DIGEST_SIZE] == Rest()[..DIGEST_SIZE];
      position := position + DIGEST_SIZE;
      return Ok(data[position - DIGEST_SIZE..position]);
    }

    method ReadBoundedField(n: nat, maximum: nat, error: ParseError) returns (r: Result<nat>)
      requires Valid()
      modifies this
      ensures Valid()
      ensures match ReadBounded(old(Rest()), n, maximum, error)
              case Got(v, rest) => r == Ok(v) && Rest() == rest
              case Stop(e) => r == Err(e)
    {
      hide GetBe;
      var value := ReadU(n);
      if value.None? {
        return Err(Truncated);
      }
      if value.value == 0 || value.value > maximum {
        return Err(error);
      }
      return Ok(value.value);
    }
  }

  method ParseOtaManifest(b: bytes) returns (r: Result<OtaManifest>)
    ensures r == Parse(b)
  {
    hide GetBe, ReadText, ReadNumber, ReadDigest, ReadBounded;
    if |b| < HEADER_SIZE || |b| > MAXIMUM_SIZE { return Err(LengthOutOfRange); }
    if b[..4] != [0x4d, 0x35, 0x4f, 0x54] { return Err(BadMagic); }
    if b[4] != 1 { return Err(UnsupportedManifestVersion); }
    if b[5] != 1 { return Err(UnsupportedSignatureVersion); }
    if GetBe(b[6..8]) != |b| { return Err(TotalLengthMismatch); }
    var reader := new Reader(b);
    var hardware := reader.ReadTextField(HARDWARE_MAXIMUM);
    if hardware.Err? { return Err(hardware.error); }
    var version := reader.ReadTextField(FIRMWARE_VERSION_MAXIMUM);
    if version.Err? { return Err(version.error); }
    var counter := reader.ReadBoundedField(8, MAXIMUM_RELEASE_COUNTER, ReleaseCounterOutOfRange);
    if counter.Err? { return Err(counter.error); }
    var buildId := reader.ReadTextField(BUILD_ID_MAXIMUM);
    if buildId.Err? { return Err(buildId.error); }
    var key := reader.ReadTextField(SIGNING_KEY_ID_MAXIMUM);
    if key.Err? { return Err(key.error); }
    var firmwareSize := reader.ReadBoundedField(4, FIRMWARE_MAXIMUM_SIZE, FirmwareSizeOutOfRange);
    if firmwareSize.Err? { return Err(firmwareSize.error); }
    var firmwareDigest := reader.ReadDigestField();
    if firmwareDigest.Err? { return Err(firmwareDigest.error); }
    var elfSize := reader.ReadBoundedField(4, ELF_MAXIMUM_SIZE, ElfSizeOutOfRange);
    if elfSize.Err? { return Err(elfSize.error); }
    var elfDigest := reader.ReadDigestField();
    if elfDigest.Err? { return Err(elfDigest.error); }
    if reader.position != |b| { return Err(TrailingData); }
    return Ok(OtaManifest(hardware.value, version.value, counter.value, buildId.value, key.value,
                          firmwareSize.value, firmwareDigest.value, elfSize.value, elfDigest.value));
  }
}
