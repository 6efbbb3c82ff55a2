/** The stored form of the install record (src/ota_install_state.cpp): format 3,
  * and the format 2 that the first boot after an upgrade still finds.
  */
module OtaInstallCodec {
  import opened Bytes
  import opened Wire
  import opened OtaInstallState
  import opened DurableRecords

  const STATE_VERSION := 3
  const LEGACY_VERSION := 2
  const STATE_PAYLOAD := 396
  const LEGACY_PAYLOAD := 347

  function StateMagic(): bytes { [0x4d, 0x35, 0x4f, 0x53] }

  function Flag(b: bool, weight: nat): nat {
    if b then weight else 0
  }

  function Flags(s: InstallState): byte {
    Flag(s.pending, 1) + Flag(s.pendingValidated, 2) + Flag(s.pendingImageAccepted, 4) +
    Flag(s.developmentPending, 8) + Flag(s.runningDevelopmentImage, 16)
  }

  /** A length byte in front of a zero-padded text. */
  function TextField(s: string, width: nat): (r: bytes)
    requires IsAscii(s) && |s| <= width < 256
    ensures |r| == width + 1
  {
    [|s|] + Padded(s, width)
  }

  function ReadField(b: bytes, width: nat): (r: Option<string>)
    requires |b| == width + 1
  {
    if b[0] > width then None else Some(UntilNul(FromBytes(b[1..1 + b[0]])))
  }

  lemma FieldRoundTrip(s: string, width: nat)
    requires IsAscii(s) && |s| <= width < 256
    ensures ReadField(TextField(s, width), width) == Some(s)
  {
    PaddedText(s, width);
    var b := TextField(s, width);
    assert b[1..1 + b[0]] == Padded(s, width)[..|s|];
    assert forall i :: 0 <= i < |s| ==> s[i] != '\0';
  }

  /** Valid texts are ASCII and fit their fields. */
  predicate Writable(s: InstallState) {
    && IsAscii(s.confirmedReleaseId) && |s.confirmedReleaseId| <= 48
    && IsAscii(s.confirmedFirmwareVersion) && |s.confirmedFirmwareVersion| <= 32
    && IsAscii(s.confirmedBuildId) && |s.confirmedBuildId| <= 64
    && IsAscii(s.pendingReleaseId) && |s.pendingReleaseId| <= 48
    && IsAscii(s.pendingFirmwareVersion) && |s.pendingFirmwareVersion| <= 32
    && IsAscii(s.pendingBuildId) && |s.pendingBuildId| <= 64
    && IsAscii(s.previousReleaseId) && |s.previousReleaseId| <= 48
    && s.confirmedReleaseCounter < U64_LIMIT && s.pendingReleaseCounter < U64_LIMIT
    && s.pendingPartitionAddress < U32_LIMIT
  }

  lemma CanonicalIsWritable(s: string, capacity: nat, allowEmpty: bool, allowColon: bool)
    requires CanonicalText(s, capacity, allowEmpty, allowColon)
    ensures IsAscii(s)
  {
    forall i | 0 <= i < |s| ensures 0 < s[i] as int < 128 {
      assert CanonicalByte(s[i], allowColon);
    }
  }

  lemma ReleaseIdIsWritable(s: string, allowEmpty: bool)
    requires ReleaseId(s, allowEmpty)
    ensures IsAscii(s) && |s| <= 48
  {
    if s != "" {
      assert s[..4] == "rel-";
      forall i | 0 <= i < |s| ensures 0 < s[i] as int < 128 {
        if i < 4 { assert s[i] == s[..4][i]; } else { assert LowerHex(s[i]); }
      }
    }
  }

  lemma ValidIsWritable(s: InstallState)
    requires IsValid(s)
    ensures Writable(s)
  {
    hide CanonicalText, ReleaseId, IsAscii;
    var empty := s.confirmedReleaseCounter == 0;
    ReleaseIdIsWritable(s.confirmedReleaseId, empty);
    ReleaseIdIsWritable(s.previousReleaseId, true);
    CanonicalIsWritable(s.confirmedFirmwareVersion, FIRMWARE_VERSION_CAPACITY, empty, false);
    CanonicalIsWritable(s.confirmedBuildId, BUILD_ID_CAPACITY, empty, true);
    CanonicalLength(s.confirmedFirmwareVersion, FIRMWARE_VERSION_CAPACITY, empty, false);
    CanonicalLength(s.confirmedBuildId, BUILD_ID_CAPACITY, empty, true);
    EmptyIsAscii();
    if s.pending {
      ReleaseIdIsWritable(s.pendingReleaseId, false);
      CanonicalIsWritable(s.pendingFirmwareVersion, FIRMWARE_VERSION_CAPACITY, false, false);
      CanonicalIsWritable(s.pendingBuildId, BUILD_ID_CAPACITY, false, true);
      CanonicalLength(s.pendingFirmwareVersion, FIRMWARE_VERSION_CAPACITY, false, false);
      CanonicalLength(s.pendingBuildId, BUILD_ID_CAPACITY, false, true);
    }
  }

  lemma CanonicalLength(s: string, capacity: nat, allowEmpty: bool, allowColon: bool)
    requires CanonicalText(s, capacity, allowEmpty, allowColon)
    ensures |s| < capacity
  {
  }

  lemma EmptyIsAscii()
    ensures IsAscii("")
  {
  }

  /** Flags, counters and the two triples of texts: offsets 8 to 318 of the blob. */
  function Triple(release: string, version: string, build: string): (r: bytes)
    requires IsAscii(release) && |release| <= 48 && IsAscii(version) && |version| <= 32
    requires IsAscii(build) && |build| <= 64
    ensures |r| == 147
  {
    TextField(release, 48) + TextField(version, 32) + TextField(build, 64)
  }

  function LegacyBody(s: InstallState): (r: bytes)
    requires Writable(s)
    ensures |r| == LEGACY_PAYLOAD
  {
    [Flags(s)] + PutLe(s.confirmedReleaseCounter, 8) + PutLe(s.pendingReleaseCounter, 8) +
    Triple(s.confirmedReleaseId, s.confirmedFirmwareVersion, s.confirmedBuildId) +
    Triple(s.pendingReleaseId, s.pendingFirmwareVersion, s.pendingBuildId) +
    PutLe(s.pendingPartitionAddress, 4) + s.pendingImageSha256
  }

  function StateBody(s: InstallState): (r: bytes)
    requires Writable(s)
    ensures |r| == STATE_PAYLOAD
  {
    LegacyBody(s) + TextField(s.previousReleaseId, 48)
  }

  function EncodeInstallState(s: InstallState): Option<bytes> {
    if !IsValid(s) then None
    else
      ValidIsWritable(s);
      Some(Seal(StateMagic(), STATE_VERSION, StateBody(s)))
  }

  /** What firmware with format 2 wrote. */
  function LegacyBlob(s: InstallState): bytes
    requires Writable(s)
  {
    Seal(StateMagic(), LEGACY_VERSION, LegacyBody(s))
  }

  datatype Texts = Texts(release: Option<string>, version: Option<string>, build: Option<string>) {
    predicate Complete() {
      release.Some? && version.Some? && build.Some?
    }
  }

  function ReadTriple(b: bytes): Texts
    requires |b| == 147
  {
    Texts(ReadField(b[..49], 48), ReadField(b[49..82], 32), ReadField(b[82..147], 64))
  }

  function DecodeBody(b: bytes, legacy: bool): Decoded<InstallState>
    requires |b| == if legacy then LEGACY_PAYLOAD else STATE_PAYLOAD
  {
    var flags := b[0];
    var confirmed, pending := ReadTriple(b[17..164]), ReadTriple(b[164..311]);
    var previous := if legacy then Some("") else ReadField(b[347..396], 48);
    if flags >= (if legacy then 16 else 32) || !confirmed.Complete() || !pending.Complete() || previous.None?
    then Bad(InvalidRecord)
    else
      var s := InstallState(
        confirmed.release.value, confirmed.version.value, confirmed.build.value, previous.value,
        pending.release.value, pending.version.value, pending.build.value,
        GetLe(b[1..9]), GetLe(b[9..17]),
        flags % 2 == 1, flags / 8 % 2 == 1, flags / 4 % 2 == 1, flags / 2 % 2 == 1, flags / 16 % 2 == 1,
        GetLe(b[311..315]), b[315..347]);
      if IsValid(s) then Good(s) else Bad(InvalidRecord)
  }

  /** decodeOtaInstallState() */
  function DecodeInstallState(blob: bytes): Decoded<InstallState> {
    if |blob| != HEADER_SIZE + LEGACY_PAYLOAD + 4 && |blob| != HEADER_SIZE + STATE_PAYLOAD + 4 then Bad(WrongLength)
    else if blob[..4] != StateMagic() then Bad(BadMagic)
    else
      var version := GetLe(blob[4..6]);
      if version != LEGACY_VERSION && version != STATE_VERSION then Bad(UnsupportedVersion)
      else
        var legacy := version == LEGACY_VERSION;
        match Unseal(StateMagic(), version, if legacy then LEGACY_PAYLOAD else STATE_PAYLOAD, blob)
        case Bad(error) => Bad(if error == WrongLength then BadPayloadLength else error)
        case Good(body) => DecodeBody(body, legacy)
  }

  lemma TripleRoundTrip(release: string, version: string, build: string)
    requires IsAscii(release) && |release| <= 48 && IsAscii(version) && |version| <= 32
    requires IsAscii(build) && |build| <= 64
    ensures ReadTriple(Triple(release, version, build)) == Texts(Some(release), Some(version), Some(build))
  {
    hide TextField, ReadField;
    FieldRoundTrip(release, 48);
    FieldRoundTrip(version, 32);
    FieldRoundTrip(build, 64);
    var b := Triple(release, version, build);
    assert b[..49] == TextField(release, 48);
    assert b[49..82] == TextField(version, 32);
    assert b[82..147] == TextField(build, 64);
  }

  lemma BodyParts(s: InstallState)
    requires Writable(s)
    ensures var b := LegacyBody(s);
            && b[0] == Flags(s) && b[1..9] == PutLe(s.confirmedReleaseCounter, 8)
            && b[9..17] == PutLe(s.pendingReleaseCounter, 8)
            && b[17..164] == Triple(s.confirmedReleaseId, s.confirmedFirmwareVersion, s.confirmedBuildId)
            && b[164..311] == Triple(s.pendingReleaseId, s.pendingFirmwareVersion, s.pendingBuildId)
            && b[311..315] == PutLe(s.pendingPartitionAddress, 4) && b[315..347] == s.pendingImageSha256
  {
    hide PutLe, Triple, Flags;
  }

  lemma FlagsRoundTrip(s: InstallState)
    ensures var f := Flags(s);
            && f < 32 && (!s.runningDevelopmentImage ==> f < 16)
            && (f % 2 == 1 <==> s.pending) && (f / 8 % 2 == 1 <==> s.developmentPending)
            && (f / 4 % 2 == 1 <==> s.pendingImageAccepted) && (f / 2 % 2 == 1 <==> s.pendingValidated)
            && (f / 16 % 2 == 1 <==> s.runningDevelopmentImage)
  {
  }

  lemma DecodeOfBody(s: InstallState, legacy: bool)
    requires IsValid(s) && Writable(s)
    requires legacy ==> s.previousReleaseId == "" && !s.runningDevelopmentImage
    ensures DecodeBody(if legacy then LegacyBody(s) else StateBody(s), legacy) == Good(s)
  {
    hide PutLe, GetLe, Triple, ReadTriple, TextField, ReadField, Flags, LegacyBody, IsValid, IsAscii;
    BodyParts(s);
    FlagsRoundTrip(s);
    TripleRoundTrip(s.confirmedReleaseId, s.confirmedFirmwareVersion, s.confirmedBuildId);
    TripleRoundTrip(s.pendingReleaseId, s.pendingFirmwareVersion, s.pendingBuildId);
    FieldRoundTrip(s.previousReleaseId, 48);
    PowValues();
    GetOfPut(s.confirmedReleaseCounter, 8);
    GetOfPut(s.pendingReleaseCounter, 8);
    GetOfPut(s.pendingPartitionAddress, 4);
    var l, b := LegacyBody(s), StateBody(s);
    assert b[..347] == l && b[347..396] == TextField(s.previousReleaseId, 48);
    assert b[0] == l[0] && b[1..9] == l[1..9] && b[9..17] == l[9..17] && b[17..164] == l[17..164]
        && b[164..311] == l[164..311] && b[311..315] == l[311..315] && b[315..347] == l[315..347];
  }

  /** Every storable record comes back from its blob. */
  lemma InstallStateRoundTrip(s: InstallState)
    requires IsValid(s)
    ensures DecodeInstallState(EncodeInstallState(s).value) == Good(s)
  {
    hide DecodeBody, StateBody, Writable, IsValid, Unseal, Seal, GetLe;
    ValidIsWritable(s);
    DecodeOfBody(s, false);
    UnsealOfSeal(StateMagic(), STATE_VERSION, StateBody(s));
    SealStarts(StateMagic(), STATE_VERSION, StateBody(s));
  }

  lemma SealStarts(magic: bytes, version: nat, body: bytes)
    requires |magic| == 4
    ensures Seal(magic, version, body)[..4] == magic
  {
    hide PutLe, Crc32;
  }

  /** An upgrade keeps the record of the old firmware, its counter included. */
  lemma LegacyRoundTrip(s: InstallState)
    requires IsValid(s) && Writable(s) && s.previousReleaseId == "" && !s.runningDevelopmentImage
    ensures DecodeInstallState(LegacyBlob(s)) == Good(s)
  {
    hide DecodeBody, LegacyBody, Writable, IsValid, Unseal, Seal, GetLe;
    DecodeOfBody(s, true);
    UnsealOfSeal(StateMagic(), LEGACY_VERSION, LegacyBody(s));
    SealStarts(StateMagic(), LEGACY_VERSION, LegacyBody(s));
  }
}
