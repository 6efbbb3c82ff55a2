/** The sealed records kept in NVS: the crash context (src/crash_context.cpp),
  * the command journal (src/command_journal.cpp) and the device configuration
  * (src/device_config_storage.cpp). All three share one envelope: magic, format
  * version, payload length, body, CRC-32.
  */
module DurableRecords {
  import opened Bytes
  import opened Wire

  datatype BlobError =
    | WrongLength | BadMagic | UnsupportedVersion | BadPayloadLength | ChecksumMismatch | InvalidRecord

  datatype Decoded<+T> = Good(value: T) | Bad(error: BlobError)

  // -------------------------------------------------------------- envelope

  const FORMAT_VERSION := 1
  const HEADER_SIZE := 8

  function Header(magic: bytes, version: nat, payload: nat): bytes {
    magic + PutLe(version, 2) + PutLe(payload, 2)
  }

  function Seal(magic: bytes, version: nat, body: bytes): (r: bytes)
    requires |magic| == 4
    ensures |r| == HEADER_SIZE + |body| + 4
  {
    var prefix := Header(magic, version, |body|) + body;
    prefix + PutCrc(Crc32(prefix))
  }

  function Unseal(magic: bytes, version: nat, payload: nat, blob: bytes): (r: Decoded<bytes>)
    requires |magic| == 4
    ensures r.Good? ==> |r.value| == payload
  {
    if |blob| != HEADER_SIZE + payload + 4 then Bad(WrongLength)
    else if blob[..4] != magic then Bad(BadMagic)
    else if GetLe(blob[4..6]) != version then Bad(UnsupportedVersion)
    else if GetLe(blob[6..8]) != payload then Bad(BadPayloadLength)
    else if blob[8 + payload..] != PutCrc(Crc32(blob[..8 + payload])) then Bad(ChecksumMismatch)
    else Good(blob[8..8 + payload])
  }

  /** An envelope opens to exactly what was sealed ... */
  lemma UnsealOfSeal(magic: bytes, version: nat, body: bytes)
    requires |magic| == 4 && version < 0x1_0000 && |body| < 0x1_0000
    ensures Unseal(magic, version, |body|, Seal(magic, version, body)) == Good(body)
    ensures GetLe(Seal(magic, version, body)[4..6]) == version
  {
    hide Crc32, PutLe, GetLe;
    var blob := Seal(magic, version, body);
    var prefix := Header(magic, version, |body|) + body;
    PowValues();
    GetOfPut(version, 2);
    GetOfPut(|body|, 2);
    assert blob[..8 + |body|] == prefix;
    assert blob[4..6] == PutLe(version, 2);
    assert blob[6..8] == PutLe(|body|, 2);
    assert blob[8..8 + |body|] == body;
  }

  /** ... and nothing else opens: an accepted blob is the sealing of its body. */
  lemma SealOfUnseal(magic: bytes, version: nat, payload: nat, blob: bytes)
    requires |magic| == 4 && Unseal(magic, version, payload, blob).Good?
    ensures Seal(magic, version, Unseal(magic, version, payload, blob).value) == blob
  {
    hide Crc32, PutLe, GetLe;
    PutOfGet(blob[4..6]);
    PutOfGet(blob[6..8]);
    var body := blob[8..8 + payload];
    assert Header(magic, version, payload) == blob[..8];
    assert blob[..8] + body == blob[..8 + payload];
    assert blob[..8 + payload] + blob[8 + payload..] == blob;
  }

  // ------------------------------------------------------------------ text

  /** What strlen() and strcmp() see of a filled `char` buffer. */
  function UntilNul(s: string): (r: string)
    ensures r <= s
    ensures (forall i :: 0 <= i < |s| ==> s[i] != '\0') ==> r == s
  {
    if s == "" || s[0] == '\0' then "" else [s[0]] + UntilNul(s[1..])
  }

  predicate IdByte(c: char, extra: char) {
    'A' <= c <= 'Z' || 'a' <= c <= 'z' || '0' <= c <= '9' || c == '.' || c == '_' || c == '-' || c == extra
  }

  predicate Text(s: string, shortest: nat, longest: nat, extra: char) {
    && shortest <= |s| <= longest
    && forall i :: 0 <= i < |s| ==> IdByte(s[i], extra)
  }

  lemma TextIsAscii(s: string, shortest: nat, longest: nat, extra: char)
    requires Text(s, shortest, longest, extra) && 0 < extra as int < 128
    ensures IsAscii(s) && UntilNul(s) == s
  {
    forall i | 0 <= i < |s| ensures 0 < s[i] as int < 128 {
      assert IdByte(s[i], extra);
    }
  }

  lemma BootIdIsAscii(s: string)
    requires BootId(s)
    ensures IsAscii(s) && UntilNul(s) == s
  {
    forall i | 0 <= i < |s| ensures 0 < s[i] as int < 128 {
      assert LowerHex(s[i]);
    }
  }

  // --------------------------------------------------------- crash context

  const MAXIMUM_GENERATION := MAX_SIGNED_64
  const CRASH_PAYLOAD := 108

  function CrashMagic(): bytes { [0x4d, 0x35, 0x43, 0x43] }

  datatype CrashContext = CrashContext(bootId: string, buildId: string, generation: nat) {
    predicate IsValid() {
      0 < generation <= MAXIMUM_GENERATION && BootId(bootId) && Text(buildId, 1, 64, '+')
    }
  }

  function CrashBody(c: CrashContext): (r: bytes)
    requires c.IsValid()
    ensures |r| == CRASH_PAYLOAD
  {
    BootIdIsAscii(c.bootId);
    TextIsAscii(c.buildId, 1, 64, '+');
    PutLe(c.generation, 8) + [32, |c.buildId|, 0, 0] + ToBytes(c.bootId) + Padded(c.buildId, 64)
  }

  function EncodeCrashContext(c: CrashContext): Option<bytes> {
    if c.IsValid() then Some(Seal(CrashMagic(), FORMAT_VERSION, CrashBody(c))) else None
  }

  function DecodeCrashContext(blob: bytes): (r: Decoded<CrashContext>)
    ensures r.Good? ==> r.value.IsValid()
  {
    match Unseal(CrashMagic(), FORMAT_VERSION, CRASH_PAYLOAD, blob)
    case Bad(error) => Bad(error)
    case Good(body) =>
      var length := body[9];
      if body[10..12] != [0, 0] || body[8] != 32 || length == 0 || length > 64 ||
         body[44 + length..] != Zeros(64 - length)
      then Bad(InvalidRecord)
      else
        var c := CrashContext(UntilNul(FromBytes(body[12..44])),
                              UntilNul(FromBytes(body[44..44 + length])), GetLe(body[..8]));
        if c.IsValid() then Good(c) else Bad(InvalidRecord)
  }

  lemma CrashContextRoundTrip(c: CrashContext)
    requires c.IsValid()
    ensures DecodeCrashContext(EncodeCrashContext(c).value) == Good(c)
  {
    hide Seal, Unseal, Padded, PutLe, GetLe, UntilNul, ToBytes, FromBytes, Text;
    BootIdIsAscii(c.bootId);
    TextIsAscii(c.buildId, 1, 64, '+');
    TextLength(c.buildId, 1, 64, '+');
    var body, n := CrashBody(c), |c.buildId|;
    UnsealOfSeal(CrashMagic(), FORMAT_VERSION, body);
    PowValues();
    GetOfPut(c.generation, 8);
    FromOfTo(c.bootId);
    PaddedText(c.buildId, 64);
    assert body[..8] == PutLe(c.generation, 8);
    assert body[8] == 32 && body[9] == n && body[10..12] == [0, 0];
    assert body[12..44] == ToBytes(c.bootId);
    assert body[44..] == Padded(c.buildId, 64);
    assert body[44..44 + n] == Padded(c.buildId, 64)[..n];
    assert body[44 + n..] == Padded(c.buildId, 64)[n..];
  }

  lemma TextLength(s: string, shortest: nat, longest: nat, extra: char)
    requires Text(s, shortest, longest, extra)
    ensures shortest <= |s| <= longest
  {
  }

  // ------------------------------------------------------- command journal

  datatype Action =
    | DiagnosticSnapshot | SetLogLevel | RecalibrateMicrophone | RetryUpload | Reboot | OpenDevOta

  datatype Status = Accepted | Running | Succeeded | Failed | Expired | Rejected

  function ActionCode(a: Action): byte {
    match a
    case DiagnosticSnapshot => 0
    case SetLogLevel => 1
    case RecalibrateMicrophone => 2
    case RetryUpload => 3
    case Reboot => 4
    case OpenDevOta => 5
  }

  function ActionOf(code: byte): (r: Option<Action>)
    ensures r.Some? <==> code < 6
    ensures r.Some? ==> ActionCode(r.value) == code
  {
    match code
    case 0 => Some(DiagnosticSnapshot)
    case 1 => Some(SetLogLevel)
    case 2 => Some(RecalibrateMicrophone)
    case 3 => Some(RetryUpload)
    case 4 => Some(Reboot)
    case 5 => Some(OpenDevOta)
    case _ => None
  }

  function StatusCode(s: Status): byte {
    match s
    case Accepted => 0
    case Running => 1
    case Succeeded => 2
    case Failed => 3
    case Expired => 4
    case Rejected => 5
  }

  function StatusOf(code: byte): (r: Option<Status>)
    ensures r.Some? <==> code < 6
    ensures r.Some? ==> StatusCode(r.value) == code
  {
    match code
    case 0 => Some(Accepted)
    case 1 => Some(Running)
    case 2 => Some(Succeeded)
    case 3 => Some(Failed)
    case 4 => Some(Expired)
    case 5 => Some(Rejected)
    case _ => None
  }

  const JOURNAL_PAYLOAD := 150

  function JournalMagic(): bytes { [0x4d, 0x35, 0x43, 0x4a] }

  datatype JournalRecord = JournalRecord(
    commandId: string, leaseId: string, acceptedAtMs: nat, expiresAtMs: nat, action: Action, status: Status)
  {
    predicate IsValid() {
      && Text(commandId, 8, 64, ':') && Text(leaseId, 8, 64, ':')
      && acceptedAtMs <= expiresAtMs <= MAX_SIGNED_64
    }
  }

  function JournalBody(r: JournalRecord): (b: bytes)
    requires r.IsValid()
    ensures |b| == JOURNAL_PAYLOAD
  {
    TextIsAscii(r.commandId, 8, 64, ':');
    TextIsAscii(r.leaseId, 8, 64, ':');
    [|r.commandId|] + Padded(r.commandId, 64) + [|r.leaseId|] + Padded(r.leaseId, 64) +
    [ActionCode(r.action), StatusCode(r.status), 0, 0] + PutLe(r.acceptedAtMs, 8) + PutLe(r.expiresAtMs, 8)
  }

  function EncodeJournalRecord(r: JournalRecord): Option<bytes> {
    if r.IsValid() then Some(Seal(JournalMagic(), FORMAT_VERSION, JournalBody(r))) else None
  }

  function DecodeJournalRecord(blob: bytes): (r: Decoded<JournalRecord>)
    ensures r.Good? ==> r.value.IsValid()
  {
    match Unseal(JournalMagic(), FORMAT_VERSION, JOURNAL_PAYLOAD, blob)
    case Bad(error) => Bad(error)
    case Good(body) =>
      var idLength, leaseLength := body[0], body[65];
      var action, status := ActionOf(body[130]), StatusOf(body[131]);
      if idLength < 8 || idLength > 64 || leaseLength < 8 || leaseLength > 64 || action.None? || status.None?
      then Bad(InvalidRecord)
      else
        var r := JournalRecord(UntilNul(FromBytes(body[1..1 + idLength])),
                               UntilNul(FromBytes(body[66..66 + leaseLength])),
                               GetLe(body[134..142]), GetLe(body[142..150]), action.value, status.value);
        if r.IsValid() then Good(r) else Bad(InvalidRecord)
  }

  lemma JournalRoundTrip(r: JournalRecord)
    requires r.IsValid()
    ensures DecodeJournalRecord(EncodeJournalRecord(r).value) == Good(r)
  {
    hide Seal, Unseal, Padded, PutLe, GetLe, UntilNul, ToBytes, FromBytes, Text;
    TextIsAscii(r.commandId, 8, 64, ':');
    TextIsAscii(r.leaseId, 8, 64, ':');
    TextLength(r.commandId, 8, 64, ':');
    TextLength(r.leaseId, 8, 64, ':');
    var body := JournalBody(r);
    UnsealOfSeal(JournalMagic(), FORMAT_VERSION, body);
    PowValues();
    GetOfPut(r.acceptedAtMs, 8);
    GetOfPut(r.expiresAtMs, 8);
    PaddedText(r.commandId, 64);
    PaddedText(r.leaseId, 64);
    assert body[1..1 + |r.commandId|] == Padded(r.commandId, 64)[..|r.commandId|];
    assert body[66..66 + |r.leaseId|] == Padded(r.leaseId, 64)[..|r.leaseId|];
    assert body[130] == ActionCode(r.action) && body[131] == StatusCode(r.status);
    assert body[134..142] == PutLe(r.acceptedAtMs, 8);
    assert body[142..150] == PutLe(r.expiresAtMs, 8);
  }

  // ------------------------------------------------- device configuration

  const CONFIG_PAYLOAD := 38

  function ConfigMagic(): bytes { [0x4d, 0x35, 0x43, 0x46] }

  /** `soundFactorBits` are the IEEE 754 binary32 bits; positive finite values
    * are ordered like their bits. */
  datatype PresenceConfig = PresenceConfig(
    revision: nat, minimumOnMs: nat, pirHoldMs: nat, soundHoldMs: nat, maxSoundBridgeMs: nat,
    cooldownMs: nat, soundFactorBits: nat, telemetryIntervalMs: nat, uploadBatchSize: nat)
  {
    predicate IsValid() {
      && revision <= MAX_SIGNED_64
      && minimumOnMs <= 600_000
      && 1_000 <= pirHoldMs <= 3_600_000
      && soundHoldMs <= 600_000
      && maxSoundBridgeMs <= 3_600_000
      && cooldownMs <= 600_000
      && ONE_AS_FLOAT <= soundFactorBits <= FOUR_AS_FLOAT
      && 250 <= telemetryIntervalMs <= 60_000
      && 1 <= uploadBatchSize <= 30
    }
  }

  const ONE_AS_FLOAT := 0x3f80_0000
  const FOUR_AS_FLOAT := 0x4080_0000

  function ConfigBody(c: PresenceConfig): (r: bytes)
    ensures |r| == CONFIG_PAYLOAD
  {
    PutLe(c.revision, 8) + PutLe(c.minimumOnMs, 4) + PutLe(c.pirHoldMs, 4) + PutLe(c.soundHoldMs, 4) +
    PutLe(c.maxSoundBridgeMs, 4) + PutLe(c.cooldownMs, 4) + PutLe(c.soundFactorBits, 4) +
    PutLe(c.telemetryIntervalMs, 4) + PutLe(c.uploadBatchSize, 2)
  }

  function EncodeConfig(c: PresenceConfig): Option<bytes> {
    if c.IsValid() then Some(Seal(ConfigMagic(), FORMAT_VERSION, ConfigBody(c))) else None
  }

  function DecodeConfig(blob: bytes): (r: Decoded<PresenceConfig>)
    ensures r.Good? ==> r.value.IsValid()
  {
    match Unseal(ConfigMagic(), FORMAT_VERSION, CONFIG_PAYLOAD, blob)
    case Bad(error) => Bad(error)
    case Good(b) =>
      var c := PresenceConfig(GetLe(b[..8]), GetLe(b[8..12]), GetLe(b[12..16]), GetLe(b[16..20]),
                              GetLe(b[20..24]), GetLe(b[24..28]), GetLe(b[28..32]), GetLe(b[32..36]),
                              GetLe(b[36..38]));
      if c.IsValid() then Good(c) else Bad(InvalidRecord)
  }

  lemma ConfigRoundTrip(c: PresenceConfig)
    requires c.IsValid()
    ensures DecodeConfig(EncodeConfig(c).value) == Good(c)
  {
    hide Seal, Unseal, PutLe, GetLe;
    var body := ConfigBody(c);
    UnsealOfSeal(ConfigMagic(), FORMAT_VERSION, body);
    ConfigFields(c);
    PowValues();
    GetOfPut(c.revision, 8);
    GetOfPut(c.minimumOnMs, 4);
    GetOfPut(c.pirHoldMs, 4);
    GetOfPut(c.soundHoldMs, 4);
    GetOfPut(c.maxSoundBridgeMs, 4);
    GetOfPut(c.cooldownMs, 4);
    GetOfPut(c.soundFactorBits, 4);
    GetOfPut(c.telemetryIntervalMs, 4);
    GetOfPut(c.uploadBatchSize, 2);
  }

  lemma ConfigFields(c: PresenceConfig)
    ensures var b := ConfigBody(c);
            && b[..8] == PutLe(c.revision, 8) && b[8..12] == PutLe(c.minimumOnMs, 4)
            && b[12..16] == PutLe(c.pirHoldMs, 4) && b[16..20] == PutLe(c.soundHoldMs, 4)
            && b[20..24] == PutLe(c.maxSoundBridgeMs, 4) && b[24..28] == PutLe(c.cooldownMs, 4)
            && b[28..32] == PutLe(c.soundFactorBits, 4) && b[32..36] == PutLe(c.telemetryIntervalMs, 4)
            && b[36..38] == PutLe(c.uploadBatchSize, 2)
  {
    hide PutLe;
  }

  /** Unlike the two journals, the configuration blob has one spelling only. */
  lemma ConfigIsCanonical(blob: bytes)
    requires DecodeConfig(blob).Good?
    ensures EncodeConfig(DecodeConfig(blob).value) == Some(blob)
  {
    hide Seal, Unseal, PutLe, GetLe;
    var b := Unseal(ConfigMagic(), FORMAT_VERSION, CONFIG_PAYLOAD, blob).value;
    SealOfUnseal(ConfigMagic(), FORMAT_VERSION, CONFIG_PAYLOAD, blob);
    PutOfGet(b[..8]);
    PutOfGet(b[8..12]);
    PutOfGet(b[12..16]);
    PutOfGet(b[16..20]);
    PutOfGet(b[20..24]);
    PutOfGet(b[24..28]);
    PutOfGet(b[28..32]);
    PutOfGet(b[32..36]);
    PutOfGet(b[36..38]);
    assert ConfigBody(DecodeConfig(blob).value) == b;
  }
}
