/** The on-disk frame of one touch correction (src/feedback_bundle.cpp): two
  * opaque bodies, their lengths, and a CRC-32 over everything but itself.
  */
module FeedbackBundles {
  import opened Bytes
  import opened Wire

  const HEADER_SIZE := 20
  const VERSION := 1
  const MAXIMUM_TELEMETRY := 2048
  const MAXIMUM_FEEDBACK := 320

  datatype BundleError =
    | NoError | TelemetryLengthOutOfRange | FeedbackLengthOutOfRange | OutputTooSmall | HeaderTruncated
    | BadMagic | UnsupportedVersion | BadHeaderLength | BodyTruncated | TrailingBytes | CrcMismatch

  datatype Slices = Slices(telemetryLength: nat, feedbackLength: nat) {
    function Telemetry(b: bytes): bytes
      requires |b| == HEADER_SIZE + telemetryLength + feedbackLength
    {
      b[HEADER_SIZE..HEADER_SIZE + telemetryLength]
    }

    function Feedback(b: bytes): bytes
      requires |b| == HEADER_SIZE + telemetryLength + feedbackLength
    {
      b[HEADER_SIZE + telemetryLength..]
    }
  }

  /** feedbackBundleEncodedSize(): what is wrong with the lengths. */
  function LengthError(telemetry: nat, feedback: nat): BundleError {
    if telemetry == 0 || telemetry > MAXIMUM_TELEMETRY then TelemetryLengthOutOfRange
    else if feedback == 0 || feedback > MAXIMUM_FEEDBACK then FeedbackLengthOutOfRange
    else NoError
  }

  function Magic(): bytes { [0x4d, 0x35, 0x46, 0x42] }

  /** The sixteen bytes in front of the checksum. */
  function Head(telemetry: nat, feedback: nat): (r: bytes)
    ensures |r| == 16
  {
    Magic() + PutLe(VERSION, 2) + PutLe(HEADER_SIZE, 2) + PutLe(telemetry, 4) + PutLe(feedback, 4)
  }

  /** One checksum over head and bodies, computed piece by piece. */
  function FrameCrc(head: bytes, body: bytes): bv32 {
    CrcFinal(CrcUpdate(CrcUpdate(0xffffffff, head), body))
  }

  lemma FrameCrcIsWhole(head: bytes, body: bytes)
    ensures FrameCrc(head, body) == Crc32(head + body)
  {
    hide CrcUpdate, CrcFinal;
    CrcComposes(0xffffffff, head, body);
  }

  function Frame(telemetry: bytes, feedback: bytes): (r: bytes)
    ensures |r| == HEADER_SIZE + |telemetry| + |feedback|
  {
    var head := Head(|telemetry|, |feedback|);
    head + PutCrc(FrameCrc(head, telemetry + feedback)) + telemetry + feedback
  }

  /** inspectFeedbackBundleHeader() on a complete file. */
  function InspectHeader(b: bytes): (BundleError, Slices) {
    var none := Slices(0, 0);
    if |b| < HEADER_SIZE then (HeaderTruncated, none)
    else if b[..4] != Magic() then (BadMagic, none)
    else if GetLe(b[4..6]) != VERSION then (UnsupportedVersion, none)
    else if GetLe(b[6..8]) != HEADER_SIZE then (BadHeaderLength, none)
    else
      var telemetry, feedback := GetLe(b[8..12]), GetLe(b[12..16]);
      var lengths := LengthError(telemetry, feedback);
      if lengths != NoError then (lengths, none)
      else if |b| < HEADER_SIZE + telemetry + feedback then (BodyTruncated, none)
      else if |b| > HEADER_SIZE + telemetry + feedback then (TrailingBytes, none)
      else (NoError, Slices(telemetry, feedback))
  }

  /** validateFeedbackBundle() */
  function Validate(b: bytes): (r: (BundleError, Slices))
    ensures r.0 == NoError ==> |b| == HEADER_SIZE + r.1.telemetryLength + r.1.feedbackLength
  {
    var (error, slices) := InspectHeader(b);
    if error != NoError then (error, slices)
    else if PutCrc(FrameCrc(b[..16], b[HEADER_SIZE..])) != b[16..20] then (CrcMismatch, Slices(0, 0))
    else (NoError, slices)
  }

  lemma HeadParts(telemetry: nat, feedback: nat)
    requires telemetry < U32_LIMIT && feedback < U32_LIMIT
    ensures var h := Head(telemetry, feedback);
            && h[..4] == Magic() && GetLe(h[4..6]) == VERSION && GetLe(h[6..8]) == HEADER_SIZE
            && GetLe(h[8..12]) == telemetry && GetLe(h[12..16]) == feedback
  {
    hide PutLe, GetLe;
    PowValues();
    GetOfPut(VERSION, 2);
    GetOfPut(HEADER_SIZE, 2);
    GetOfPut(telemetry, 4);
    GetOfPut(feedback, 4);
    var h := Head(telemetry, feedback);
    assert h[4..6] == PutLe(VERSION, 2) && h[6..8] == PutLe(HEADER_SIZE, 2);
    assert h[8..12] == PutLe(telemetry, 4) && h[12..16] == PutLe(feedback, 4);
  }

  /** A frame gives back exactly the two bodies it was built from ... */
  lemma ValidateOfFrame(telemetry: bytes, feedback: bytes)
    requires LengthError(|telemetry|, |feedback|) == NoError
    ensures var b := Frame(telemetry, feedback);
            var (error, slices) := Validate(b);
            && error == NoError && slices == Slices(|telemetry|, |feedback|)
            && slices.Telemetry(b) == telemetry && slices.Feedback(b) == feedback
  {
    hide PutLe, GetLe, FrameCrc;
    var b, head := Frame(telemetry, feedback), Head(|telemetry|, |feedback|);
    HeadParts(|telemetry|, |feedback|);
    assert b[..16] == head;
    assert b[..4] == head[..4] && b[4..6] == head[4..6] && b[6..8] == head[6..8];
    assert b[8..12] == head[8..12] && b[12..16] == head[12..16];
    assert b[HEADER_SIZE..] == telemetry + feedback;
    assert b[16..20] == PutCrc(FrameCrc(head, telemetry + feedback));
  }

  /** ... and only frames are accepted: every accepted file is the encoding of its
    * own two slices, byte for byte. */
  lemma FrameOfValidate(b: bytes)
    requires Validate(b).0 == NoError
    ensures var slices := Validate(b).1;
            && LengthError(slices.telemetryLength, slices.feedbackLength) == NoError
            && Frame(slices.Telemetry(b), slices.Feedback(b)) == b
  {
    hide PutLe, GetLe, FrameCrc;
    var slices := Validate(b).1;
    PutOfGet(b[4..6]);
    PutOfGet(b[6..8]);
    PutOfGet(b[8..12]);
    PutOfGet(b[12..16]);
    var head := Head(slices.telemetryLength, slices.feedbackLength);
    assert b[..16] == b[..4] + b[4..6] + b[6..8] + b[8..12] + b[12..16];
    assert head == b[..16];
    assert b[HEADER_SIZE..] == slices.Telemetry(b) + slices.Feedback(b);
    assert b == b[..16] + b[16..20] + b[HEADER_SIZE..];
  }

  /** encodeFeedbackBundle(): the frame in front of `output`, or nothing at all. */
  method EncodeFeedbackBundle(telemetry: bytes, feedback: bytes, output: array<byte>)
    returns (error: BundleError, size: nat)
    modifies output
    ensures error == var lengths := LengthError(|telemetry|, |feedback|);
                     if lengths != NoError then lengths
                     else if output.Length < HEADER_SIZE + |telemetry| + |feedback| then OutputTooSmall
                     else NoError
    ensures error == NoError ==> size <= output.Length && output[..size] == Frame(telemetry, feedback)
    ensures error == NoError ==> output[size..] == old(output[size..])
    ensures error != NoError ==> output[..] == old(output[..])
  {
    hide Frame;
    size := HEADER_SIZE + |telemetry| + |feedback|;
    error := LengthError(|telemetry|, |feedback|);
    if error != NoError {
      return;
    }
    if output.Length < size {
      return OutputTooSmall, 0;
    }
    var frame := BuildFrame(telemetry, feedback);
    CopyInto(output, frame);
  }

  method BuildFrame(telemetry: bytes, feedback: bytes) returns (frame: bytes)
    ensures frame == Frame(telemetry, feedback)
  {
    hide PutLe, GetLe, CrcUpdate;
    var head := Head(|telemetry|, |feedback|);
    var crc := ComputeCrcUpdate(0xffffffff, head);
    crc := ComputeCrcUpdate(crc, telemetry + feedback);
    frame := head + PutCrc(CrcFinal(crc)) + telemetry + feedback;
  }

  method CopyInto(output: array<byte>, data: bytes)
    requires |data| <= output.Length
    modifies output
    ensures output[..|data|] == data && output[|data|..] == old(output[|data|..])
  {
    for i := 0 to |data|
      invariant output[..i] == data[..i]
      invariant forall k :: i <= k < output.Length ==> output[k] == old(output[k])
    {
      output[i] := data[i];
      assert output[..i + 1] == output[..i] + [data[i]];
    }
    assert data[..|data|] == data;
  }

  /** validateFeedbackBundle() with its incremental checksum. */
  method ValidateFeedbackBundle(b: bytes) returns (error: BundleError, slices: Slices)
    ensures (error, slices) == Validate(b)
  {
    hide GetLe, CrcUpdate;
    var header := InspectHeader(b);
    error, slices := header.0, header.1;
    if error != NoError {
      return;
    }
    var crc := ComputeCrcUpdate(0xffffffff, b[..16]);
    crc := ComputeCrcUpdate(crc, b[HEADER_SIZE..]);
    if PutCrc(CrcFinal(crc)) != b[16..20] {
      return CrcMismatch, Slices(0, 0);
    }
  }
}
