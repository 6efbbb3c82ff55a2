/** Spool file names (src/spool_name.cpp, src/feedback_spool_name.cpp): they
  * carry all of a file's metadata, and their byte order is the upload order.
  */
module SpoolNames {
  import opened Bytes

  // -------------------------------------------------------- fixed-width hex

  function HexDigit(d: nat): (c: char)
    requires d < 16
  {
    if d < 10 then '0' + d as char else 'a' + (d - 10) as char
  }

  function DigitOf(c: char): (d: nat)
    requires LowerHex(c)
    ensures d < 16 && HexDigit(d) == c
  {
    if c <= '9' then (c - '0') as nat else (c - 'a') as nat + 10
  }

  function Pow16(n: nat): (r: nat)
    ensures r > 0
  {
    if n == 0 then 1 else 16 * Pow16(n - 1)
  }

  /** printf("%0*llx"). */
  function FixedHex(v: nat, width: nat): (s: string)
    ensures |s| == width && AllHex(s)
  {
    if width == 0 then "" else FixedHex(v / 16, width - 1) + [HexDigit(v % 16)]
  }

  function HexValue(s: string): (v: nat)
    requires AllHex(s)
    ensures v < Pow16(|s|)
  {
    if s == "" then 0 else 16 * HexValue(s[..|s| - 1]) + DigitOf(s[|s| - 1])
  }

  lemma {:induction false} ValueOfFixed(v: nat, width: nat)
    requires v < Pow16(width)
    ensures HexValue(FixedHex(v, width)) == v
  {
    if width > 0 {
      ValueOfFixed(v / 16, width - 1);
      assert FixedHex(v, width)[..width - 1] == FixedHex(v / 16, width - 1);
    }
  }

  lemma {:induction false} FixedOfValue(s: string)
    requires AllHex(s)
    ensures FixedHex(HexValue(s), |s|) == s
  {
    hide DigitOf, HexDigit;
    if s != "" {
      var h, d := HexValue(s[..|s| - 1]), DigitOf(s[|s| - 1]);
      FixedOfValue(s[..|s| - 1]);
      assert (16 * h + d) / 16 == h && (16 * h + d) % 16 == d;
      assert s == s[..|s| - 1] + [s[|s| - 1]];
    }
  }

  /** parseFixedHex(). */
  method ParseFixedHex(s: string) returns (r: Option<nat>)
    ensures r.Some? <==> AllHex(s)
    ensures r.Some? ==> r.value == HexValue(s)
  {
    var value := 0;
    for index := 0 to |s|
      invariant AllHex(s[..index])
      invariant value == HexValue(s[..index])
    {
      if !LowerHex(s[index]) {
        return None;
      }
      assert s[..index + 1][..index] == s[..index];
      value := 16 * value + DigitOf(s[index]);
    }
    assert s[..|s|] == s;
    return Some(value);
  }

  // -------------------------------------------------------------- byte order

  /** strcmp(a, b) < 0. */
  predicate Less(a: string, b: string) {
    if b == "" then false
    else if a == "" then true
    else a[0] < b[0] || (a[0] == b[0] && Less(a[1..], b[1..]))
  }

  lemma {:induction false} LessConcat(a: string, x: string, b: string, y: string)
    requires |a| == |b|
    ensures Less(a + x, b + y) <==> Less(a, b) || (a == b && Less(x, y))
  {
    if a == "" {
      assert a + x == x && b + y == y;
    } else {
      LessConcat(a[1..], x, b[1..], y);
      assert (a + x)[1..] == a[1..] + x && (b + y)[1..] == b[1..] + y;
      assert a == b <==> a[0] == b[0] && a[1..] == b[1..];
    }
  }

  lemma DigitOrder(d: nat, e: nat)
    requires d < 16 && e < 16
    ensures Less([HexDigit(d)], [HexDigit(e)]) <==> d < e
    ensures HexDigit(d) == HexDigit(e) <==> d == e
  {
    assert [HexDigit(d)][1..] == "" && [HexDigit(e)][1..] == "";
  }

  /** Fixed-width hex sorts like the numbers it writes. */
  lemma {:induction false} HexOrder(v: nat, w: nat, width: nat)
    requires v < Pow16(width) && w < Pow16(width)
    ensures Less(FixedHex(v, width), FixedHex(w, width)) <==> v < w
    ensures FixedHex(v, width) == FixedHex(w, width) <==> v == w
  {
    if width > 0 {
      HexOrder(v / 16, w / 16, width - 1);
      DigitOrder(v % 16, w % 16);
      LessConcat(FixedHex(v / 16, width - 1), [HexDigit(v % 16)], FixedHex(w / 16, width - 1), [HexDigit(w % 16)]);
      ValueOfFixed(v, width);
      ValueOfFixed(w, width);
    }
  }

  // -------------------------------------------------------- telemetry spools

  datatype Batch = Batch(bootId: string, firstSequence: nat, maxSequence: nat, recordCount: nat) {
    predicate IsValid() {
      && BootId(bootId) && firstSequence <= maxSequence < U64_LIMIT && 1 <= recordCount <= 256
    }
  }

  function Fields(m: Batch, separator: string): string {
    m.bootId + separator + FixedHex(m.firstSequence, 16) + separator +
    FixedHex(m.maxSequence, 16) + separator + FixedHex(m.recordCount, 3)
  }

  function FileName(m: Batch): string {
    "q_" + Fields(m, "_") + ".json"
  }

  function Path(m: Batch): string {
    "/spool/" + FileName(m)
  }

  function BatchId(m: Batch): string {
    "b:" + Fields(m, ":")
  }

  /** What follows the last '/'. */
  function BaseName(path: string): (r: string)
    ensures '/' !in r && |r| <= |path| && path[|path| - |r|..] == r
    ensures '/' !in path ==> r == path
  {
    if path == "" then ""
    else if path[|path| - 1] == '/' then ""
    else BaseName(path[..|path| - 1]) + [path[|path| - 1]]
  }

  lemma {:induction false} BaseNameOf(directory: string, name: string)
    requires '/' !in name
    ensures BaseName(directory + "/" + name) == name
  {
    var path := directory + "/" + name;
    if name == "" {
      assert path[|path| - 1] == '/';
    } else {
      assert path[..|path| - 1] == directory + "/" + name[..|name| - 1];
      BaseNameOf(directory, name[..|name| - 1]);
    }
  }

  const FILE_NAME_LENGTH := 2 + 32 + 1 + 16 + 1 + 16 + 1 + 3 + 5

  predicate Shape(f: string) {
    && |f| == FILE_NAME_LENGTH
    && f[..2] == "q_" && f[34] == '_' && f[51] == '_' && f[68] == '_' && f[72..] == ".json"
    && AllHex(f[2..34]) && AllHex(f[35..51]) && AllHex(f[52..68]) && AllHex(f[69..72])
  }

  /** parseSpoolFileMetadata(). */
  function Parse(path: string): (r: Option<Batch>)
  {
    var f := BaseName(path);
    if !Shape(f) then None
    else
      var m := Batch(f[2..34], HexValue(f[35..51]), HexValue(f[52..68]), HexValue(f[69..72]));
      if m.recordCount == 0 || m.recordCount > 256 || m.firstSequence > m.maxSequence then None else Some(m)
  }

  lemma Powers()
    ensures Pow16(3) == 4096 && Pow16(16) == U64_LIMIT
  {
    assert Pow16(4) == 0x1_0000;
    assert Pow16(8) == 0x1_0000_0000;
    assert Pow16(12) == 0x1_0000_0000_0000;
  }

  lemma NameParts(m: Batch)
    requires m.IsValid()
    ensures var f := FileName(m);
            && Shape(f) && '/' !in f && f[2..34] == m.bootId && f[35..51] == FixedHex(m.firstSequence, 16)
            && f[52..68] == FixedHex(m.maxSequence, 16) && f[69..72] == FixedHex(m.recordCount, 3)
  {
    hide FixedHex;
    var f := FileName(m);
    assert f[2..34] == m.bootId;
    assert f[35..51] == FixedHex(m.firstSequence, 16);
    assert f[52..68] == FixedHex(m.maxSequence, 16);
    assert f[69..72] == FixedHex(m.recordCount, 3);
    assert forall i :: 0 <= i < 32 ==> f[2 + i] == f[2..34][i];
    assert forall i :: 0 <= i < 16 ==> f[35 + i] == f[35..51][i] && f[52 + i] == f[52..68][i];
    assert forall i :: 0 <= i < 3 ==> f[69 + i] == f[69..72][i];
    assert f[72..] == ".json";
  }

  /** A name gives its metadata back, from whatever directory it is read ... */
  lemma ParseOfPath(directory: string, m: Batch)
    requires m.IsValid()
    ensures Parse(directory + "/" + FileName(m)) == Some(m)
  {
    hide FixedHex, HexValue, Shape, FileName;
    Powers();
    NameParts(m);
    BaseNameOf(directory, FileName(m));
    ValueOfFixed(m.firstSequence, 16);
    ValueOfFixed(m.maxSequence, 16);
    ValueOfFixed(m.recordCount, 3);
  }

  lemma NameOfParts(f: string)
    requires Shape(f)
    ensures FileName(Batch(f[2..34], HexValue(f[35..51]), HexValue(f[52..68]), HexValue(f[69..72]))) == f
  {
    hide FixedHex, HexValue;
    FixedOfValue(f[35..51]);
    FixedOfValue(f[52..68]);
    FixedOfValue(f[69..72]);
    assert f == f[..2] + f[2..34] + f[34..35] + f[35..51] + f[51..52] + f[52..68] + f[68..69] + f[69..72] + f[72..];
    assert f[34..35] == "_" && f[51..52] == "_" && f[68..69] == "_";
  }

  /** ... and only canonical names are read: the file name is the one that the
    * parsed metadata would build. */
  lemma PathOfParse(path: string)
    requires Parse(path).Some?
    ensures Parse(path).value.IsValid() && FileName(Parse(path).value) == BaseName(path)
  {
    hide FixedHex, HexValue, BaseName, FileName;
    Powers();
    NameOfParts(BaseName(path));
    var f := BaseName(path);
    assert forall i :: 0 <= i < 32 ==> f[2..34][i] == f[2 + i];
  }

  /** Older first: boot id, then first sequence, then last, then count. */
  predicate Earlier(a: Batch, b: Batch) {
    || Less(a.bootId, b.bootId)
    || (a.bootId == b.bootId &&
        (|| a.firstSequence < b.firstSequence
         || (a.firstSequence == b.firstSequence &&
             (|| a.maxSequence < b.maxSequence
              || (a.maxSequence == b.maxSequence && a.recordCount < b.recordCount)))))
  }

  lemma FieldsOrder(a: Batch, b: Batch, separator: string, tail: string)
    requires a.IsValid() && b.IsValid()
    ensures Less(Fields(a, separator) + tail, Fields(b, separator) + tail) <==> Earlier(a, b)
    ensures Fields(a, separator) == Fields(b, separator) ==> a == b
  {
    hide Less, FixedHex;
    FieldsAreOrdered(a, b, separator, tail);
    if Fields(a, separator) == Fields(b, separator) {
      FieldsSplit(a, separator);
      FieldsSplit(b, separator);
      Powers();
      HexOrder(a.firstSequence, b.firstSequence, 16);
      HexOrder(a.maxSequence, b.maxSequence, 16);
      HexOrder(a.recordCount, b.recordCount, 3);
    }
  }

  lemma FieldsAreOrdered(a: Batch, b: Batch, separator: string, tail: string)
    requires a.IsValid() && b.IsValid()
    ensures Less(Fields(a, separator) + tail, Fields(b, separator) + tail) <==> Earlier(a, b)
  {
    hide Less, FixedHex;
    Powers();
    HexOrder(a.firstSequence, b.firstSequence, 16);
    HexOrder(a.maxSequence, b.maxSequence, 16);
    HexOrder(a.recordCount, b.recordCount, 3);
    var a3, b3 := FixedHex(a.recordCount, 3) + tail, FixedHex(b.recordCount, 3) + tail;
    LessConcat(FixedHex(a.recordCount, 3), tail, FixedHex(b.recordCount, 3), tail);
    SelfNotLess(tail);
    var a2, b2 := FixedHex(a.maxSequence, 16) + (separator + a3), FixedHex(b.maxSequence, 16) + (separator + b3);
    LessConcat(FixedHex(a.maxSequence, 16), separator + a3, FixedHex(b.maxSequence, 16), separator + b3);
    LessConcat(separator, a3, separator, b3);
    SelfNotLess(separator);
    var a1, b1 := FixedHex(a.firstSequence, 16) + (separator + a2), FixedHex(b.firstSequence, 16) + (separator + b2);
    LessConcat(FixedHex(a.firstSequence, 16), separator + a2, FixedHex(b.firstSequence, 16), separator + b2);
    LessConcat(separator, a2, separator, b2);
    LessConcat(a.bootId, separator + a1, b.bootId, separator + b1);
    LessConcat(separator, a1, separator, b1);
    assert Fields(a, separator) + tail == a.bootId + (separator + a1);
    assert Fields(b, separator) + tail == b.bootId + (separator + b1);
  }

  lemma FieldsSplit(m: Batch, separator: string)
    requires m.IsValid()
    ensures var f, n := Fields(m, separator), |separator|;
            && |f| == 67 + 3 * n && f[..32] == m.bootId
            && f[32 + n..48 + n] == FixedHex(m.firstSequence, 16)
            && f[48 + 2 * n..64 + 2 * n] == FixedHex(m.maxSequence, 16)
            && f[64 + 3 * n..] == FixedHex(m.recordCount, 3)
  {
    hide FixedHex;
  }

  lemma {:induction false} SelfNotLess(s: string)
    ensures !Less(s, s)
  {
    if s != "" {
      SelfNotLess(s[1..]);
    }
  }

  /** strcmp() on two paths compares (boot id, first, last, count). */
  lemma PathOrder(a: Batch, b: Batch)
    requires a.IsValid() && b.IsValid()
    ensures Less(Path(a), Path(b)) <==> Earlier(a, b)
    ensures Path(a) == Path(b) ==> a == b
  {
    hide Less, Fields;
    var prefix := "/spool/" + "q_";
    FieldsOrder(a, b, "_", ".json");
    LessConcat(prefix, Fields(a, "_") + ".json", prefix, Fields(b, "_") + ".json");
    SelfNotLess(prefix);
    assert Path(a) == prefix + (Fields(a, "_") + ".json") && Path(b) == prefix + (Fields(b, "_") + ".json");
    if Path(a) == Path(b) {
      assert Path(a)[|prefix|..|Path(a)| - 5] == Fields(a, "_");
      assert Path(b)[|prefix|..|Path(b)| - 5] == Fields(b, "_");
    }
  }

  /** findNextSpool(): entries without a canonical name are passed over. */
  method FindNextSpool(entries: seq<string>) returns (best: Option<Batch>)
    ensures best.None? <==> forall i :: 0 <= i < |entries| ==> Parse(entries[i]).None?
    ensures best.Some? ==>
              && (exists i :: 0 <= i < |entries| && Parse(entries[i]) == best)
              && forall i :: 0 <= i < |entries| && Parse(entries[i]).Some? ==>
                   Parse(entries[i]) == best || Earlier(best.value, Parse(entries[i]).value)
  {
    hide Path, Less, Parse, Earlier;
    best := None;
    for index := 0 to |entries|
      invariant best.None? <==> forall i :: 0 <= i < index ==> Parse(entries[i]).None?
      invariant best.Some? ==> exists i :: 0 <= i < index && Parse(entries[i]) == best
      invariant best.Some? ==> best.value.IsValid()
      invariant best.Some? ==> forall i :: 0 <= i < index && Parse(entries[i]).Some? ==>
                  Parse(entries[i]) == best || Earlier(best.value, Parse(entries[i]).value)
    {
      var candidate := Parse(entries[index]);
      if candidate.Some? {
        PathOfParse(entries[index]);
        if best.None? {
          best := candidate;
        } else {
          var was := best.value;
          PathOrder(candidate.value, was);
          EarlierIsTotal(candidate.value, was);
          if Less(Path(candidate.value), Path(was)) {
            best := candidate;
            forall i | 0 <= i <= index && Parse(entries[i]).Some?
              ensures Parse(entries[i]) == best || Earlier(best.value, Parse(entries[i]).value)
            {
              if i < index && Parse(entries[i]).value != was {
                EarlierIsTransitive(best.value, was, Parse(entries[i]).value);
              }
            }
          }
        }
      }
    }
  }

  lemma {:induction false} LessIsTotal(a: string, b: string)
    ensures a == b || Less(a, b) || Less(b, a)
    ensures !(Less(a, b) && Less(b, a))
  {
    if a != "" && b != "" {
      LessIsTotal(a[1..], b[1..]);
      assert a == [a[0]] + a[1..] && b == [b[0]] + b[1..];
    }
  }

  lemma {:induction false} LessIsTransitive(a: string, b: string, c: string)
    requires Less(a, b) && Less(b, c)
    ensures Less(a, c)
  {
    if a != "" && a[0] == b[0] == c[0] {
      LessIsTransitive(a[1..], b[1..], c[1..]);
    }
  }

  lemma EarlierIsTotal(a: Batch, b: Batch)
    ensures a == b || Earlier(a, b) || Earlier(b, a)
    ensures !(Earlier(a, b) && Earlier(b, a))
  {
    LessIsTotal(a.bootId, b.bootId);
    SelfNotLess(a.bootId);
  }

  lemma EarlierIsTransitive(a: Batch, b: Batch, c: Batch)
    requires Earlier(a, b) && Earlier(b, c)
    ensures Earlier(a, c)
  {
    hide Less;
    if Less(a.bootId, b.bootId) && Less(b.bootId, c.bootId) {
      LessIsTransitive(a.bootId, b.bootId, c.bootId);
    }
  }

  // --------------------------------------------------------- feedback bundles

  datatype ActualPresence = Present | Absent

  datatype ObservedState = Calibrating | Idle | PresentState | Cooldown

  datatype Feedback = Feedback(
    bootId: string, sequence: nat, linkedSampleUptimeMs: nat, actual: ActualPresence, observed: ObservedState)
  {
    predicate IsValid() {
      BootId(bootId) && sequence <= MAX_SIGNED_64 && linkedSampleUptimeMs <= MAX_SIGNED_64
    }
  }

  function ActualCode(a: ActualPresence): char {
    match a
    case Present => 'p'
    case Absent => 'a'
  }

  function ObservedCode(s: ObservedState): char {
    match s
    case Calibrating => 'a'
    case Idle => 'i'
    case PresentState => 'p'
    case Cooldown => 'c'
  }

  function ActualOf(c: char): (r: Option<ActualPresence>)
    ensures r.Some? <==> c in "pa"
    ensures r.Some? ==> ActualCode(r.value) == c
  {
    if c == 'p' then Some(Present) else if c == 'a' then Some(Absent) else None
  }

  function ObservedOf(c: char): (r: Option<ObservedState>)
    ensures r.Some? <==> c in "aipc"
    ensures r.Some? ==> ObservedCode(r.value) == c
  {
    match c
    case 'a' => Some(Calibrating)
    case 'i' => Some(Idle)
    case 'p' => Some(PresentState)
    case 'c' => Some(Cooldown)
    case _ => None
  }

  const FEEDBACK_NAME_LENGTH := 2 + 32 + 1 + 16 + 1 + 16 + 1 + 1 + 1 + 1 + 5
  const MAXIMUM_PATH_LENGTH := 95

  function FeedbackName(f: Feedback): string {
    "q_" + f.bootId + "_" + FixedHex(f.sequence, 16) + "_" + FixedHex(f.linkedSampleUptimeMs, 16) + "_" +
    [ActualCode(f.actual)] + "_" + [ObservedCode(f.observed)] + ".m5fb"
  }

  predicate FeedbackShape(f: string) {
    && |f| == FEEDBACK_NAME_LENGTH
    && f[..2] == "q_" && f[34] == '_' && f[51] == '_' && f[68] == '_' && f[70] == '_' && f[72..] == ".m5fb"
    && AllHex(f[2..34]) && AllHex(f[35..51]) && AllHex(f[52..68])
  }

  /** parseFeedbackSpoolFileMetadata() and feedbackRecordFromSpoolFileMetadata():
    * the whole request and response expectation comes back from the name. */
  function ParseFeedback(path: string): (r: Option<Feedback>)
  {
    var f := BaseName(path);
    if |path| == 0 || |path| > MAXIMUM_PATH_LENGTH || !FeedbackShape(f) then None
    else
      var actual, observed := ActualOf(f[69]), ObservedOf(f[71]);
      var sequence, uptime := HexValue(f[35..51]), HexValue(f[52..68]);
      if actual.None? || observed.None? || sequence > MAX_SIGNED_64 || uptime > MAX_SIGNED_64 then None
      else Some(Feedback(f[2..34], sequence, uptime, actual.value, observed.value))
  }

  lemma FeedbackParts(m: Feedback)
    requires m.IsValid()
    ensures var f := FeedbackName(m);
            && FeedbackShape(f) && '/' !in f && f[2..34] == m.bootId && f[35..51] == FixedHex(m.sequence, 16)
            && f[52..68] == FixedHex(m.linkedSampleUptimeMs, 16)
            && f[69] == ActualCode(m.actual) && f[71] == ObservedCode(m.observed)
  {
    hide FixedHex;
    var f := FeedbackName(m);
    assert f[2..34] == m.bootId;
    assert f[35..51] == FixedHex(m.sequence, 16);
    assert f[52..68] == FixedHex(m.linkedSampleUptimeMs, 16);
    assert forall i :: 0 <= i < 32 ==> f[2 + i] == f[2..34][i];
    assert forall i :: 0 <= i < 16 ==> f[35 + i] == f[35..51][i] && f[52 + i] == f[52..68][i];
    assert f[72..] == ".m5fb";
  }

  /** Every correction survives a reboot through its file name, in either stage. */
  lemma FeedbackRoundTrip(ready: bool, m: Feedback)
    requires m.IsValid()
    ensures ParseFeedback((if ready then "/feedback/ready" else "/feedback/wait") + "/" + FeedbackName(m)) == Some(m)
  {
    hide FixedHex, HexValue, FeedbackShape, FeedbackName, BaseName, ActualCode, ObservedCode, ActualOf, ObservedOf;
    Powers();
    FeedbackParts(m);
    FeedbackNameLength(m);
    CodesAreInverse(m);
    BaseNameOf(if ready then "/feedback/ready" else "/feedback/wait", FeedbackName(m));
    ValueOfFixed(m.sequence, 16);
    ValueOfFixed(m.linkedSampleUptimeMs, 16);
  }

  lemma CodesAreInverse(m: Feedback)
    ensures ActualOf(ActualCode(m.actual)) == Some(m.actual)
    ensures ObservedOf(ObservedCode(m.observed)) == Some(m.observed)
  {
  }

  lemma FeedbackNameLength(m: Feedback)
    requires m.IsValid()
    ensures |FeedbackName(m)| == FEEDBACK_NAME_LENGTH
  {
  }

  /** Distinct corrections never share a file, and no other spelling is read. */
  lemma FeedbackNameOfParse(path: string)
    requires ParseFeedback(path).Some?
    ensures ParseFeedback(path).value.IsValid()
    ensures FeedbackName(ParseFeedback(path).value) == BaseName(path)
  {
    hide FixedHex, HexValue, FeedbackShape, AllHex, BaseName, ActualCode, ObservedCode, ActualOf, ObservedOf;
    Powers();
    var f := BaseName(path);
    ShapeParts(f);
    FixedOfValue(f[35..51]);
    FixedOfValue(f[52..68]);
  }

  lemma ShapeParts(f: string)
    requires FeedbackShape(f)
    ensures |f| == FEEDBACK_NAME_LENGTH && AllHex(f[2..34]) && AllHex(f[35..51]) && AllHex(f[52..68])
    ensures f == "q_" + f[2..34] + "_" + f[35..51] + "_" + f[52..68] + "_" + [f[69]] + "_" + [f[71]] + ".m5fb"
  {
    hide AllHex;
    assert f == f[..2] + f[2..34] + f[34..35] + f[35..51] + f[51..52] + f[52..68] + f[68..69] + f[69..70] +
                f[70..71] + f[71..72] + f[72..];
    assert f[34..35] == f[51..52] == f[68..69] == f[70..71] == "_";
    assert f[69..70] == [f[69]] && f[71..72] == [f[71]];
  }
}
