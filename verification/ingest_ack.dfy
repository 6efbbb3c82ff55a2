/** The strict reader of ingest acknowledgements (src/ingest_ack.cpp): the answer
  * that licenses the deletion of a spool file.
  */
module IngestAcks {
  import opened Bytes

  datatype Field = BatchIdField | StoredField | DuplicatesField | MaxSeqField | ServerUtcField | RevisionField

  function KeyText(f: Field): string {
    match f
    case BatchIdField => "batch_id"
    case StoredField => "stored"
    case DuplicatesField => "duplicates"
    case MaxSeqField => "max_seq"
    case ServerUtcField => "server_utc_ms"
    case RevisionField => "desired_config_revision"
  }

  function FieldOf(key: string): (r: Option<Field>)
    ensures r.Some? ==> KeyText(r.value) == key
  {
    if key == "batch_id" then Some(BatchIdField)
    else if key == "stored" then Some(StoredField)
    else if key == "duplicates" then Some(DuplicatesField)
    else if key == "max_seq" then Some(MaxSeqField)
    else if key == "server_utc_ms" then Some(ServerUtcField)
    else if key == "desired_config_revision" then Some(RevisionField)
    else None
  }

  lemma FieldOfKey(f: Field)
    ensures FieldOf(KeyText(f)) == Some(f)
  {
  }

  datatype Value = Text(text: string) | Number(number: nat)

  /** A member as it is written: white space, key, white space, colon, white space,
    * value, white space. */
  datatype Member = Member(w0: string, field: Field, w1: string, w2: string, value: Value, w3: string)

  predicate Space(c: char) {
    c == ' ' || c == '\t' || c == '\n' || c == '\r'
  }

  predicate Spaces(s: string) {
    forall i :: 0 <= i < |s| ==> Space(s[i])
  }

  predicate Digit(c: char) {
    '0' <= c <= '9'
  }

  /** What a plain string may hold: no quote, escape or control character. */
  predicate PlainChar(c: char) {
    c != '"' && c != '\\' && c as int >= 0x20
  }

  predicate Plain(s: string) {
    forall i :: 0 <= i < |s| ==> PlainChar(s[i])
  }

  predicate ValidMember(m: Member) {
    && Spaces(m.w0) && Spaces(m.w1) && Spaces(m.w2) && Spaces(m.w3)
    && if m.field == BatchIdField then m.value.Text? && Plain(m.value.text)
       else m.value.Number? && m.value.number < U64_LIMIT
  }

  // ----------------------------------------------------------------- numbers

  function Decimal(n: nat): (s: string)
    ensures s != "" && forall i :: 0 <= i < |s| ==> Digit(s[i])
    ensures n > 0 ==> s[0] != '0'
  {
    if n < 10 then ['0' + n as char] else Decimal(n / 10) + ['0' + (n % 10) as char]
  }

  function DigitValue(c: char): (d: nat)
    requires Digit(c)
    ensures d < 10 && '0' + d as char == c
  {
    (c - '0') as nat
  }

  function ValueOf(s: string): nat
    requires forall i :: 0 <= i < |s| ==> Digit(s[i])
  {
    if s == "" then 0 else 10 * ValueOf(s[..|s| - 1]) + DigitValue(s[|s| - 1])
  }

  lemma {:induction false} ValueOfDecimal(n: nat)
    ensures ValueOf(Decimal(n)) == n
  {
    if n < 10 {
      assert Decimal(n)[..0] == "";
    } else {
      ValueOfDecimal(n / 10);
      var s := Decimal(n);
      assert s[..|s| - 1] == Decimal(n / 10);
      assert s[|s| - 1] == '0' + (n % 10) as char;
    }
  }

  lemma {:induction false} DecimalOfValue(s: string)
    requires s != "" && (forall i :: 0 <= i < |s| ==> Digit(s[i])) && (s[0] == '0' ==> |s| == 1)
    ensures Decimal(ValueOf(s)) == s
  {
    var init, d := s[..|s| - 1], DigitValue(s[|s| - 1]);
    if init == "" {
      assert s == [s[0]];
    } else {
      DecimalOfValue(init);
      PositiveValue(init);
      var h := ValueOf(init);
      assert (10 * h + d) / 10 == h && (10 * h + d) % 10 == d;
      assert s == init + [s[|s| - 1]];
    }
  }

  lemma {:induction false} PositiveValue(s: string)
    requires s != "" && (forall i :: 0 <= i < |s| ==> Digit(s[i])) && s[0] != '0'
    ensures ValueOf(s) > 0
  {
    if |s| > 1 {
      PositiveValue(s[..|s| - 1]);
    } else {
      assert s[..0] == "";
    }
  }

  /** The digits at the front. */
  function Digits(s: string): (n: nat)
    ensures n <= |s| && (forall i :: 0 <= i < n ==> Digit(s[i])) && (n < |s| ==> !Digit(s[n]))
  {
    if s == "" || !Digit(s[0]) then 0 else 1 + Digits(s[1..])
  }

  lemma {:induction false} DigitsAreUnique(s: string, n: nat)
    requires n <= |s| && (forall i :: 0 <= i < n ==> Digit(s[i])) && (n < |s| ==> !Digit(s[n]))
    ensures Digits(s) == n
  {
    if n > 0 {
      DigitsAreUnique(s[1..], n - 1);
    }
  }

  predicate FractionOrExponent(c: char) {
    c == '.' || c == 'e' || c == 'E'
  }

  datatype AckError =
    | TopLevelNotObject | MalformedJson | MissingField | DuplicateField | UnknownField | WrongType
    | NegativeInteger | IntegerOverflow | IntegerOutOfRange | StringEscapeNotAllowed | TrailingData
    | BatchIdMismatch | CountOverflow | CountMismatch | MaxSeqMismatch

  /** A value and what follows it, or the first error. */
  datatype Read<+T> = Got(value: T, rest: string) | Stop(error: AckError)

  /** parseUnsignedInteger() */
  function ReadNumber(s: string): Read<nat> {
    var n := Digits(s);
    if n == 0 then Stop(if s != "" && s[0] == '-' then NegativeInteger else WrongType)
    else if s[0] == '0' && n > 1 then Stop(MalformedJson)
    else if ValueOf(s[..n]) >= U64_LIMIT then Stop(IntegerOverflow)
    else if n < |s| && FractionOrExponent(s[n]) then Stop(WrongType)
    else Got(ValueOf(s[..n]), s[n..])
  }

  predicate EndsNumber(rest: string) {
    rest != "" ==> !Digit(rest[0]) && !FractionOrExponent(rest[0])
  }

  lemma NumberForward(n: nat, rest: string)
    requires n < U64_LIMIT && EndsNumber(rest)
    ensures ReadNumber(Decimal(n) + rest) == Got(n, rest)
  {
    var d := Decimal(n);
    var s := d + rest;
    DigitsAreUnique(s, |d|);
    ValueOfDecimal(n);
    assert s[..|d|] == d && s[|d|..] == rest;
    if n == 0 {
      assert d == "0";
    }
  }

  lemma NumberBackward(s: string)
    requires ReadNumber(s).Got?
    ensures ReadNumber(s).value < U64_LIMIT && EndsNumber(ReadNumber(s).rest)
    ensures Decimal(ReadNumber(s).value) + ReadNumber(s).rest == s
  {
    var n := Digits(s);
    DecimalOfValue(s[..n]);
    assert s[..n] + s[n..] == s;
  }

  // ------------------------------------------------- white space and strings

  function LeadingSpaces(s: string): (n: nat)
    ensures n <= |s| && Spaces(s[..n]) && (n < |s| ==> !Space(s[n]))
  {
    if s == "" || !Space(s[0]) then 0
    else
      assert Spaces(s[1..][..LeadingSpaces(s[1..])]);
      1 + LeadingSpaces(s[1..])
  }

  function Skip(s: string): string {
    s[LeadingSpaces(s)..]
  }

  lemma {:induction false} SkipForward(w: string, rest: string)
    requires Spaces(w) && (rest != "" ==> !Space(rest[0]))
    ensures Skip(w + rest) == rest && LeadingSpaces(w + rest) == |w|
  {
    if w == "" {
      assert w + rest == rest && rest[0..] == rest;
    } else {
      SkipForward(w[1..], rest);
      assert (w + rest)[1..] == w[1..] + rest;
      assert (w + rest)[|w|..] == rest;
    }
  }

  /** How far a string without escapes reaches, up to its closing quote. */
  function PlainLength(s: string): (n: Option<nat>)
    ensures n.Some? ==> n.value < |s| && s[n.value] == '"' && Plain(s[..n.value])
  {
    if s == "" then None
    else if s[0] == '"' then Some(0)
    else if s[0] == '\\' || s[0] as int < 0x20 then None
    else
      match PlainLength(s[1..])
      case None => None
      case Some(n) =>
        PlainGrows(s, n);
        Some(n + 1)
  }

  /** What is wrong with a string that does not reach a closing quote. */
  function PlainError(s: string): AckError {
    if s == "" then MalformedJson
    else if s[0] == '\\' then StringEscapeNotAllowed
    else if s[0] as int < 0x20 then MalformedJson
    else PlainError(s[1..])
  }

  lemma PlainGrows(s: string, n: nat)
    requires s != "" && n < |s| && Plain(s[1..][..n]) && PlainChar(s[0])
    ensures Plain(s[..n + 1])
  {
    assert s[..n + 1] == [s[0]] + s[1..][..n];
  }

  lemma {:induction false} PlainForward(text: string, rest: string)
    requires Plain(text)
    ensures PlainLength(text + "\"" + rest) == Some(|text|)
  {
    var s := text + "\"" + rest;
    if text != "" {
      PlainForward(text[1..], rest);
      assert s[1..] == text[1..] + "\"" + rest;
    }
  }

  /** parseProtocolString(), from its opening quote. */
  function ReadString(s: string, nonString: AckError): Read<string> {
    if s == "" || s[0] != '"' then Stop(nonString)
    else
      match PlainLength(s[1..])
      case None => Stop(PlainError(s[1..]))
      case Some(n) => Got(s[1..n + 1], s[n + 2..])
  }

  function Quoted(text: string): string {
    "\"" + text + "\""
  }

  lemma StringForward(text: string, rest: string, nonString: AckError)
    requires Plain(text)
    ensures ReadString(Quoted(text) + rest, nonString) == Got(text, rest)
  {
    PlainForward(text, rest);
    var s := Quoted(text) + rest;
    assert s[1..] == text + "\"" + rest;
    assert s[1..|text| + 1] == text && s[|text| + 2..] == rest;
  }

  lemma StringBackward(s: string, nonString: AckError)
    requires ReadString(s, nonString).Got?
    ensures var r := ReadString(s, nonString);
            Plain(r.value) && Quoted(r.value) + r.rest == s
  {
    var n := PlainLength(s[1..]).value;
    assert s[1..][..n] == s[1..n + 1] && s[1..][n] == s[n + 1];
    assert s == [s[0]] + s[1..n + 1] + [s[n + 1]] + s[n + 2..];
  }

  // -------------------------------------------------------------- the object

  function SpellValue(v: Value): string {
    match v
    case Text(t) => Quoted(t)
    case Number(n) => Decimal(n)
  }

  function Spell(m: Member): string {
    m.w0 + (Quoted(KeyText(m.field)) + (m.w1 + (":" + (m.w2 + (SpellValue(m.value) + m.w3)))))
  }

  function SpellMembers(ms: seq<Member>): string
    requires ms != []
  {
    if |ms| == 1 then Spell(ms[0]) else Spell(ms[0]) + "," + SpellMembers(ms[1..])
  }

  /** An acknowledgement as it may be written. */
  function SpellAck(lead: string, ms: seq<Member>, trail: string): string
    requires ms != []
  {
    lead + ("{" + (SpellMembers(ms) + ("}" + trail)))
  }

  function ReadValue(field: Field, s: string): Read<Value> {
    if field == BatchIdField then
      match ReadString(s, WrongType)
      case Stop(e) => Stop(e)
      case Got(t, rest) => Got(Text(t), rest)
    else
      match ReadNumber(s)
      case Stop(e) => Stop(e)
      case Got(n, rest) => Got(Number(n), rest)
  }

  /** One member, from the white space before its key to the one behind its value;
    * `seen` are the fields so far. */
  function ReadMember(s: string, seen: set<Field>): (r: Read<Member>)
    ensures r.Got? ==> r.value.field !in seen
  {
    match ReadString(Skip(s), MalformedJson)
    case Stop(e) => Stop(e)
    case Got(key, s1) =>
      var s2 := Skip(s1);
      if s2 == "" || s2[0] != ':' then Stop(MalformedJson)
      else
        var s3 := Skip(s2[1..]);
        var field := FieldOf(key);
        if field.None? then Stop(UnknownField)
        else if field.value in seen then Stop(DuplicateField)
        else
          match ReadValue(field.value, s3)
          case Stop(e) => Stop(e)
          case Got(value, s4) =>
            Got(Member(s[..LeadingSpaces(s)], field.value, s1[..LeadingSpaces(s1)],
                       s2[1..][..LeadingSpaces(s2[1..])], value, s4[..LeadingSpaces(s4)]), Skip(s4))
  }

  predicate Distinct(ms: seq<Member>) {
    forall i, j :: 0 <= i < j < |ms| ==> ms[i].field != ms[j].field
  }

  predicate AllValid(ms: seq<Member>) {
    forall i :: 0 <= i < |ms| ==> ValidMember(ms[i])
  }

  /** The loop of parse(), behind the opening brace. */
  function ReadMembers(s: string, seen: set<Field>): Read<seq<Member>>
    decreases |s|
  {
    match ReadMember(s, seen)
    case Stop(e) => Stop(e)
    case Got(m, rest) =>
      if rest == "" then Stop(MalformedJson)
      else if rest[0] == '}' then Got([m], rest[1..])
      else if rest[0] != ',' then Stop(MalformedJson)
      else
        MemberShrinks(s, seen);
        match ReadMembers(rest[1..], seen + {m.field})
        case Stop(e) => Stop(e)
        case Got(ms, end) => Got([m] + ms, end)
  }

  lemma MemberShrinks(s: string, seen: set<Field>)
    ensures ReadMember(s, seen).Got? ==> |ReadMember(s, seen).rest| < |s|
  {
    hide LeadingSpaces, ReadString, ReadValue, FieldOf;
    var key := ReadString(Skip(s), MalformedJson);
    StringShrinks(Skip(s), MalformedJson);
    if ReadMember(s, seen).Got? {
      var s3 := Skip(Skip(key.rest)[1..]);
      ValueShrinks(FieldOf(key.value).value, s3);
    }
  }

  lemma StringShrinks(s: string, nonString: AckError)
    ensures ReadString(s, nonString).Got? ==> |ReadString(s, nonString).rest| < |s|
  {
  }

  lemma ValueShrinks(field: Field, s: string)
    ensures ReadValue(field, s).Got? ==> |ReadValue(field, s).rest| <= |s|
  {
  }

  ghost function Resume(ms: seq<Member>, r: Read<seq<Member>>): Read<seq<Member>> {
    match r
    case Stop(e) => Stop(e)
    case Got(more, rest) => Got(ms + more, rest)
  }

  /** One turn of the loop of parse(). */
  lemma MembersStep(s: string, seen: set<Field>)
    ensures ReadMember(s, seen).Stop? ==> ReadMembers(s, seen) == Stop(ReadMember(s, seen).error)
    ensures ReadMember(s, seen).Got? ==>
              var m, rest := ReadMember(s, seen).value, ReadMember(s, seen).rest;
              && |rest| < |s|
              && (rest == "" || (rest[0] != '}' && rest[0] != ',') ==> ReadMembers(s, seen) == Stop(MalformedJson))
              && (rest != "" && rest[0] == '}' ==> ReadMembers(s, seen) == Got([m], rest[1..]))
              && (rest != "" && rest[0] == ',' ==>
                    ReadMembers(s, seen) == Resume([m], ReadMembers(rest[1..], seen + {m.field})))
  {
    hide ReadMember;
    if ReadMember(s, seen).Got? {
      MemberShrinks(s, seen);
    }
  }

  lemma SpellThen(m: Member, rest: string)
    ensures Spell(m) + rest
            == m.w0 + (Quoted(KeyText(m.field)) + (m.w1 + (":" + (m.w2 + (SpellValue(m.value) + (m.w3 + rest))))))
  {
    hide Quoted, SpellValue, KeyText;
  }

  lemma ValueBackward(field: Field, s: string)
    requires ReadValue(field, s).Got?
    ensures var r := ReadValue(field, s);
            && SpellValue(r.value) + r.rest == s
            && if field == BatchIdField then r.value.Text? && Plain(r.value.text)
               else r.value.Number? && r.value.number < U64_LIMIT
  {
    if field == BatchIdField { StringBackward(s, WrongType); } else { NumberBackward(s); }
  }

  lemma MemberBackward(s: string, seen: set<Field>)
    ensures var r := ReadMember(s, seen);
            r.Got? ==> ValidMember(r.value) && Spell(r.value) + r.rest == s
  {
    hide LeadingSpaces, ReadString, ReadNumber, ReadValue, PlainLength, Quoted, SpellValue, Spell, FieldOf, Plain;
    if ReadMember(s, seen).Got? {
      var m, rest := ReadMember(s, seen).value, ReadMember(s, seen).rest;
      var s1 := ReadString(Skip(s), MalformedJson).rest;
      var s2 := Skip(s1);
      var s3 := Skip(s2[1..]);
      var s4 := ReadValue(m.field, s3).rest;
      ValueBackward(m.field, s3);
      LeadingAreSpaces(s);
      LeadingAreSpaces(s1);
      LeadingAreSpaces(s2[1..]);
      LeadingAreSpaces(s4);
      StringBackward(Skip(s), MalformedJson);
      assert ReadString(Skip(s), MalformedJson).value == KeyText(m.field) by {
        KeyOfField(ReadString(Skip(s), MalformedJson).value);
      }
      SpellThen(m, rest);
      assert s4 == m.w3 + rest;
      assert s3 == SpellValue(m.value) + s4;
      assert s2 == ":" + s2[1..] && s2[1..] == m.w2 + s3;
      assert s1 == m.w1 + s2;
      assert s == m.w0 + Skip(s);
    }
  }

  lemma KeyOfField(key: string)
    ensures FieldOf(key).Some? ==> KeyText(FieldOf(key).value) == key
  {
  }

  lemma LeadingAreSpaces(s: string)
    ensures LeadingSpaces(s) <= |s| && Spaces(s[..LeadingSpaces(s)]) && s == s[..LeadingSpaces(s)] + Skip(s)
  {
    var n := LeadingSpaces(s);
    Halves(s, n);
  }

  lemma Halves(s: string, n: nat)
    requires n <= |s|
    ensures s == s[..n] + s[n..]
  {
  }

  lemma MemberForward(m: Member, seen: set<Field>, rest: string)
    requires ValidMember(m) && m.field !in seen && rest != "" && rest[0] in ",}"
    ensures ReadMember(Spell(m) + rest, seen) == Got(m, rest)
  {
    hide LeadingSpaces, ReadString, ReadNumber, ReadValue, PlainLength, Quoted, SpellValue, Spell, FieldOf, Plain;
    hide KeyText, Skip;
    SpellThen(m, rest);
    var s4 := m.w3 + rest;
    var s3 := SpellValue(m.value) + s4;
    var s2 := ":" + (m.w2 + s3);
    var s1 := m.w1 + s2;
    var s0 := Quoted(KeyText(m.field)) + s1;
    SkipForward(m.w3, rest);
    ValueStarts(m, s4);
    SkipForward(m.w2, s3);
    SkipForward(m.w1, s2);
    QuoteStarts(KeyText(m.field), s1);
    SkipForward(m.w0, s0);
    KeysArePlain(m.field);
    StringForward(KeyText(m.field), s1, MalformedJson);
    FieldOfKey(m.field);
    ValueForward(m, rest);
    assert s2[1..] == m.w2 + s3;
    assert (m.w0 + s0)[..|m.w0|] == m.w0 && s1[..|m.w1|] == m.w1 && s2[1..][..|m.w2|] == m.w2 && s4[..|m.w3|] == m.w3;
  }

  lemma QuoteStarts(text: string, rest: string)
    ensures Quoted(text) + rest != "" && (Quoted(text) + rest)[0] == '"'
  {
  }

  lemma KeysArePlain(f: Field)
    ensures Plain(KeyText(f))
  {
  }

  lemma ValueStarts(m: Member, rest: string)
    ensures SpellValue(m.value) + rest != "" && !Space((SpellValue(m.value) + rest)[0])
  {
    if m.value.Number? {
      assert (Decimal(m.value.number) + rest)[0] == Decimal(m.value.number)[0];
    }
  }

  lemma ValueForward(m: Member, rest: string)
    requires ValidMember(m) && rest != "" && rest[0] in ",}"
    ensures ReadValue(m.field, SpellValue(m.value) + (m.w3 + rest)) == Got(m.value, m.w3 + rest)
  {
    if m.field == BatchIdField {
      StringForward(m.value.text, m.w3 + rest, WrongType);
    } else {
      assert EndsNumber(m.w3 + rest) by {
        assert m.w3 != "" ==> Space(m.w3[0]);
      }
      NumberForward(m.value.number, m.w3 + rest);
    }
  }

  // ------------------------------------------------------------- all members

  predicate Unseen(ms: seq<Member>, seen: set<Field>) {
    Distinct(ms) && forall i :: 0 <= i < |ms| ==> ms[i].field !in seen
  }

  lemma {:induction false} MembersBackward(s: string, seen: set<Field>)
    ensures var r := ReadMembers(s, seen);
            r.Got? ==>
              && r.value != [] && AllValid(r.value) && Unseen(r.value, seen)
              && SpellMembers(r.value) + ("}" + r.rest) == s
    decreases |s|
  {
    hide ReadMember, ReadMembers, Spell, ValidMember;
    MembersStep(s, seen);
    if ReadMembers(s, seen).Got? {
      var m, rest := ReadMember(s, seen).value, ReadMember(s, seen).rest;
      MemberBackward(s, seen);
      if rest[0] == '}' {
        assert rest == "}" + rest[1..];
      } else {
        MembersBackward(rest[1..], seen + {m.field});
        var r := ReadMembers(rest[1..], seen + {m.field});
        assert rest == "," + rest[1..];
        assert ([m] + r.value)[1..] == r.value;
        assert s == Spell(m) + ("," + (SpellMembers(r.value) + ("}" + r.rest)));
        assert s == Spell(m) + "," + SpellMembers(r.value) + ("}" + r.rest);
      }
    }
  }

  lemma {:induction false} MembersForward(ms: seq<Member>, seen: set<Field>, rest: string)
    requires ms != [] && AllValid(ms) && Unseen(ms, seen)
    ensures ReadMembers(SpellMembers(ms) + ("}" + rest), seen) == Got(ms, rest)
  {
    hide ReadMember, ReadMembers, Spell, ValidMember;
    if |ms| == 1 {
      MemberForward(ms[0], seen, "}" + rest);
      MembersStep(Spell(ms[0]) + ("}" + rest), seen);
      assert ("}" + rest)[1..] == rest && ms == [ms[0]];
    } else {
      var tail := "," + (SpellMembers(ms[1..]) + ("}" + rest));
      assert SpellMembers(ms) + ("}" + rest) == Spell(ms[0]) + tail;
      MemberForward(ms[0], seen, tail);
      MembersStep(Spell(ms[0]) + tail, seen);
      assert tail[1..] == SpellMembers(ms[1..]) + ("}" + rest);
      MembersForward(ms[1..], seen + {ms[0].field}, rest);
      assert ms == [ms[0]] + ms[1..];
    }
  }

  // ------------------------------------------------------------ the whole reader

  datatype IngestAck = IngestAck(
    stored: nat, duplicates: nat, maxSeq: nat, serverUtcMs: nat, desiredConfigRevision: nat)

  function NumberAt(ms: seq<Member>, field: Field): nat {
    if ms == [] then 0
    else if ms[0].field == field && ms[0].value.Number? then ms[0].value.number
    else NumberAt(ms[1..], field)
  }

  function TextAt(ms: seq<Member>): string {
    if ms == [] then ""
    else if ms[0].field == BatchIdField && ms[0].value.Text? then ms[0].value.text
    else TextAt(ms[1..])
  }

  function AckOf(ms: seq<Member>): IngestAck {
    IngestAck(NumberAt(ms, StoredField), NumberAt(ms, DuplicatesField), NumberAt(ms, MaxSeqField),
              NumberAt(ms, ServerUtcField), NumberAt(ms, RevisionField))
  }

  /** What the uploader expects of this answer. */
  datatype Expected = Expected(batchId: string, recordCount: nat, maxSeq: nat)

  predicate Agrees(batchId: string, ack: IngestAck, e: Expected) {
    && batchId == e.batchId
    && ack.stored + ack.duplicates == e.recordCount < U64_LIMIT
    && ack.maxSeq == e.maxSeq
    && ack.stored <= MAX_SIGNED_64 && ack.duplicates <= MAX_SIGNED_64 && ack.maxSeq <= MAX_SIGNED_64
    && ack.serverUtcMs <= MAX_SIGNED_64 && ack.desiredConfigRevision <= MAX_SIGNED_64
  }

  predicate Confirms(ms: seq<Member>, e: Expected) {
    Agrees(TextAt(ms), AckOf(ms), e)
  }

  /** What is wrong with the six members, in the order of the checks. */
  function Objection(batchId: string, ack: IngestAck, e: Expected): (r: Option<AckError>)
    ensures r.None? <==> Agrees(batchId, ack, e)
  {
    if batchId != e.batchId then Some(BatchIdMismatch)
    else if ack.stored + ack.duplicates >= U64_LIMIT then Some(CountOverflow)
    else if ack.stored + ack.duplicates != e.recordCount then Some(CountMismatch)
    else if ack.maxSeq != e.maxSeq then Some(MaxSeqMismatch)
    else if ack.stored <= MAX_SIGNED_64 && ack.duplicates <= MAX_SIGNED_64 && ack.maxSeq <= MAX_SIGNED_64
            && ack.serverUtcMs <= MAX_SIGNED_64 && ack.desiredConfigRevision <= MAX_SIGNED_64 then None
    else Some(IntegerOutOfRange)
  }

  datatype Parsed = Accepted(ack: IngestAck) | Refused(error: AckError)

  predicate Starts(s: string, c: char) {
    s != "" && s[0] == c
  }

  /** parseIngestAck() */
  function Parse(s: string, e: Expected): Parsed {
    var s0 := Skip(s);
    if !Starts(s0, '{') then Refused(TopLevelNotObject)
    else if Starts(Skip(s0[1..]), '}') then Refused(MissingField)
    else
      match ReadMembers(s0[1..], {})
      case Stop(x) => Refused(x)
      case Got(ms, rest) =>
        if Skip(rest) != "" then Refused(TrailingData)
        else if |ms| != 6 then Refused(MissingField)
        else
          var objection := Objection(TextAt(ms), AckOf(ms), e);
          if objection.Some? then Refused(objection.value) else Accepted(AckOf(ms))
  }

  /** Members start with a quoted key, not with the brace of an empty object. */
  lemma MembersStart(s: string, seen: set<Field>)
    ensures ReadMembers(s, seen).Got? ==> Starts(Skip(s), '"')
  {
    hide Skip, ReadMembers, ReadMember;
    MembersStep(s, seen);
    MemberStarts(s, seen);
  }

  lemma MemberStarts(s: string, seen: set<Field>)
    ensures ReadMember(s, seen).Got? ==> Starts(Skip(s), '"')
  {
    hide Skip, PlainLength;
  }

  /** Accepted are exactly the JSON objects with the six fields, each once, in any
    * order and spacing, that confirm this very batch. */
  lemma AcceptsExactlyTheAcknowledgements(s: string, e: Expected, ack: IngestAck)
    ensures Parse(s, e) == Accepted(ack) <==>
            exists lead, ms, trail ::
              && Spaces(lead) && Spaces(trail) && |ms| == 6 && AllValid(ms) && Distinct(ms)
              && s == SpellAck(lead, ms, trail) && Confirms(ms, e) && ack == AckOf(ms)
  {
    hide LeadingSpaces, ReadMembers, Agrees, Objection, AckOf, SpellMembers, ValidMember;
    if Parse(s, e) == Accepted(ack) {
      var s0 := Skip(s);
      var r := ReadMembers(s0[1..], {});
      LeadingAreSpaces(s);
      LeadingAreSpaces(r.rest);
      MembersBackward(s0[1..], {});
      var lead, trail := s[..LeadingSpaces(s)], r.rest[..LeadingSpaces(r.rest)];
      assert r.rest == trail;
      assert s0 == "{" + s0[1..];
      assert s == SpellAck(lead, r.value, trail);
    }
    if lead, ms, trail :| && Spaces(lead) && Spaces(trail) && |ms| == 6 && AllValid(ms) && Distinct(ms)
                          && s == SpellAck(lead, ms, trail) && Confirms(ms, e) && ack == AckOf(ms) {
      var s0 := "{" + (SpellMembers(ms) + ("}" + trail));
      SkipForward(lead, s0);
      SkipForward(trail, "");
      assert trail + "" == trail;
      assert s0[1..] == SpellMembers(ms) + ("}" + trail);
      MembersForward(ms, {}, trail);
      MembersStart(s0[1..], {});
    }
  }

  /** The answer for another batch, another count or another last sequence never
    * licenses a deletion. */
  lemma LicensesOneBatchOnly(s: string, e: Expected, other: Expected)
    ensures Parse(s, e).Accepted? && Parse(s, other).Accepted? ==> e == other
  {
  }

  // ------------------------------------------------------- the cursor itself

  function SetValue(a: IngestAck, field: Field, value: Value): IngestAck {
    if value.Text? then a
    else
      match field
      case StoredField => a.(stored := value.number)
      case DuplicatesField => a.(duplicates := value.number)
      case MaxSeqField => a.(maxSeq := value.number)
      case ServerUtcField => a.(serverUtcMs := value.number)
      case RevisionField => a.(desiredConfigRevision := value.number)
      case BatchIdField => a
  }

  function SetField(a: IngestAck, m: Member): IngestAck {
    SetValue(a, m.field, m.value)
  }

  function FieldsOf(ms: seq<Member>): set<Field> {
    set m | m in ms :: m.field
  }

  lemma {:induction false} NumberAppend(ms: seq<Member>, m: Member, field: Field)
    requires m.field !in FieldsOf(ms)
    ensures NumberAt(ms + [m], field)
            == if m.field == field && m.value.Number? then m.value.number else NumberAt(ms, field)
  {
    if ms == [] {
      assert [] + [m] == [m] && [m][1..] == [];
    } else {
      assert (ms + [m])[1..] == ms[1..] + [m];
      assert ms[0] in ms && forall x :: x in ms[1..] ==> x in ms;
      NumberAppend(ms[1..], m, field);
      if field == m.field {
        NotThere(ms[1..], field);
        NotThere(ms, field);
      }
    }
  }

  lemma {:induction false} NotThere(ms: seq<Member>, field: Field)
    requires field !in FieldsOf(ms)
    ensures NumberAt(ms, field) == 0
  {
    if ms != [] {
      assert ms[0] in ms && forall x :: x in ms[1..] ==> x in ms;
      NotThere(ms[1..], field);
    }
  }

  lemma {:induction false} TextAppend(ms: seq<Member>, m: Member)
    requires m.field !in FieldsOf(ms)
    ensures TextAt(ms + [m])
            == if m.field == BatchIdField && m.value.Text? then m.value.text else TextAt(ms)
  {
    if ms == [] {
      assert [] + [m] == [m] && [m][1..] == [];
    } else {
      assert (ms + [m])[1..] == ms[1..] + [m];
      assert ms[0] in ms && forall x :: x in ms[1..] ==> x in ms;
      TextAppend(ms[1..], m);
      if m.field == BatchIdField {
        NoText(ms);
        NoText(ms[1..]);
      }
    }
  }

  lemma {:induction false} NoText(ms: seq<Member>)
    requires BatchIdField !in FieldsOf(ms)
    ensures TextAt(ms) == ""
  {
    if ms != [] {
      assert ms[0] in ms && forall x :: x in ms[1..] ==> x in ms;
      NoText(ms[1..]);
    }
  }

  lemma AckAppend(ms: seq<Member>, m: Member)
    requires ValidMember(m) && m.field !in FieldsOf(ms)
    ensures AckOf(ms + [m]) == SetField(AckOf(ms), m)
    ensures TextAt(ms + [m]) == if m.value.Text? then m.value.text else TextAt(ms)
    ensures FieldsOf(ms + [m]) == FieldsOf(ms) + {m.field}
  {
    hide NumberAt, TextAt;
    NumberAppend(ms, m, StoredField);
    NumberAppend(ms, m, DuplicatesField);
    NumberAppend(ms, m, MaxSeqField);
    NumberAppend(ms, m, ServerUtcField);
    NumberAppend(ms, m, RevisionField);
    TextAppend(ms, m);
  }

  lemma {:induction false} ValueMonotone(s: string, n: nat)
    requires n <= |s| && forall i :: 0 <= i < |s| ==> Digit(s[i])
    ensures ValueOf(s[..n]) <= ValueOf(s)
  {
    if n == |s| {
      assert s[..n] == s;
    } else {
      ValueMonotone(s[..|s| - 1], n);
      assert s[..|s| - 1][..n] == s[..n];
    }
  }

  predicate AllDigits(s: string) {
    forall i :: 0 <= i < |s| ==> Digit(s[i])
  }

  lemma LeadingZero(s: string)
    requires s != "" && s[0] == '0'
    ensures ReadNumber(s) == if |s| > 1 && Digit(s[1]) then Stop(MalformedJson)
                             else if |s| > 1 && FractionOrExponent(s[1]) then Stop(WrongType)
                             else Got(0, s[1..])
  {
    if |s| == 1 || !Digit(s[1]) {
      DigitsAreUnique(s, 1);
      assert s[..1][..0] == "" && ValueOf(s[..1]) == 0;
    } else {
      assert Digits(s) > 1;
    }
  }

  lemma NoDigits(s: string)
    ensures s[..0] == "" && ValueOf("") == 0
  {
  }

  lemma OneMoreDigit(s: string, k: nat)
    requires k < |s| && AllDigits(s[..k]) && Digit(s[k])
    ensures AllDigits(s[..k + 1]) && ValueOf(s[..k + 1]) == 10 * ValueOf(s[..k]) + DigitValue(s[k])
  {
    assert s[..k + 1] == s[..k] + [s[k]];
    assert s[..k + 1][..k] == s[..k];
  }

  lemma {:induction false} DigitsReach(s: string, k: nat)
    requires k <= |s| && AllDigits(s[..k])
    ensures k <= Digits(s)
  {
    if k > 0 {
      assert s[..k][0] == s[0];
      assert s[1..][..k - 1] == s[..k][1..];
      DigitsReach(s[1..], k - 1);
    }
  }

  lemma Overflows(s: string, k: nat)
    requires 0 < k <= |s| && AllDigits(s[..k]) && ValueOf(s[..k]) >= U64_LIMIT
    ensures s[0] != '0' ==> ReadNumber(s) == Stop(IntegerOverflow)
  {
    DigitsReach(s, k);
    ValueMonotone(s[..Digits(s)], k);
    assert s[..Digits(s)][..k] == s[..k];
  }

  lemma AllDigitsCount(s: string, k: nat)
    requires k <= |s| && AllDigits(s[..k]) && (k < |s| ==> !Digit(s[k]))
    ensures Digits(s) == k
  {
    forall i | 0 <= i < k ensures Digit(s[i]) {
      assert s[..k][i] == s[i];
    }
    DigitsAreUnique(s, k);
  }

  /** Where the loop of parseProtocolString() stops, and with what. */
  lemma {:induction false} PlainEnds(s: string, k: nat)
    requires k <= |s| && Plain(s[..k]) && (k == |s| || !PlainChar(s[k]))
    ensures PlainLength(s) == if k < |s| && s[k] == '"' then Some(k) else None
    ensures k == |s| || s[k] != '"' ==>
              PlainError(s) == if k < |s| && s[k] == '\\' then StringEscapeNotAllowed else MalformedJson
  {
    if k > 0 {
      assert s[0] == s[..k][0];
      assert s[1..][..k - 1] == s[..k][1..];
      PlainEnds(s[1..], k - 1);
    }
  }

  lemma PlainStart(s: string)
    ensures Plain(s[..0])
  {
  }

  lemma PlainMore(s: string, k: nat)
    requires k < |s| && Plain(s[..k]) && PlainChar(s[k])
    ensures Plain(s[..k + 1])
  {
  }

  lemma Slices(s: string, p: nat, i: nat, j: nat)
    requires i <= j && p + j <= |s|
    ensures s[p..][i..j] == s[p + i..p + j] && s[p..][j..] == s[p + j..]
  {
  }

  class AckParser {
    const input: string
    const expected: Expected
    var position: nat
    var seenFields: set<Field>
    var batchId: string
    var ack: IngestAck
    var error: Option<AckError>

    ghost predicate Valid()
      reads this
    {
      position <= |input|
    }

    ghost function Rest(): string
      reads this
      requires Valid()
    {
      input[position..]
    }

    constructor (input: string, expected: Expected)
      ensures this.input == input && this.expected == expected && Valid() && Rest() == input
      ensures seenFields == {} && batchId == "" && ack == IngestAck(0, 0, 0, 0, 0) && error == None
    {
      this.input, this.expected := input, expected;
      position, seenFields, batchId, ack, error := 0, {}, "", IngestAck(0, 0, 0, 0, 0), None;
    }

    method SkipWhitespace()
      requires Valid()
      modifies this`position
      ensures Valid() && Rest() == Skip(old(Rest()))
    {
      while position < |input| && Space(input[position])
        invariant Valid() && Skip(Rest()) == Skip(old(Rest()))
      {
        assert Rest()[1..] == input[position + 1..];
        position := position + 1;
      }
    }

    method Consume(c: char) returns (ok: bool)
      requires Valid()
      modifies this`position
      ensures Valid() && (ok <==> old(Rest()) != "" && old(Rest())[0] == c)
      ensures Rest() == if ok then old(Rest())[1..] else old(Rest())
    {
      ok := position < |input| && input[position] == c;
      if ok {
        position := position + 1;
      }
    }

    method ParseProtocolString(nonString: AckError) returns (value: Option<string>)
      requires Valid()
      modifies this`position, this`error
      ensures Valid()
      ensures match ReadString(old(Rest()), nonString)
              case Stop(e) => value == None && error == Some(e)
              case Got(text, rest) => value == Some(text) && Rest() == rest
    {
      hide PlainLength, PlainError, Plain;
      ghost var s := Rest();
      var ok := Consume('"');
      if !ok {
        error := Some(nonString);
        return None;
      }
      value := ScanPlain();
      if value.Some? {
        Slices(s, 1, 0, |value.value|);
        Slices(s, 1, 0, |value.value| + 1);
      }
    }

    /** The loop up to the closing quote. */
    method ScanPlain() returns (value: Option<string>)
      requires Valid()
      modifies this`position, this`error
      ensures Valid()
      ensures match PlainLength(old(Rest()))
              case None => value == None && error == Some(PlainError(old(Rest())))
              case Some(n) => value == Some(old(Rest())[..n]) && Rest() == old(Rest())[n + 1..]
    {
      hide PlainLength, PlainError, Plain;
      var start := position;
      ghost var body := Rest();
      PlainStart(body);
      while position < |input|
        invariant start <= position <= |input| && Plain(body[..position - start])
      {
        var c := input[position];
        ghost var k := position - start;
        assert body[k] == c;
        if c == '"' {
          PlainEnds(body, k);
          Slices(input, start, 0, k);
          Slices(input, start, 0, k + 1);
          position := position + 1;
          return Some(input[start..position - 1]);
        }
        if c == '\\' || c as int < 0x20 {
          PlainEnds(body, k);
          error := Some(if c == '\\' then StringEscapeNotAllowed else MalformedJson);
          return None;
        }
        PlainMore(body, k);
        position := position + 1;
      }
      PlainEnds(body, |body|);
      error := Some(MalformedJson);
      return None;
    }

    method ParseUnsignedInteger() returns (value: Option<nat>)
      requires Valid()
      modifies this`position, this`error
      ensures Valid()
      ensures match ReadNumber(old(Rest()))
              case Stop(e) => value == None && error == Some(e)
              case Got(n, rest) => value == Some(n) && Rest() == rest
    {
      ghost var s := Rest();
      if position >= |input| || !Digit(input[position]) {
        error := Some(if position < |input| && input[position] == '-' then NegativeInteger else WrongType);
        return None;
      }
      if input[position] == '0' {
        position := position + 1;
        assert Rest() == s[1..];
        LeadingZero(s);
        if position < |input| && (Digit(input[position]) || FractionOrExponent(input[position])) {
          assert Rest()[0] == s[1];
          error := Some(if Digit(input[position]) then MalformedJson else WrongType);
          return None;
        }
        return Some(0);
      }
      value := ParseDigits();
    }

    /** The loop over the digits, with its overflow check. */
    method ParseDigits() returns (value: Option<nat>)
      requires Valid() && Rest() != "" && Digit(Rest()[0]) && Rest()[0] != '0'
      modifies this`position, this`error
      ensures Valid()
      ensures match ReadNumber(old(Rest()))
              case Stop(e) => value == None && error == Some(e)
              case Got(n, rest) => value == Some(n) && Rest() == rest
    {
      hide Digits, ValueOf, DigitValue;
      ghost var s, n := Rest(), Digits(Rest());
      var start, parsed := position, 0 as nat;
      NoDigits(s);
      while position < |input| && Digit(input[position])
        invariant start <= position <= |input| && AllDigits(s[..position - start])
        invariant parsed == ValueOf(s[..position - start]) < U64_LIMIT
      {
        ghost var k := position - start;
        assert input[position] == s[k];
        OneMoreDigit(s, k);
        var digit := DigitValue(input[position]);
        if parsed > (U64_LIMIT - 1 - digit) / 10 {
          Overflows(s, k + 1);
          error := Some(IntegerOverflow);
          return None;
        }
        parsed := parsed * 10 + digit;
        position := position + 1;
      }
      ghost var k := position - start;
      assert Rest() == s[k..] && (k < |s| ==> s[k] == input[position]);
      AllDigitsCount(s, k);
      if position < |input| && FractionOrExponent(input[position]) {
        error := Some(WrongType);
        return None;
      }
      return Some(parsed);
    }

    /** parseField() */
    method ParseField(key: string) returns (ok: bool, ghost value: Value)
      requires Valid()
      modifies this
      ensures Valid()
      ensures var field := FieldOf(key);
              if field.None? then !ok && error == Some(UnknownField)
              else if field.value in old(seenFields) then !ok && error == Some(DuplicateField)
              else
                match ReadValue(field.value, old(Rest()))
                case Stop(e) => !ok && error == Some(e)
                case Got(v, rest) =>
                  && ok && value == v && Rest() == rest && seenFields == old(seenFields) + {field.value}
                  && ack == SetValue(old(ack), field.value, v)
                  && batchId == if v.Text? then v.text else old(batchId)
    {
      hide ReadString, ReadNumber, KeyText, FieldOf;
      value := Number(0);
      var field := FieldOf(key);
      if field.None? || field.value in seenFields {
        error := Some(if field.None? then UnknownField else DuplicateField);
        return false, value;
      }
      seenFields := seenFields + {field.value};
      if field.value == BatchIdField {
        var text := ParseProtocolString(WrongType);
        if text.None? {
          return false, value;
        }
        batchId := text.value;
        return true, Text(text.value);
      }
      var number := ParseUnsignedInteger();
      if number.None? {
        return false, value;
      }
      match field.value {
        case StoredField => ack := ack.(stored := number.value);
        case DuplicatesField => ack := ack.(duplicates := number.value);
        case MaxSeqField => ack := ack.(maxSeq := number.value);
        case ServerUtcField => ack := ack.(serverUtcMs := number.value);
        case RevisionField => ack := ack.(desiredConfigRevision := number.value);
      }
      return true, Number(number.value);
    }

    /** From the white space before a key to the one behind the value. */
    method ParseMember() returns (ok: bool, ghost m: Member)
      requires Valid()
      modifies this
      ensures Valid()
      ensures ok ==> ReadMember(old(Rest()), old(seenFields)) == Got(m, Rest())
                     && seenFields == old(seenFields) + {m.field}
                     && ack == SetField(old(ack), m)
                     && batchId == if m.value.Text? then m.value.text else old(batchId)
      ensures !ok ==> error.Some? && ReadMember(old(Rest()), old(seenFields)) == Stop(error.value)
    {
      hide ReadString, ReadValue, LeadingSpaces, Skip, FieldOf, SetValue;
      ghost var s := Rest();
      m := Member("", StoredField, "", "", Number(0), "");
      SkipWhitespace();
      var key := ParseProtocolString(MalformedJson);
      if key.None? {
        return false, m;
      }
      ghost var s1 := Rest();
      SkipWhitespace();
      ghost var s2 := Rest();
      var colon := Consume(':');
      if !colon {
        error := Some(MalformedJson);
        return false, m;
      }
      SkipWhitespace();
      ghost var value;
      ok, value := ParseField(key.value);
      if !ok {
        return false, m;
      }
      ghost var s4 := Rest();
      SkipWhitespace();
      m := Member(s[..LeadingSpaces(s)], FieldOf(key.value).value, s1[..LeadingSpaces(s1)],
                  s2[1..][..LeadingSpaces(s2[1..])], value, s4[..LeadingSpaces(s4)]);
      return true, m;
    }

    /** The loop of parse(). */
    method ParseMembers() returns (ok: bool, ghost ms: seq<Member>)
      requires Valid() && seenFields == {} && batchId == "" && ack == IngestAck(0, 0, 0, 0, 0)
      modifies this
      ensures Valid()
      ensures ok ==> ReadMembers(old(Rest()), {}) == Got(ms, Rest()) && ack == AckOf(ms)
                     && batchId == TextAt(ms) && seenFields == FieldsOf(ms) && |ms| == |seenFields|
      ensures !ok ==> error.Some? && ReadMembers(old(Rest()), {}) == Stop(error.value)
    {
      hide ReadMember, ReadMembers, ValidMember, SetField, AckOf, TextAt, FieldsOf;
      ghost var whole := Rest();
      ms := [];
      NothingYet(ReadMembers(whole, {}));
      while true
        invariant Valid() && seenFields == FieldsOf(ms) && |ms| == |seenFields|
        invariant ack == AckOf(ms) && batchId == TextAt(ms)
        invariant ReadMembers(whole, {}) == Resume(ms, ReadMembers(Rest(), seenFields))
        decreases |input| - position
      {
        ghost var s, seen := Rest(), seenFields;
        var parsed;
        ghost var m;
        parsed, m := ParseMember();
        MembersStep(s, seen);
        if !parsed {
          return false, ms;
        }
        MemberBackward(s, seen);
        AckAppend(ms, m);
        ghost var rest := Rest();
        var closed := Consume('}');
        if closed {
          ResumeLast(ms, m, rest[1..]);
          ms := ms + [m];
          return true, ms;
        }
        var comma := Consume(',');
        if !comma {
          error := Some(MalformedJson);
          return false, ms;
        }
        ResumeOne(ms, m, ReadMembers(rest[1..], seen + {m.field}));
        ms := ms + [m];
      }
    }

    method ParseAll() returns (r: Parsed)
      requires Valid() && position == 0 && seenFields == {} && batchId == "" && ack == IngestAck(0, 0, 0, 0, 0)
      modifies this
      ensures r == Parse(input, expected)
    {
      hide ReadMembers, Skip, AckOf, TextAt, FieldsOf, Objection;
      assert Rest() == input;
      SkipWhitespace();
      var open := Consume('{');
      if !open {
        return Refused(TopLevelNotObject);
      }
      ghost var body := Rest();
      SkipWhitespace();
      var close := Consume('}');
      if close {
        return Refused(MissingField);
      }
      var ok;
      ghost var ms;
      SpacesFirst(body, {});
      ok, ms := ParseMembers();
      if !ok {
        return Refused(error.value);
      }
      SkipWhitespace();
      if position != |input| {
        return Refused(TrailingData);
      }
      if |seenFields| != 6 {
        return Refused(MissingField);
      }
      r := CheckExpectation();
    }

    /** The checks of parse() behind the last member. */
    method CheckExpectation() returns (r: Parsed)
      ensures var objection := Objection(batchId, ack, expected);
              r == if objection.Some? then Refused(objection.value) else Accepted(ack)
    {
      if batchId != expected.batchId {
        return Refused(BatchIdMismatch);
      }
      if ack.stored > U64_LIMIT - 1 - ack.duplicates {
        return Refused(CountOverflow);
      }
      if ack.stored + ack.duplicates != expected.recordCount {
        return Refused(CountMismatch);
      }
      if ack.maxSeq != expected.maxSeq {
        return Refused(MaxSeqMismatch);
      }
      if ack.stored > MAX_SIGNED_64 || ack.duplicates > MAX_SIGNED_64 || ack.maxSeq > MAX_SIGNED_64
         || ack.serverUtcMs > MAX_SIGNED_64 || ack.desiredConfigRevision > MAX_SIGNED_64 {
        return Refused(IntegerOutOfRange);
      }
      return Accepted(ack);
    }
  }

  /** The white space before the first member may be skipped beforehand. */
  lemma SpacesFirst(s: string, seen: set<Field>)
    ensures match ReadMembers(s, seen)
            case Stop(e) => ReadMembers(Skip(s), seen) == Stop(e)
            case Got(ms, rest) =>
              && ReadMembers(Skip(s), seen).Got? && ReadMembers(Skip(s), seen).rest == rest
              && |ReadMembers(Skip(s), seen).value| == |ms| && TextAt(ReadMembers(Skip(s), seen).value) == TextAt(ms)
              && AckOf(ReadMembers(Skip(s), seen).value) == AckOf(ms)
  {
    hide ReadMember, ReadMembers, AckOf, TextAt, Skip;
    MemberAfterSpaces(s, seen);
    MembersStep(s, seen);
    MembersStep(Skip(s), seen);
    if ReadMember(s, seen).Got? {
      var m, rest := ReadMember(s, seen).value, ReadMember(s, seen).rest;
      SpacesSayNothing(m, []);
      if Starts(rest, ',') && ReadMembers(rest[1..], seen + {m.field}).Got? {
        SpacesSayNothing(m, ReadMembers(rest[1..], seen + {m.field}).value);
      }
    }
  }

  lemma MemberAfterSpaces(s: string, seen: set<Field>)
    ensures match ReadMember(s, seen)
            case Stop(e) => ReadMember(Skip(s), seen) == Stop(e)
            case Got(m, rest) => ReadMember(Skip(s), seen) == Got(m.(w0 := ""), rest)
  {
    hide ReadString, ReadValue, FieldOf;
    assert LeadingSpaces(Skip(s)) == 0;
    assert Skip(Skip(s)) == Skip(s);
  }

  lemma SpacesSayNothing(m: Member, ms: seq<Member>)
    ensures AckOf([m.(w0 := "")] + ms) == AckOf([m] + ms) && TextAt([m.(w0 := "")] + ms) == TextAt([m] + ms)
    ensures [m.(w0 := "")] + [] == [m.(w0 := "")] && [m] + [] == [m]
  {
    assert ([m.(w0 := "")] + ms)[1..] == ms && ([m] + ms)[1..] == ms;
  }

  lemma NothingYet(r: Read<seq<Member>>)
    ensures Resume([], r) == r
    ensures AckOf([]) == IngestAck(0, 0, 0, 0, 0) && TextAt([]) == "" && FieldsOf([]) == {}
  {
    if r.Got? {
      assert [] + r.value == r.value;
    }
  }

  lemma ResumeOne(ms: seq<Member>, m: Member, r: Read<seq<Member>>)
    ensures Resume(ms + [m], r) == Resume(ms, Resume([m], r))
  {
    if r.Got? {
      assert ms + [m] + r.value == ms + ([m] + r.value);
    }
  }

  lemma ResumeLast(ms: seq<Member>, m: Member, rest: string)
    ensures Resume(ms, Got([m], rest)) == Got(ms + [m], rest)
  {
  }

  /** parseIngestAck() */
  method ParseIngestAck(response: string, expected: Expected) returns (r: Parsed)
    ensures r == Parse(response, expected)
  {
    var parser := new AckParser(response, expected);
    r := parser.ParseAll();
  }
}
