/** JSON strings as the dashboard parser reads them (src/dashboard_data.cpp),
  * against section 7 of RFC 8259 and section 4 of RFC 3629.
  */
module JsonStrings {
  import opened Bytes

  // ------------------------------------------------------------------- UTF-8

  /** A Unicode scalar value. */
  predicate Scalar(c: int) {
    0 <= c < 0xd800 || 0xe000 <= c <= 0x10ffff
  }

  type scalar = c: int | 0 <= c < 0xd800 || 0xe000 <= c <= 0x10ffff

  /** Section 3 of RFC 3629. */
  function Utf8(c: scalar): (r: bytes)
    ensures 1 <= |r| <= 4
  {
    if c <= 0x7f then [c]
    else if c <= 0x7ff then [0xc0 + c / 64, 0x80 + c % 64]
    else if c <= 0xffff then [0xe0 + c / 4096, 0x80 + c / 64 % 64, 0x80 + c % 64]
    else [0xf0 + c / 262144, 0x80 + c / 4096 % 64, 0x80 + c / 64 % 64, 0x80 + c % 64]
  }

  function Utf8All(cs: seq<scalar>): bytes {
    if cs == [] then [] else Utf8(cs[0]) + Utf8All(cs[1..])
  }

  predicate Continuation(b: byte) {
    0x80 <= b <= 0xbf
  }

  /** parseRawUtf8(): how many bytes the sequence at the front takes, if it is one. */
  function RawLength(s: bytes): (n: Option<nat>)
    requires s != [] && s[0] >= 0x80
    ensures n.Some? ==> 2 <= n.value <= 4 && n.value <= |s|
  {
    var first := s[0];
    var length := if 0xc2 <= first <= 0xdf then 2
                  else if 0xe0 <= first <= 0xef then 3
                  else if 0xf0 <= first <= 0xf4 then 4 else 0;
    var minimum := if first == 0xe0 then 0xa0 else if first == 0xf0 then 0x90 else 0x80;
    var maximum := if first == 0xed then 0x9f else if first == 0xf4 then 0x8f else 0xbf;
    if length == 0 || |s| < length || s[1] < minimum || s[1] > maximum
       || (length > 2 && !Continuation(s[2])) || (length > 3 && !Continuation(s[3]))
    then None
    else Some(length)
  }

  /** Six more bits from a continuation byte. */
  function Join(c: int, b: byte): int {
    c * 64 + (b as int - 0x80)
  }

  function Decode(b: bytes): (c: int)
    requires 2 <= |b| <= 4
  {
    if |b| == 2 then Join(b[0] as int - 0xc0, b[1])
    else if |b| == 3 then Join(Join(b[0] as int - 0xe0, b[1]), b[2])
    else Join(Join(Join(b[0] as int - 0xf0, b[1]), b[2]), b[3])
  }

  lemma RawIsUtf8(s: bytes)
    requires s != [] && s[0] >= 0x80 && RawLength(s).Some?
    ensures var b := s[..RawLength(s).value];
            Scalar(Decode(b)) && Decode(b) >= 0x80 && Utf8(Decode(b)) == b
  {
    var n := RawLength(s).value;
    var b := s[..n];
    if n == 2 {
      TwoBytes(b);
    } else if n == 3 {
      ThreeBytes(b);
    } else {
      FourBytes(b);
    }
  }

  lemma TwoBytes(b: bytes)
    requires |b| == 2 && 0xc2 <= b[0] <= 0xdf && Continuation(b[1])
    ensures Scalar(Decode(b)) && Decode(b) >= 0x80 && Utf8(Decode(b)) == b
  {
    JoinSplits(b[0] as int - 0xc0, b[1]);
  }

  lemma ThreeBytes(b: bytes)
    requires |b| == 3 && 0xe0 <= b[0] <= 0xef && Continuation(b[1]) && Continuation(b[2])
    requires (b[0] == 0xe0 ==> b[1] >= 0xa0) && (b[0] == 0xed ==> b[1] <= 0x9f)
    ensures Scalar(Decode(b)) && Decode(b) >= 0x80 && Utf8(Decode(b)) == b
  {
    JoinSplits(b[0] as int - 0xe0, b[1]);
    JoinSplits(Join(b[0] as int - 0xe0, b[1]), b[2]);
    Shifts(Decode(b));
  }

  lemma Shifts(c: int)
    ensures c / 4096 == c / 64 / 64 && c / 262144 == c / 64 / 64 / 64
  {
  }

  lemma FourBytes(b: bytes)
    requires |b| == 4 && 0xf0 <= b[0] <= 0xf4 && Continuation(b[1]) && Continuation(b[2]) && Continuation(b[3])
    requires (b[0] == 0xf0 ==> b[1] >= 0x90) && (b[0] == 0xf4 ==> b[1] <= 0x8f)
    ensures Scalar(Decode(b)) && Decode(b) >= 0x80 && Utf8(Decode(b)) == b
  {
    var c1 := Join(b[0] as int - 0xf0, b[1]);
    var c2 := Join(c1, b[2]);
    var c := Join(c2, b[3]);
    assert 0x10000 <= c <= 0x10ffff;
    JoinSplits(b[0] as int - 0xf0, b[1]);
    JoinSplits(c1, b[2]);
    JoinSplits(c2, b[3]);
    hide Join;
    Shifts(c);
  }

  lemma JoinSplits(c: int, b: byte)
    requires Continuation(b)
    ensures Join(c, b) / 64 == c && 0x80 + Join(c, b) % 64 == b
  {
  }

  lemma Utf8IsRaw(c: scalar, rest: bytes)
    requires c >= 0x80
    ensures var s := Utf8(c) + rest;
            s[0] >= 0x80 && RawLength(s) == Some(|Utf8(c)|) && Decode(Utf8(c)) == c
  {
    var s, u := Utf8(c) + rest, Utf8(c);
    assert forall i :: 0 <= i < |u| ==> s[i] == u[i];
    if c <= 0x7ff {
    } else if c <= 0xffff {
      assert c / 4096 == c / 64 / 64;
      assert c / 64 == c / 4096 * 64 + c / 64 % 64;
    } else {
      assert c / 4096 == c / 64 / 64 && c / 262144 == c / 4096 / 64;
      assert c / 64 == c / 4096 * 64 + c / 64 % 64;
      assert c / 4096 == c / 262144 * 64 + c / 4096 % 64;
    }
  }

  /** The raw-byte check accepts exactly the well-formed non-ASCII sequences. */
  lemma RawCheckIsExact(s: bytes, n: nat)
    requires s != [] && s[0] >= 0x80
    ensures RawLength(s) == Some(n) <==> n <= |s| && exists c: scalar :: c >= 0x80 && Utf8(c) == s[..n]
  {
    if RawLength(s) == Some(n) {
      RawIsUtf8(s);
    }
    if n <= |s| && exists c: scalar :: c >= 0x80 && Utf8(c) == s[..n] {
      var c: scalar :| c >= 0x80 && Utf8(c) == s[..n];
      Utf8IsRaw(c, s[n..]);
      assert Utf8(c) + s[n..] == s;
    }
  }

  // ----------------------------------------------------------- hexadecimal quads

  function HexValue(c: byte): Option<nat> {
    if 0x30 <= c <= 0x39 then Some(c - 0x30)
    else if 0x61 <= c <= 0x66 then Some(c - 0x61 + 10)
    else if 0x41 <= c <= 0x46 then Some(c - 0x41 + 10)
    else None
  }

  predicate IsQuad(d: bytes) {
    |d| == 4 && forall i :: 0 <= i < 4 ==> HexValue(d[i]).Some?
  }

  function QuadValue(d: bytes): (v: nat)
    requires IsQuad(d)
    ensures v < 0x1_0000
  {
    ((HexValue(d[0]).value * 16 + HexValue(d[1]).value) * 16 + HexValue(d[2]).value) * 16 + HexValue(d[3]).value
  }

  predicate HighSurrogate(v: nat) { 0xd800 <= v <= 0xdbff }

  predicate LowSurrogate(v: nat) { 0xdc00 <= v <= 0xdfff }

  /** Section 7 of RFC 8259: the code point of a surrogate pair. */
  function PairValue(high: nat, low: nat): (c: scalar)
    requires HighSurrogate(high) && LowSurrogate(low)
    ensures c >= 0x1_0000
  {
    0x1_0000 + (high - 0xd800) * 0x400 + (low - 0xdc00)
  }

  /** Every scalar above the basic plane has one pair, and this is its value. */
  lemma PairIsUtf16(c: scalar, high: nat, low: nat)
    requires c >= 0x1_0000 && HighSurrogate(high) && LowSurrogate(low)
    ensures PairValue(high, low) == c <==>
            high == 0xd800 + (c - 0x1_0000) / 0x400 && low == 0xdc00 + (c - 0x1_0000) % 0x400
  {
  }

  // ------------------------------------------------------------ the string itself

  const QUOTE: byte := 0x22
  const BACKSLASH: byte := 0x5c

  /** One character as it is written. */
  datatype Element =
    | Raw(c: scalar)
    | Simple(letter: byte)
    | Unicode(digits: bytes)
    | Pair(high: bytes, low: bytes)

  function SimpleValue(letter: byte): Option<scalar> {
    if letter == QUOTE || letter == BACKSLASH || letter == 0x2f then Some(letter)
    else if letter == 0x62 then Some(0x08)
    else if letter == 0x66 then Some(0x0c)
    else if letter == 0x6e then Some(0x0a)
    else if letter == 0x72 then Some(0x0d)
    else if letter == 0x74 then Some(0x09)
    else None
  }

  predicate ValidElement(e: Element) {
    match e
    case Raw(c) => c >= 0x20 && c != QUOTE && c != BACKSLASH
    case Simple(letter) => SimpleValue(letter).Some?
    case Unicode(d) => IsQuad(d) && Scalar(QuadValue(d))
    case Pair(h, l) => IsQuad(h) && IsQuad(l) && HighSurrogate(QuadValue(h)) && LowSurrogate(QuadValue(l))
  }

  function Spell(e: Element): (r: bytes)
    ensures ValidElement(e) ==> r != []
  {
    match e
    case Raw(c) => Utf8(c)
    case Simple(letter) => [BACKSLASH, letter]
    case Unicode(d) => [BACKSLASH, 0x75] + d
    case Pair(h, l) => [BACKSLASH, 0x75] + h + [BACKSLASH, 0x75] + l
  }

  function Meaning(e: Element): scalar
    requires ValidElement(e)
  {
    match e
    case Raw(c) => c
    case Simple(letter) => SimpleValue(letter).value
    case Unicode(d) => QuadValue(d)
    case Pair(h, l) => PairValue(QuadValue(h), QuadValue(l))
  }

  datatype ParseError = MalformedJson | InvalidUtf8 | WrongType | StringTooLong | InvalidString

  datatype Read<+T> = Got(value: T, length: nat) | Stop(error: ParseError)

  function ReadUnicode(s: bytes): (r: Read<Element>)
    requires |s| >= 2 && s[0] == BACKSLASH && s[1] == 0x75
    ensures r.Got? ==> ValidElement(r.value) && 0 < r.length <= |s| && s[..r.length] == Spell(r.value)
  {
    if |s| < 6 || !IsQuad(s[2..6]) then Stop(MalformedJson)
    else
      var first := QuadValue(s[2..6]);
      if HighSurrogate(first) then
        if |s| < 8 || s[6] != BACKSLASH || s[7] != 0x75 then Stop(InvalidUtf8)
        else if |s| < 12 || !IsQuad(s[8..12]) then Stop(MalformedJson)
        else if !LowSurrogate(QuadValue(s[8..12])) then Stop(InvalidUtf8)
        else
          assert s[..12] == [BACKSLASH, 0x75] + s[2..6] + [BACKSLASH, 0x75] + s[8..12];
          Got(Pair(s[2..6], s[8..12]), 12)
      else if LowSurrogate(first) then Stop(InvalidUtf8)
      else
        assert s[..6] == [BACKSLASH, 0x75] + s[2..6];
        Got(Unicode(s[2..6]), 6)
  }

  /** The next character of a string that has not ended. */
  function ReadElement(s: bytes): (r: Read<Element>)
    requires s != [] && s[0] != QUOTE
    ensures r.Got? ==> ValidElement(r.value) && 0 < r.length <= |s| && s[..r.length] == Spell(r.value)
  {
    if s[0] == BACKSLASH then
      if |s| < 2 then Stop(MalformedJson)
      else if s[1] == 0x75 then ReadUnicode(s)
      else if SimpleValue(s[1]).Some? then Got(Simple(s[1]), 2)
      else Stop(MalformedJson)
    else if s[0] < 0x20 then Stop(MalformedJson)
    else if s[0] < 0x80 then Got(Raw(s[0]), 1)
    else
      match RawLength(s)
      case None => Stop(InvalidUtf8)
      case Some(n) =>
        RawIsUtf8(s);
        Got(Raw(Decode(s[..n])), n)
  }

  /** Behind the opening quote; the length includes the closing one. */
  function ReadElements(s: bytes): (r: Read<seq<Element>>)
    ensures r.Got? ==> r.length <= |s|
  {
    if s == [] then Stop(MalformedJson)
    else if s[0] == QUOTE then Got([], 1)
    else
      match ReadElement(s)
      case Stop(e) => Stop(e)
      case Got(e, n) =>
        match ReadElements(s[n..])
        case Stop(error) => Stop(error)
        case Got(es, m) => Got([e] + es, n + m)
  }

  predicate AllValid(es: seq<Element>) {
    forall i :: 0 <= i < |es| ==> ValidElement(es[i])
  }

  function SpellAll(es: seq<Element>): bytes {
    if es == [] then [] else Spell(es[0]) + SpellAll(es[1..])
  }

  function Meanings(es: seq<Element>): seq<scalar>
    requires AllValid(es)
  {
    if es == [] then [] else [Meaning(es[0])] + Meanings(es[1..])
  }

  /** What is accepted is a quoted spelling ... */
  lemma {:induction false} ReadIsSound(s: bytes)
    requires ReadElements(s).Got?
    ensures AllValid(ReadElements(s).value)
    ensures s[..ReadElements(s).length] == SpellAll(ReadElements(s).value) + [QUOTE]
  {
    hide ReadElement, Spell;
    if s[0] != QUOTE {
      var e, n := ReadElement(s).value, ReadElement(s).length;
      ReadIsSound(s[n..]);
      var m := ReadElements(s[n..]).length;
      assert s[..n + m] == s[..n] + s[n..][..m];
      assert ReadElements(s).value[1..] == ReadElements(s[n..]).value;
    }
  }

  lemma ReadSpelled(e: Element, rest: bytes)
    requires ValidElement(e)
    ensures var s := Spell(e) + rest;
            s[0] != QUOTE && ReadElement(s) == Got(e, |Spell(e)|)
  {
    var s := Spell(e) + rest;
    match e
    case Raw(c) =>
      if c >= 0x80 {
        Utf8IsRaw(c, rest);
        assert s[..|Utf8(c)|] == Utf8(c);
      }
    case Simple(_) =>
    case Unicode(d) =>
      assert s[2..6] == d;
    case Pair(h, l) =>
      assert s[2..6] == h && s[8..12] == l;
  }

  /** ... and every quoted spelling is accepted, with its own characters. */
  lemma {:induction false} ReadIsComplete(es: seq<Element>, rest: bytes)
    requires AllValid(es)
    ensures ReadElements(SpellAll(es) + [QUOTE] + rest) == Got(es, |SpellAll(es)| + 1)
  {
    hide ReadElement, Spell, ValidElement;
    var s := SpellAll(es) + [QUOTE] + rest;
    if es != [] {
      var tail := SpellAll(es[1..]) + [QUOTE] + rest;
      ReadIsComplete(es[1..], rest);
      ReadSpelled(es[0], tail);
      assert s == Spell(es[0]) + tail;
      assert s[|Spell(es[0])|..] == tail;
      assert es == [es[0]] + es[1..];
    }
  }

  lemma ReadLength(s: bytes)
    requires ReadElements(s).Got?
    ensures ReadElements(s).length <= |s|
  {
  }

  /** Exactly the strings of the grammar, and each in one way. */
  lemma AcceptsExactlyTheGrammar(s: bytes, es: seq<Element>, n: nat)
    ensures ReadElements(s) == Got(es, n) <==>
            AllValid(es) && n <= |s| && s[..n] == SpellAll(es) + [QUOTE]
  {
    hide ReadElements, SpellAll, ValidElement;
    if ReadElements(s) == Got(es, n) {
      ReadIsSound(s);
      ReadLength(s);
    }
    if AllValid(es) && n <= |s| && s[..n] == SpellAll(es) + [QUOTE] {
      ReadIsComplete(es, s[n..]);
      assert s == SpellAll(es) + [QUOTE] + s[n..];
    }
  }

  // ----------------------------------------------------------- the fixed buffer

  const BUFFER_SIZE := 96

  class DecodedString {
    const data: array<byte>
    var length: nat
    var truncated: bool
    var containsNull: bool
    ghost var text: bytes

    ghost predicate Valid()
      reads this, data
    {
      && data.Length == BUFFER_SIZE && length == |text|
      && truncated == (|text| > BUFFER_SIZE)
      && containsNull == (0 in text)
      && data[..Min(|text|, BUFFER_SIZE)] == text[..Min(|text|, BUFFER_SIZE)]
    }

    constructor ()
      ensures Valid() && text == [] && fresh(data)
    {
      data := new byte[BUFFER_SIZE];
      length, truncated, containsNull, text := 0, false, false, [];
    }

    method AppendByte(b: byte)
      requires Valid()
      modifies this, data
      ensures Valid() && text == old(text) + [b]
    {
      if b == 0 {
        containsNull := true;
      }
      if length < BUFFER_SIZE {
        data[length] := b;
      } else {
        truncated := true;
      }
      length, text := length + 1, text + [b];
    }

    method AppendAll(b: bytes)
      requires Valid()
      modifies this, data
      ensures Valid() && text == old(text) + b
    {
      for i := 0 to |b|
        invariant Valid() && text == old(text) + b[..i]
      {
        AppendByte(b[i]);
      }
      assert b[..|b|] == b;
    }

    /** appendCodePoint() */
    method AppendCodePoint(c: scalar)
      requires Valid()
      modifies this, data
      ensures Valid() && text == old(text) + Utf8(c)
    {
      hide DecodedString.Valid;
      if c <= 0x7f {
        AppendByte(c);
      } else if c <= 0x7ff {
        AppendByte(0xc0 + c / 64);
        AppendByte(0x80 + c % 64);
      } else if c <= 0xffff {
        AppendByte(0xe0 + c / 4096);
        AppendByte(0x80 + c / 64 % 64);
        AppendByte(0x80 + c % 64);
      } else {
        AppendByte(0xf0 + c / 262144);
        AppendByte(0x80 + c / 4096 % 64);
        AppendByte(0x80 + c / 64 % 64);
        AppendByte(0x80 + c % 64);
      }
    }
  }

  function Min(a: nat, b: nat): nat {
    if a < b then a else b
  }

  class Parser {
    const input: bytes
    var position: nat
    var error: Option<ParseError>

    constructor (input: bytes)
      ensures this.input == input && position == 0 && error == None
    {
      this.input, position, error := input, 0, None;
    }

    /** The body of one turn of parseString(). */
    method ReadOne(decoded: DecodedString) returns (ok: bool)
      requires decoded.Valid() && position < |input| && input[position] != QUOTE
      modifies this, decoded, decoded.data
      ensures decoded.Valid() && position <= |input|
      ensures match ReadElement(old(input[position..]))
              case Stop(e) => !ok && error == Some(e)
              case Got(e, n) => ok && position == old(position) + n
                                && decoded.text == old(decoded.text) + Utf8(Meaning(e))
    {
      hide Utf8, Spell, ReadUnicode, RawLength;
      ghost var s := input[position..];
      var b := input[position];
      if b == BACKSLASH {
        if position + 1 >= |input| {
          error := Some(MalformedJson);
          return false;
        }
        var letter := input[position + 1];
        if letter == 0x75 {
          ok := ReadUnicodeEscape(decoded);
          return;
        }
        var value := SimpleValue(letter);
        if value.None? {
          error := Some(MalformedJson);
          return false;
        }
        position := position + 2;
        decoded.AppendCodePoint(value.value);
        return true;
      }
      if b < 0x20 {
        error := Some(MalformedJson);
        return false;
      }
      if b < 0x80 {
        position := position + 1;
        decoded.AppendCodePoint(b);
        return true;
      }
      var n := RawLength(input[position..]);
      if n.None? {
        error := Some(InvalidUtf8);
        return false;
      }
      RawIsUtf8(s);
      decoded.AppendAll(input[position..position + n.value]);
      assert input[position..position + n.value] == s[..n.value];
      position := position + n.value;
      return true;
    }

    /** parseUnicodeEscape(), from its backslash. */
    method ReadUnicodeEscape(decoded: DecodedString) returns (ok: bool)
      requires decoded.Valid() && position + 2 <= |input|
      requires input[position] == BACKSLASH && input[position + 1] == 0x75
      modifies this, decoded, decoded.data
      ensures decoded.Valid() && position <= |input|
      ensures match ReadUnicode(old(input[position..]))
              case Stop(e) => !ok && error == Some(e)
              case Got(e, n) => ok && position == old(position) + n
                                && decoded.text == old(decoded.text) + Utf8(Meaning(e))
    {
      hide Utf8, Spell, QuadValue, IsQuad;
      ghost var s := input[position..];
      if position + 6 > |input| || !IsQuad(input[position + 2..position + 6]) {
        assert |s| >= 6 ==> s[2..6] == input[position + 2..position + 6];
        error := Some(MalformedJson);
        return false;
      }
      assert s[2..6] == input[position + 2..position + 6];
      var first := QuadValue(input[position + 2..position + 6]);
      var codePoint := first;
      var size := 6;
      if HighSurrogate(first) {
        if position + 8 > |input| || input[position + 6] != BACKSLASH || input[position + 7] != 0x75 {
          error := Some(InvalidUtf8);
          return false;
        }
        if position + 12 > |input| || !IsQuad(input[position + 8..position + 12]) {
          assert |s| >= 12 ==> s[8..12] == input[position + 8..position + 12];
          error := Some(MalformedJson);
          return false;
        }
        assert s[8..12] == input[position + 8..position + 12];
        var second := QuadValue(input[position + 8..position + 12]);
        if !LowSurrogate(second) {
          error := Some(InvalidUtf8);
          return false;
        }
        codePoint, size := PairValue(first, second), 12;
      } else if LowSurrogate(first) {
        error := Some(InvalidUtf8);
        return false;
      }
      position := position + size;
      decoded.AppendCodePoint(codePoint);
      return true;
    }

    /** parseString(): whatever is accepted was decoded to well-formed UTF-8, the
      * encoding of the characters that the grammar gives the string. */
    method ParseString(decoded: DecodedString) returns (ok: bool)
      requires decoded.Valid() && decoded.text == [] && position <= |input|
      modifies this, decoded, decoded.data
      ensures decoded.Valid() && position <= |input|
      ensures var start := old(position);
              if start >= |input| || input[start] != QUOTE then !ok && error == Some(MalformedJson)
              else match ReadElements(input[start + 1..])
                   case Stop(e) => !ok && error == Some(e)
                   case Got(es, n) =>
                     && ok && position == start + 1 + n
                     && AllValid(es) && decoded.text == Utf8All(Meanings(es))
    {
      hide ReadElement, Utf8, Spell, ValidElement, Meaning;
      if position >= |input| || input[position] != QUOTE {
        error := Some(MalformedJson);
        return false;
      }
      position := position + 1;
      ghost var start, whole := position, input[position..];
      ghost var es: seq<Element> := [];
      ResumeNothing(ReadElements(whole));
      while position < |input|
        invariant start <= position <= |input| && decoded.Valid() && AllValid(es)
        invariant decoded.text == Utf8All(Meanings(es))
        invariant ReadElements(whole) == Resume(es, position - start, ReadElements(input[position..]))
        decreases |input| - position
      {
        ghost var s := input[position..];
        if input[position] == QUOTE {
          position := position + 1;
          assert es + [] == es;
          return true;
        }
        ok := ReadOne(decoded);
        if !ok {
          return false;
        }
        ghost var e, n := ReadElement(s).value, ReadElement(s).length;
        assert s[n..] == input[position..];
        MeaningsAppend(es, e);
        ResumeOne(es, position - n - start, e, n, ReadElements(s[n..]));
        es := es + [e];
      }
      error := Some(MalformedJson);
      return false;
    }
  }

  ghost function Resume(es: seq<Element>, n: nat, r: Read<seq<Element>>): Read<seq<Element>> {
    match r
    case Stop(e) => Stop(e)
    case Got(more, m) => Got(es + more, n + m)
  }

  lemma ResumeNothing(r: Read<seq<Element>>)
    ensures Resume([], 0, r) == r
  {
    if r.Got? {
      assert [] + r.value == r.value;
    }
  }

  lemma ResumeOne(es: seq<Element>, n: nat, e: Element, m: nat, r: Read<seq<Element>>)
    ensures Resume(es + [e], n + m, r)
            == Resume(es, n, match r case Stop(error) => Stop(error) case Got(more, k) => Got([e] + more, m + k))
  {
    if r.Got? {
      assert es + [e] + r.value == es + ([e] + r.value);
    }
  }

  lemma {:induction false} MeaningsAppend(es: seq<Element>, e: Element)
    requires AllValid(es) && ValidElement(e)
    ensures AllValid(es + [e]) && Utf8All(Meanings(es + [e])) == Utf8All(Meanings(es)) + Utf8(Meaning(e))
  {
    hide ValidElement, Meaning, Utf8;
    if es == [] {
      assert Meanings([e])[1..] == [] && [e][1..] == [];
    } else {
      MeaningsAppend(es[1..], e);
      assert (es + [e])[1..] == es[1..] + [e];
      assert Meanings(es + [e])[1..] == Meanings(es[1..] + [e]);
      assert Meanings(es)[1..] == Meanings(es[1..]);
    }
  }

  datatype Retained = Kept(text: bytes) | Rejected(error: ParseError)

  /** What parseRetainedString() makes of the value at a position: a string that
    * fits, with its terminator, and holds no NUL is kept decoded. */
  ghost function RetainedText(input: bytes, position: nat, capacity: nat): Retained {
    if position >= |input| || input[position] != QUOTE then Rejected(WrongType)
    else
      match ReadElements(input[position + 1..])
      case Stop(e) => Rejected(e)
      case Got(es, _) =>
        ReadIsSound(input[position + 1..]);
        var text := Utf8All(Meanings(es));
        if |text| >= capacity || |text| > BUFFER_SIZE then Rejected(StringTooLong)
        else if 0 in text then Rejected(InvalidString)
        else Kept(text)
  }

  /** These bytes begin with this string, quoted. */
  predicate Written(s: bytes, es: seq<Element>) {
    AllValid(es) && [QUOTE] + SpellAll(es) + [QUOTE] <= s
  }

  /** A string at this position is kept if and only if the bytes spell one whose
    * characters fit the buffer and are not NUL; what is kept is their encoding. */
  lemma KeepsExactlyTheFittingStrings(input: bytes, position: nat, capacity: nat, text: bytes)
    requires position <= |input|
    ensures RetainedText(input, position, capacity) == Kept(text) <==>
            && |text| < capacity && |text| <= BUFFER_SIZE && 0 !in text
            && exists es :: Written(input[position..], es) && text == Utf8All(Meanings(es))
  {
    hide ReadElements, Utf8All, Meanings, AllValid, SpellAll;
    if RetainedText(input, position, capacity) == Kept(text) {
      var es := ReadElements(input[position + 1..]).value;
      WrittenIsRead(input, position, es);
    }
    if es :| Written(input[position..], es) && text == Utf8All(Meanings(es)) {
      WrittenIsRead(input, position, es);
    }
  }

  lemma WrittenIsRead(input: bytes, position: nat, es: seq<Element>)
    requires position <= |input|
    ensures Written(input[position..], es) <==>
            && position < |input| && input[position] == QUOTE
            && ReadElements(input[position + 1..]).Got? && ReadElements(input[position + 1..]).value == es
  {
    hide ReadElements, SpellAll, AllValid;
    if position < |input| {
      var s, body := input[position + 1..], SpellAll(es) + [QUOTE];
      assert input[position..] == [input[position]] + s;
      assert [QUOTE] + SpellAll(es) + [QUOTE] == [QUOTE] + body;
      PrefixTail(QUOTE, body, input[position], s);
      AcceptsExactlyTheGrammar(s, es, |body|);
      if ReadElements(s).Got? {
        AcceptsExactlyTheGrammar(s, es, ReadElements(s).length);
      }
    }
  }

  lemma PrefixTail(a: byte, x: bytes, b: byte, y: bytes)
    ensures [a] + x <= [b] + y <==> a == b && x <= y
  {
    assert ([a] + x)[0] == a && ([a] + x)[1..] == x && ([b] + y)[0] == b && ([b] + y)[1..] == y;
    if [a] + x <= [b] + y {
      assert ([b] + y)[..1 + |x|][1..] == y[..|x|];
    }
    if a == b && x <= y {
      assert ([b] + y)[..1 + |x|] == [b] + y[..|x|];
    }
  }

  /** parseRetainedString(): into a caller's buffer, NUL-terminated. */
  method ParseRetainedString(p: Parser, destination: array<byte>, capacity: nat) returns (ok: bool)
    requires capacity <= destination.Length && p.position <= |p.input|
    modifies p, destination
    ensures match RetainedText(p.input, old(p.position), capacity)
            case Kept(text) => ok && destination[..|text|] == text && destination[|text|] == 0
            case Rejected(e) => !ok && p.error == Some(e) && destination[..] == old(destination[..])
  {
    hide ReadElements, Utf8All, Meanings;
    if p.position >= |p.input| || p.input[p.position] != QUOTE {
      p.error := Some(WrongType);
      return false;
    }
    var decoded := new DecodedString();
    ok := p.ParseString(decoded);
    if !ok {
      return;
    }
    if decoded.length >= capacity || decoded.truncated {
      p.error := Some(StringTooLong);
      return false;
    }
    if decoded.containsNull {
      p.error := Some(InvalidString);
      return false;
    }
    assert decoded.data[..decoded.length] == decoded.text;
    CopyTerminated(destination, decoded.data[..decoded.length]);
  }

  method CopyTerminated(destination: array<byte>, text: bytes)
    requires |text| < destination.Length
    modifies destination
    ensures destination[..|text|] == text && destination[|text|] == 0
  {
    for i := 0 to |text|
      invariant destination[..i] == text[..i]
    {
      destination[i] := text[i];
      assert destination[..i + 1] == destination[..i] + [text[i]];
    }
    assert text[..|text|] == text;
    destination[|text|] := 0;
  }
}
