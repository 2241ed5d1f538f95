/**
  One path segment: the strict percent-encoding profile (section 2.1 of RFC 3986) that gives every
  name exactly one accepted spelling.
 */
module RawSegment {
  import opened Prelude
  import opened Text

  datatype ParseReason =
    | TargetTooLong | InvalidEndpoint | MissingResource | EmptySegment | DotSegment | MalformedEscape
    | EncodedSeparator | EncodedPercent | NoncanonicalEncoding | InvalidUtf8 | ControlCharacter
    | UnsupportedCharacter | DuplicateQuery | NoncanonicalQuery | InvalidQuery

  datatype ParseError = ParseError(reason: ParseReason, offset: nat)

  const PERCENT: byte := 0x25
  const BACKSLASH: byte := 0x5C
  const DOT: byte := 0x2E

  // ---------------------------------------------------------------- UTF-8, section 4 of RFC 3629

  predicate IsTail(b: byte) { 0x80 <= b <= 0xBF }

  /** Length of the well-formed character `s` starts with, or 0. */
  function CharLength(s: Bytes): (n: nat)
    ensures n <= |s|
  {
    if s == [] then 0
    else if s[0] <= 0x7F then 1
    else if |s| >= 2 && 0xC2 <= s[0] <= 0xDF && IsTail(s[1]) then 2
    else if |s| >= 3 && IsTail(s[2])
            && ((s[0] == 0xE0 && 0xA0 <= s[1] <= 0xBF)
                || (0xE1 <= s[0] <= 0xEC && IsTail(s[1]))
                || (s[0] == 0xED && 0x80 <= s[1] <= 0x9F)
                || (0xEE <= s[0] <= 0xEF && IsTail(s[1]))) then 3
    else if |s| >= 4 && IsTail(s[2]) && IsTail(s[3])
            && ((s[0] == 0xF0 && 0x90 <= s[1] <= 0xBF)
                || (0xF1 <= s[0] <= 0xF3 && IsTail(s[1]))
                || (s[0] == 0xF4 && 0x80 <= s[1] <= 0x8F)) then 4
    else 0
  }

  predicate ValidUtf8(s: Bytes)
    decreases |s|
  {
    s == [] || (CharLength(s) > 0 && ValidUtf8(s[CharLength(s)..]))
  }

  // ---------------------------------------------------------------- bytes

  predicate IsDigit(b: byte) { 0x30 <= b <= 0x39 }

  predicate IsUpper(b: byte) { 0x41 <= b <= 0x5A }

  predicate IsLower(b: byte) { 0x61 <= b <= 0x7A }

  predicate IsControl(b: byte) { b < 0x20 || b == 0x7F }

  /** Letters, digits and `-._~+`. */
  predicate Unreserved(b: byte) {
    IsDigit(b) || IsUpper(b) || IsLower(b) || b == 0x2D || b == 0x2E || b == 0x5F || b == 0x7E || b == 0x2B
  }

  predicate IsHexDigit(b: byte) {
    IsDigit(b) || 0x41 <= b <= 0x46 || 0x61 <= b <= 0x66
  }

  function UppercaseHex(b: byte): Option<nat> {
    if IsDigit(b) then Some(b - 0x30)
    else if 0x41 <= b <= 0x46 then Some(b - 0x41 + 10)
    else None
  }

  function HexDigit(n: nat): byte
    requires n < 16
  {
    if n < 10 then 0x30 + n else 0x41 + n - 10
  }

  /** Why an escaped byte is refused. */
  function EscapeRefusal(value: byte): Option<ParseReason> {
    if value == SLASH || value == BACKSLASH then Some(EncodedSeparator)
    else if value == PERCENT then Some(EncodedPercent)
    else if IsControl(value) then Some(ControlCharacter)
    else if Unreserved(value) then Some(NoncanonicalEncoding)
    else None
  }

  /** Why a plain byte is refused. */
  function PlainRefusal(b: byte): Option<ParseReason> {
    if IsControl(b) then Some(ControlCharacter)
    else if !Unreserved(b) then Some(UnsupportedCharacter)
    else None
  }

  // ---------------------------------------------------------------- decoding

  function Prepend(head: Bytes, rest: Result<Bytes, ParseError>): Result<Bytes, ParseError> {
    if rest.Ok? then Ok(head + rest.value) else rest
  }

  function EscapeError(high: byte, low: byte): ParseReason {
    if IsHexDigit(high) && IsHexDigit(low) then NoncanonicalEncoding else MalformedEscape
  }

  /** The bytes spelled by `raw`, whose first byte is at `offset` of the target. */
  function DecodeBytes(raw: Bytes, offset: nat): Result<Bytes, ParseError>
    decreases |raw|
  {
    if raw == [] then Ok([])
    else if raw[0] == PERCENT then
      if |raw| < 3 then Err(ParseError(MalformedEscape, offset))
      else
        var high, low := UppercaseHex(raw[1]), UppercaseHex(raw[2]);
        if high.None? || low.None? then Err(ParseError(EscapeError(raw[1], raw[2]), offset))
        else
          var value: byte := high.value * 16 + low.value;
          if EscapeRefusal(value).Some? then Err(ParseError(EscapeRefusal(value).value, offset))
          else Prepend([value], DecodeBytes(raw[3..], offset + 3))
    else if PlainRefusal(raw[0]).Some? then Err(ParseError(PlainRefusal(raw[0]).value, offset))
    else Prepend([raw[0]], DecodeBytes(raw[1..], offset + 1))
  }

  predicate IsAscii(s: Bytes) {
    forall i :: 0 <= i < |s| ==> s[i] < 0x80
  }

  function Decode(raw: Bytes, offset: nat): Result<Bytes, ParseError> {
    if raw == [] then Err(ParseError(EmptySegment, offset))
    else if !IsAscii(raw) then Err(ParseError(NoncanonicalEncoding, offset))
    else
      var decoded := DecodeBytes(raw, offset);
      if decoded.Err? then decoded
      else if !ValidUtf8(decoded.value) then Err(ParseError(InvalidUtf8, offset))
      else if decoded.value == [DOT] || decoded.value == [DOT, DOT] then Err(ParseError(DotSegment, offset))
      else decoded
  }

  // ---------------------------------------------------------------- the canonical spelling

  /** A byte a name may hold. */
  predicate NameByte(b: byte) {
    !IsControl(b) && b != SLASH && b != BACKSLASH && b != PERCENT
  }

  predicate NameBytes(s: Bytes) {
    forall i :: 0 <= i < |s| ==> NameByte(s[i])
  }

  /** What a segment can name. */
  predicate IsName(s: Bytes) {
    s != [] && NameBytes(s) && ValidUtf8(s) && s != [DOT] && s != [DOT, DOT]
  }

  function EncodeByte(b: byte): Bytes {
    if Unreserved(b) then [b] else [PERCENT, HexDigit(b / 16), HexDigit(b % 16)]
  }

  function Encode(s: Bytes): Bytes {
    if s == [] then [] else EncodeByte(s[0]) + Encode(s[1..])
  }

  lemma HexRoundTrip(b: byte)
    ensures UppercaseHex(HexDigit(b / 16)) == Some(b / 16) && UppercaseHex(HexDigit(b % 16)) == Some(b % 16)
    ensures (b / 16) * 16 + b % 16 == b
  {
  }

  lemma HexUnique(high: byte, low: byte)
    requires UppercaseHex(high).Some? && UppercaseHex(low).Some?
    ensures var value := UppercaseHex(high).value * 16 + UppercaseHex(low).value;
      value <= 0xFF && HexDigit(value / 16) == high && HexDigit(value % 16) == low
  {
  }

  lemma SpelledGrows(b: byte, rest: Bytes)
    requires NameByte(b) && NameBytes(rest)
    ensures NameBytes([b] + rest) && Encode([b] + rest) == EncodeByte(b) + Encode(rest)
  {
    assert ([b] + rest)[1..] == rest;
  }

  /** What decodes is the spelling of what it decodes to. */
  lemma {:induction false} DecodedIsSpelled(raw: Bytes, offset: nat)
    requires DecodeBytes(raw, offset).Ok?
    ensures var s := DecodeBytes(raw, offset).value;
      NameBytes(s) && Encode(s) == raw
    decreases |raw|
  {
    if raw != [] {
      if raw[0] == PERCENT {
        var value: byte := UppercaseHex(raw[1]).value * 16 + UppercaseHex(raw[2]).value;
        HexUnique(raw[1], raw[2]);
        DecodedIsSpelled(raw[3..], offset + 3);
        SpelledGrows(value, DecodeBytes(raw[3..], offset + 3).value);
        assert raw == raw[..3] + raw[3..];
      } else {
        DecodedIsSpelled(raw[1..], offset + 1);
        SpelledGrows(raw[0], DecodeBytes(raw[1..], offset + 1).value);
        assert raw == raw[..1] + raw[1..];
      }
    }
  }

  lemma DecodePlain(b: byte, rest: Bytes, offset: nat)
    requires Unreserved(b)
    ensures DecodeBytes([b] + rest, offset) == Prepend([b], DecodeBytes(rest, offset + 1))
  {
    assert ([b] + rest)[1..] == rest;
  }

  lemma DecodeEscape(b: byte, rest: Bytes, offset: nat)
    requires NameByte(b) && !Unreserved(b)
    ensures DecodeBytes(EncodeByte(b) + rest, offset) == Prepend([b], DecodeBytes(rest, offset + 3))
  {
    HexRoundTrip(b);
    assert (EncodeByte(b) + rest)[3..] == rest;
  }

  /** The spelling of a name's bytes decodes to them. */
  lemma {:induction false} SpelledDecodes(s: Bytes, offset: nat)
    requires NameBytes(s)
    ensures DecodeBytes(Encode(s), offset) == Ok(s)
    decreases |s|
  {
    if s != [] {
      assert NameByte(s[0]);
      if Unreserved(s[0]) {
        SpelledDecodes(s[1..], offset + 1);
        DecodePlain(s[0], Encode(s[1..]), offset);
      } else {
        SpelledDecodes(s[1..], offset + 3);
        DecodeEscape(s[0], Encode(s[1..]), offset);
      }
      assert s == [s[0]] + s[1..];
    }
  }

  predicate SpellingByte(b: byte) {
    Unreserved(b) || b == PERCENT
  }

  lemma {:induction false} SpellingBytes(s: Bytes)
    ensures forall i :: 0 <= i < |Encode(s)| ==> SpellingByte(Encode(s)[i])
    ensures s != [] ==> Encode(s) != []
  {
    if s != [] {
      SpellingBytes(s[1..]);
      HexRoundTrip(s[0]);
    }
  }

  /**
    Decoding is a bijection between accepted spellings and names: a spelling is accepted for a
    name exactly when it is that name's canonical spelling.
   */
  lemma DecodeExact(raw: Bytes, offset: nat, s: Bytes)
    ensures Decode(raw, offset) == Ok(s) <==> IsName(s) && raw == Encode(s)
  {
    SpellingBytes(s);
    if IsName(s) && raw == Encode(s) {
      SpelledDecodes(s, offset);
    }
    if raw != [] && DecodeBytes(raw, offset).Ok? {
      DecodedIsSpelled(raw, offset);
    }
  }

  // ---------------------------------------------------------------- the decoding loop

  lemma PrependTwice(a: Bytes, b: Bytes, rest: Result<Bytes, ParseError>)
    ensures Prepend(a, Prepend(b, rest)) == Prepend(a + b, rest)
  {
    if rest.Ok? { assert a + (b + rest.value) == a + b + rest.value; }
  }

  lemma PrependNothing(rest: Result<Bytes, ParseError>)
    ensures Prepend([], rest) == rest
  {
    if rest.Ok? { assert [] + rest.value == rest.value; }
  }

  /** One turn of the loop: the byte at `index`, and where the next one starts. */
  method DecodeOne(raw: Bytes, index: nat, offset: nat) returns (r: Result<byte, ParseError>, next: nat)
    requires index < |raw|
    ensures r.Ok? ==> index < next <= |raw|
    ensures r.Ok? ==> DecodeBytes(raw[index..], offset + index)
                      == Prepend([r.value], DecodeBytes(raw[next..], offset + next))
    ensures r.Err? ==> DecodeBytes(raw[index..], offset + index) == Err(r.error)
  {
    next := index;
    ghost var rest := raw[index..];
    var byte := raw[index];
    if byte == PERCENT {
      if index + 2 >= |raw| { return Err(ParseError(MalformedEscape, offset + index)), next; }
      var high, low := UppercaseHex(raw[index + 1]), UppercaseHex(raw[index + 2]);
      if high.None? || low.None? {
        return Err(ParseError(EscapeError(raw[index + 1], raw[index + 2]), offset + index)), next;
      }
      var value := high.value * 16 + low.value;
      var refusal := EscapeRefusal(value);
      if refusal.Some? { return Err(ParseError(refusal.value, offset + index)), next; }
      assert rest[3..] == raw[index + 3..];
      return Ok(value), index + 3;
    }
    var refusal := PlainRefusal(byte);
    if refusal.Some? { return Err(ParseError(refusal.value, offset + index)), next; }
    assert rest[1..] == raw[index + 1..];
    return Ok(byte), index + 1;
  }

  method DecodeLoop(raw: Bytes, offset: nat) returns (r: Result<Bytes, ParseError>)
    ensures r == DecodeBytes(raw, offset)
  {
    var decoded: Bytes := [];
    var index := 0;
    assert raw[0..] == raw;
    PrependNothing(DecodeBytes(raw, offset));
    while index < |raw|
      invariant 0 <= index <= |raw|
      invariant Prepend(decoded, DecodeBytes(raw[index..], offset + index)) == DecodeBytes(raw, offset)
    {
      var one, next := DecodeOne(raw, index, offset);
      if one.Err? { return Err(one.error); }
      PrependTwice(decoded, [one.value], DecodeBytes(raw[next..], offset + next));
      decoded := decoded + [one.value];
      index := next;
    }
    assert raw[index..] == [] && decoded + [] == decoded;
    return Ok(decoded);
  }

  method DecodeSegment(raw: Bytes, offset: nat) returns (r: Result<Bytes, ParseError>)
    ensures r == Decode(raw, offset)
  {
    if raw == [] { return Err(ParseError(EmptySegment, offset)); }
    if !IsAscii(raw) { return Err(ParseError(NoncanonicalEncoding, offset)); }
    var decoded := DecodeLoop(raw, offset);
    if decoded.Err? { return decoded; }
    if !ValidUtf8(decoded.value) { return Err(ParseError(InvalidUtf8, offset)); }
    if decoded.value == [DOT] || decoded.value == [DOT, DOT] { return Err(ParseError(DotSegment, offset)); }
    return decoded;
  }
}
