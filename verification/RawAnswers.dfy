/** What the request parser spells, and the error and offset it reports when it refuses. */
module RawAnswers {
  import opened Prelude
  import opened Text
  import opened Endpoints
  import opened RawSegment
  import opened RawQuery
  import opened RawTarget

  // ---------------------------------------------------------------- spellings

  /** The words of the interface, letter by letter. */
  predicate IsWord(s: Bytes, word: string) {
    |s| == |word| && forall i :: 0 <= i < |s| ==> s[i] == word[i] as int
  }

  lemma Words()
    ensures IsWord(V1, "v1") && IsWord(SECRET_MOUNT, "secret") && IsWord(MANAGEMENT_MOUNT, "sys")
    ensures IsWord(FormOf(Data), "data") && IsWord(FormOf(Metadata), "metadata") && IsWord(FormOf(List), "metadata")
    ensures IsWord(FormOf(Delete), "delete") && IsWord(FormOf(Undelete), "undelete") && IsWord(FormOf(Destroy), "destroy")
    ensures IsWord(VERSION_NAME, "version") && IsWord(LIST_NAME, "list") && IsWord(TRUE_VALUE, "true")
    ensures SLASH == '/' as int && QUESTION == '?' as int && AMPERSAND == '&' as int && EQUALS == '=' as int
    ensures PERCENT == '%' as int && RawSegment.BACKSLASH == '\\' as int && DOT == '.' as int
  {
  }

  predicate Between(b: byte, low: char, high: char) { low as int <= b <= high as int }

  /** The characters that stand for themselves. */
  predicate Plain(b: byte) {
    || Between(b, 'A', 'Z') || Between(b, 'a', 'z') || Between(b, '0', '9')
    || b == '-' as int || b == '.' as int || b == '_' as int || b == '~' as int || b == '+' as int
  }

  lemma PlainExact(b: byte)
    ensures Unreserved(b) <==> Plain(b)
  {
  }

  // ---------------------------------------------------------------- errors of a segment

  /** The value of an upper-case hexadecimal digit, and whether it is one in either case. */
  predicate Upper(b: byte) { Between(b, '0', '9') || Between(b, 'A', 'F') }

  predicate AnyCase(b: byte) { Upper(b) || Between(b, 'a', 'f') }

  function Nibble(b: byte): nat
    requires Upper(b)
  {
    if Between(b, '0', '9') then b - '0' as int else b - 'A' as int + 10
  }

  /** What is wrong with the bytes a segment goes on with, if anything is. */
  function Fault(rest: Bytes): Option<ParseReason>
    requires rest != []
  {
    if rest[0] != '%' as int then
      if rest[0] < 0x20 || rest[0] == 0x7F then Some(ControlCharacter)
      else if Plain(rest[0]) then None
      else Some(UnsupportedCharacter)
    else if |rest| < 3 || !AnyCase(rest[1]) || !AnyCase(rest[2]) then Some(MalformedEscape)
    else if !Upper(rest[1]) || !Upper(rest[2]) then Some(NoncanonicalEncoding)
    else
      var value := Nibble(rest[1]) * 16 + Nibble(rest[2]);
      if value == '/' as int || value == '\\' as int then Some(EncodedSeparator)
      else if value == '%' as int then Some(EncodedPercent)
      else if value < 0x20 || value == 0x7F then Some(ControlCharacter)
      else if Plain(value) then Some(NoncanonicalEncoding)
      else None
  }

  /** How many bytes the next character takes. */
  function Width(rest: Bytes): nat
    requires rest != []
  {
    if rest[0] == '%' as int then 3 else 1
  }

  lemma FaultReports(rest: Bytes, offset: nat, reason: ParseReason)
    requires rest != [] && Fault(rest) == Some(reason)
    ensures DecodeBytes(rest, offset) == Err(ParseError(reason, offset))
  {
    PlainExact(rest[0]);
    if rest[0] == PERCENT && |rest| >= 3 && Upper(rest[1]) && Upper(rest[2]) {
      PlainExact(Nibble(rest[1]) * 16 + Nibble(rest[2]));
      assert UppercaseHex(rest[1]) == Some(Nibble(rest[1])) && UppercaseHex(rest[2]) == Some(Nibble(rest[2]));
    }
  }

  /** Without a fault the next character is the spelling of one byte of a name. */
  lemma FaultlessSpells(rest: Bytes) returns (c: byte)
    requires rest != [] && Fault(rest) == None
    ensures Width(rest) <= |rest| && NameByte(c) && rest[..Width(rest)] == EncodeByte(c)
  {
    PlainExact(rest[0]);
    if rest[0] == PERCENT {
      c := Nibble(rest[1]) * 16 + Nibble(rest[2]);
      PlainExact(c);
      assert UppercaseHex(rest[1]) == Some(Nibble(rest[1])) && UppercaseHex(rest[2]) == Some(Nibble(rest[2]));
      HexUnique(rest[1], rest[2]);
    } else {
      c := rest[0];
    }
  }

  lemma OneThen(c: byte, tail: Bytes, offset: nat, r: Result<Bytes, ParseError>)
    requires NameByte(c) && r == DecodeBytes(tail, offset + |EncodeByte(c)|)
    ensures DecodeBytes(EncodeByte(c) + tail, offset) == Prepend([c], r)
  {
    if Unreserved(c) { DecodePlain(c, tail, offset); } else { DecodeEscape(c, tail, offset); }
  }

  lemma EncodeSplit(s: Bytes, b: Bytes)
    requires s != []
    ensures Encode(s) + b == EncodeByte(s[0]) + (Encode(s[1..]) + b)
    ensures |Encode(s)| == |EncodeByte(s[0])| + |Encode(s[1..])|
  {
  }

  lemma {:induction false} SpelledThen(s: Bytes, b: Bytes, offset: nat, r: Result<Bytes, ParseError>)
    requires NameBytes(s) && r == DecodeBytes(b, offset + |Encode(s)|)
    ensures DecodeBytes(Encode(s) + b, offset) == Prepend(s, r)
    decreases |s|
  {
    if s == [] {
      assert Encode(s) + b == b;
      PrependNothing(r);
    } else {
      var c, rest := s[0], s[1..];
      EncodeSplit(s, b);
      SpelledThen(rest, b, offset + |EncodeByte(c)|, r);
      assert NameByte(c);
      OneThen(c, Encode(rest) + b, offset, Prepend(rest, r));
      PrependTwice([c], rest, r);
      assert [c] + rest == s;
    }
  }

  /** The bytes spell bytes of a name. */
  ghost predicate SpellsBytes(raw: Bytes) { exists s :: NameBytes(s) && raw == Encode(s) }

  /** Everything up to position `i` is well spelled, and there something is wrong. */
  ghost predicate FirstFault(raw: Bytes, reason: ParseReason, i: nat) {
    i < |raw| && SpellsBytes(raw[..i]) && Fault(raw[i..]) == Some(reason)
  }

  lemma FaultIsReported(raw: Bytes, offset: nat, reason: ParseReason, i: nat)
    requires FirstFault(raw, reason, i)
    ensures DecodeBytes(raw, offset) == Err(ParseError(reason, offset + i))
  {
    var s :| NameBytes(s) && raw[..i] == Encode(s);
    FaultReports(raw[i..], offset + i, reason);
    SpelledThen(s, raw[i..], offset, Err(ParseError(reason, offset + i)));
    assert raw[..i] + raw[i..] == raw;
  }

  lemma Cut(raw: Bytes, n: nat, i: nat)
    requires n + i <= |raw|
    ensures raw[..i + n] == raw[..n] + raw[n..][..i] && raw[i + n..] == raw[n..][i..]
  {
  }

  lemma FaultLater(raw: Bytes, c: byte, n: nat, reason: ParseReason, i: nat)
    requires n <= |raw| && NameByte(c) && raw[..n] == EncodeByte(c) && FirstFault(raw[n..], reason, i)
    ensures FirstFault(raw, reason, i + n)
  {
    var s :| NameBytes(s) && raw[n..][..i] == Encode(s);
    SpelledGrows(c, s);
    Cut(raw, n, i);
  }

  /** A segment is well spelled, or there is a first character at fault. */
  lemma {:induction false} FaultOrSpells(raw: Bytes) returns (i: nat, reason: Option<ParseReason>)
    ensures reason.None? ==> SpellsBytes(raw)
    ensures reason.Some? ==> FirstFault(raw, reason.value, i)
    decreases |raw|
  {
    i := 0;
    if raw == [] {
      assert raw == Encode([]);
      reason := None;
    } else if Fault(raw).Some? {
      reason := Fault(raw);
      assert raw[..0] == [] == Encode([]) && raw[0..] == raw;
    } else {
      var c := FaultlessSpells(raw);
      var n := Width(raw);
      i, reason := FaultOrSpells(raw[n..]);
      if reason.Some? {
        FaultLater(raw, c, n, reason.value, i);
        i := i + n;
      } else {
        var s :| NameBytes(s) && raw[n..] == Encode(s);
        SpelledGrows(c, s);
        assert raw == raw[..n] + raw[n..];
      }
    }
  }

  /** What decodes, decodes as a spelling of some bytes of a name. */
  lemma DecodesExactly(raw: Bytes, offset: nat, s: Bytes)
    ensures DecodeBytes(raw, offset) == Ok(s) <==> NameBytes(s) && raw == Encode(s)
  {
    if NameBytes(s) && raw == Encode(s) { SpelledDecodes(s, offset); }
    if DecodeBytes(raw, offset).Ok? { DecodedIsSpelled(raw, offset); }
  }

  lemma FaultAnswers(raw: Bytes, offset: nat, decoded: Result<Bytes, ParseError>, reason: ParseReason, i: nat)
    requires decoded == DecodeBytes(raw, offset) && FirstFault(raw, reason, i)
    ensures decoded == Err(ParseError(reason, offset + i))
  {
    FaultIsReported(raw, offset, reason, i);
  }

  lemma SpelledAnswers(raw: Bytes, offset: nat, decoded: Result<Bytes, ParseError>)
    requires decoded == DecodeBytes(raw, offset) && SpellsBytes(raw)
    ensures decoded.Ok?
  {
    var s :| NameBytes(s) && raw == Encode(s);
    SpelledDecodes(s, offset);
  }

  lemma FaultsExact(raw: Bytes, offset: nat, decoded: Result<Bytes, ParseError>, e: ParseError)
    requires decoded == DecodeBytes(raw, offset)
    ensures decoded == Err(e) <==> e.offset >= offset && FirstFault(raw, e.reason, e.offset - offset)
  {
    var i, reason := FaultOrSpells(raw);
    if reason.Some? {
      FaultAnswers(raw, offset, decoded, reason.value, i);
    } else {
      SpelledAnswers(raw, offset, decoded);
    }
    if e.offset >= offset && FirstFault(raw, e.reason, e.offset - offset) {
      FaultAnswers(raw, offset, decoded, e.reason, e.offset - offset);
    }
  }

  /** The spelling of bytes that are no text, or of a name of dots. */
  ghost predicate Misnamed(raw: Bytes, reason: ParseReason) {
    exists s :: && NameBytes(s) && raw == Encode(s)
                && (if !ValidUtf8(s) then reason == InvalidUtf8
                    else reason == DotSegment && (s == [DOT] || s == [DOT, DOT]))
  }

  lemma MisnamedExact(raw: Bytes, offset: nat, reason: ParseReason, decoded: Result<Bytes, ParseError>)
    requires decoded == DecodeBytes(raw, offset)
    ensures Misnamed(raw, reason) <==>
      && decoded.Ok?
      && (if !ValidUtf8(decoded.value) then reason == InvalidUtf8
          else reason == DotSegment && (decoded.value == [DOT] || decoded.value == [DOT, DOT]))
  {
    if decoded.Ok? { DecodesExactly(raw, offset, decoded.value); }
    if s :| && NameBytes(s) && raw == Encode(s)
            && (if !ValidUtf8(s) then reason == InvalidUtf8
                else reason == DotSegment && (s == [DOT] || s == [DOT, DOT]))
    {
      DecodesExactly(raw, offset, s);
    }
  }

  lemma DecodeIs(raw: Bytes, offset: nat, decoded: Result<Bytes, ParseError>)
    requires decoded == DecodeBytes(raw, offset)
    ensures Decode(raw, offset)
         == if raw == [] then Err(ParseError(EmptySegment, offset))
            else if !IsAscii(raw) then Err(ParseError(NoncanonicalEncoding, offset))
            else if decoded.Err? then decoded
            else if !ValidUtf8(decoded.value) then Err(ParseError(InvalidUtf8, offset))
            else if decoded.value == [DOT] || decoded.value == [DOT, DOT] then Err(ParseError(DotSegment, offset))
            else decoded
  {
  }

  /**
    The error of a segment: empty, not ASCII, the first character at fault with its offset, bytes
    that are no UTF-8, or a name of dots.
   */
  lemma SegmentErrorExact(raw: Bytes, offset: nat, e: ParseError)
    ensures Decode(raw, offset) == Err(e) <==>
      if raw == [] then e == ParseError(EmptySegment, offset)
      else if !IsAscii(raw) then e == ParseError(NoncanonicalEncoding, offset)
      else || (e.offset >= offset && FirstFault(raw, e.reason, e.offset - offset))
           || (e.offset == offset && Misnamed(raw, e.reason))
  {
    var decoded := DecodeBytes(raw, offset);
    DecodeIs(raw, offset, decoded);
    FaultsExact(raw, offset, decoded, e);
    MisnamedExact(raw, offset, e.reason, decoded);
  }

  // ---------------------------------------------------------------- errors of a query

  /** Where a parameter starts, counting the separators before it. */
  function Start(parameters: seq<Bytes>, k: nat): nat
    requires k <= |parameters|
  {
    if k == 0 then 0 else |parameters[0]| + 1 + Start(parameters[1..], k - 1)
  }

  /** What is wrong with a parameter, behind others with these names, if anything is. */
  function ShapeFault(parameter: Bytes, index: nat, seen: set<Bytes>): Option<QueryReason> {
    if index >= 2 then Some(TooMany)
    else if '=' as int !in parameter then Some(Malformed)
    else
      var name := parameter[..Find(parameter, '=' as int)];
      if exists i :: 0 <= i < |name| && (name[i] == '%' as int || Between(name[i], 'A', 'Z')) then Some(NoncanonicalName)
      else if !IsWord(name, "version") && !IsWord(name, "list") then Some(UnknownName)
      else if name in seen then Some(Duplicate)
      else None
  }

  lemma WordsAre(name: Bytes)
    ensures IsWord(name, "version") <==> name == VERSION_NAME
    ensures IsWord(name, "list") <==> name == LIST_NAME
    ensures IsWord(name, "true") <==> name == TRUE_VALUE
  {
    Words();
  }

  lemma ShapeFaultExact(parameter: Bytes, index: nat, seen: set<Bytes>)
    ensures ParameterShape(parameter, index, seen) == ShapeFault(parameter, index, seen)
  {
    var split := Find(parameter, EQUALS);
    if EQUALS !in parameter { FindAbsent(parameter, EQUALS); }
    assert parameter[..|parameter|] == parameter;
    WordsAre(parameter[..split]);
  }

  function NamesUpTo(parameters: seq<Bytes>, k: nat): set<Bytes>
    requires k <= |parameters|
  {
    set i | 0 <= i < k :: NameOf(parameters[i])
  }

  /** The first parameter at fault, and how. */
  ghost predicate FirstMisshapen(
    parameters: seq<Bytes>, index: nat, seen: set<Bytes>, k: nat, reason: QueryReason)
  {
    && k < |parameters|
    && ShapeFault(parameters[k], index + k, seen + NamesUpTo(parameters, k)) == Some(reason)
    && forall j :: 0 <= j < k ==> ShapeFault(parameters[j], index + j, seen + NamesUpTo(parameters, j)) == None
  }

  lemma NamesShift(parameters: seq<Bytes>, seen: set<Bytes>, k: nat)
    requires 1 <= k <= |parameters|
    ensures seen + NamesUpTo(parameters, k) == seen + {NameOf(parameters[0])} + NamesUpTo(parameters[1..], k - 1)
  {
    var rest := parameters[1..];
    forall name
      ensures name in NamesUpTo(parameters, k) <==> name == NameOf(parameters[0]) || name in NamesUpTo(rest, k - 1)
    {
      if name in NamesUpTo(parameters, k) {
        var i :| 0 <= i < k && name == NameOf(parameters[i]);
        if i > 0 { assert rest[i - 1] == parameters[i]; }
      }
      if name in NamesUpTo(rest, k - 1) {
        var i :| 0 <= i < k - 1 && name == NameOf(rest[i]);
        assert parameters[i + 1] == rest[i];
      }
      if name == NameOf(parameters[0]) { assert 0 <= 0 < k; }
    }
  }

  lemma MisshapenShift(parameters: seq<Bytes>, index: nat, seen: set<Bytes>, k: nat, reason: QueryReason)
    requires 1 <= k < |parameters| && ShapeFault(parameters[0], index, seen) == None
    ensures FirstMisshapen(parameters, index, seen, k, reason) <==>
      FirstMisshapen(parameters[1..], index + 1, seen + {NameOf(parameters[0])}, k - 1, reason)
  {
    var rest := parameters[1..];
    forall j | 1 <= j <= k
      ensures seen + NamesUpTo(parameters, j) == seen + {NameOf(parameters[0])} + NamesUpTo(rest, j - 1)
    {
      NamesShift(parameters, seen, j);
    }
    assert NamesUpTo(parameters, 0) == {} && seen + {} == seen;
    if FirstMisshapen(rest, index + 1, seen + {NameOf(parameters[0])}, k - 1, reason) {
      forall j | 0 <= j < k
        ensures ShapeFault(parameters[j], index + j, seen + NamesUpTo(parameters, j)) == None
      {
        if j > 0 { assert rest[j - 1] == parameters[j]; }
      }
    }
    if FirstMisshapen(parameters, index, seen, k, reason) {
      forall j | 0 <= j < k - 1
        ensures ShapeFault(rest[j], index + 1 + j, seen + {NameOf(parameters[0])} + NamesUpTo(rest, j)) == None
      {
        assert rest[j] == parameters[j + 1];
      }
    }
  }

  /** The first parameter at fault is at this offset, for this reason. */
  ghost predicate MisshapenAt(
    parameters: seq<Bytes>, index: nat, seen: set<Bytes>, offset: nat, reason: QueryReason, at: nat)
  {
    exists k: nat :: k < |parameters| && at == offset + Start(parameters, k)
                     && FirstMisshapen(parameters, index, seen, k, reason)
  }

  lemma MisshapenLater(parameters: seq<Bytes>, index: nat, seen: set<Bytes>, offset: nat, reason: QueryReason, at: nat)
    requires parameters != [] && ShapeFault(parameters[0], index, seen) == None
    ensures MisshapenAt(parameters, index, seen, offset, reason, at) <==>
      MisshapenAt(parameters[1..], index + 1, seen + {NameOf(parameters[0])}, offset + |parameters[0]| + 1, reason, at)
  {
    var rest, name, later := parameters[1..], NameOf(parameters[0]), offset + |parameters[0]| + 1;
    assert NamesUpTo(parameters, 0) == {} && seen + {} == seen;
    if k: nat :| k < |rest| && at == later + Start(rest, k) && FirstMisshapen(rest, index + 1, seen + {name}, k, reason) {
      MisshapenShift(parameters, index, seen, k + 1, reason);
      assert Start(parameters, k + 1) == |parameters[0]| + 1 + Start(rest, k);
    }
    if k: nat :| k < |parameters| && at == offset + Start(parameters, k) && FirstMisshapen(parameters, index, seen, k, reason) {
      MisshapenShift(parameters, index, seen, k, reason);
    }
  }

  lemma MisshapenHere(parameters: seq<Bytes>, index: nat, seen: set<Bytes>, offset: nat, reason: QueryReason, at: nat)
    requires parameters != [] && ShapeFault(parameters[0], index, seen).Some?
    ensures MisshapenAt(parameters, index, seen, offset, reason, at) <==>
      ShapeFault(parameters[0], index, seen) == Some(reason) && at == offset
  {
    assert NamesUpTo(parameters, 0) == {} && seen + {} == seen && Start(parameters, 0) == 0;
    if ShapeFault(parameters[0], index, seen) == Some(reason) {
      assert FirstMisshapen(parameters, index, seen, 0, reason);
    }
    if k: nat :| k < |parameters| && at == offset + Start(parameters, k) && FirstMisshapen(parameters, index, seen, k, reason) {
      assert k == 0;
    }
  }

  /** The shape check reports the first parameter at fault, at its offset. */
  lemma {:induction false} ShapeErrorExact(
    parameters: seq<Bytes>, index: nat, seen: set<Bytes>, offset: nat, reason: QueryReason, at: nat)
    ensures CheckShape(parameters, index, seen, offset) == Some(ShapeError(reason, at)) <==>
      MisshapenAt(parameters, index, seen, offset, reason, at)
    decreases |parameters|
  {
    if parameters != [] {
      ShapeFaultExact(parameters[0], index, seen);
      if ShapeFault(parameters[0], index, seen).Some? {
        MisshapenHere(parameters, index, seen, offset, reason, at);
      } else {
        MisshapenLater(parameters, index, seen, offset, reason, at);
        ShapeErrorExact(parameters[1..], index + 1, seen + {NameOf(parameters[0])}, offset + |parameters[0]| + 1,
                        reason, at);
      }
    }
  }

  /** A version that is canonical and fits, or a listing that is asked for with `true`. */
  predicate GoodValue(parameter: Bytes) {
    && '=' as int in parameter
    && var split := Find(parameter, '=' as int);
    && split < |parameter|
    && var (name, value) := (parameter[..split], parameter[split + 1..]);
    || (IsWord(name, "version") && value != [] && value[0] != '0' as int
        && (forall i :: 0 <= i < |value| ==> Between(value[i], '0', '9')) && AllDigits(value)
        && Number(value) <= 0xFFFF_FFFF_FFFF_FFFF)
    || (IsWord(name, "list") && IsWord(value, "true"))
  }

  lemma ValueExact(q: Query, parameter: Bytes)
    ensures ApplyParameter(q, parameter).Some? <==> GoodValue(parameter)
  {
    var split := Find(parameter, EQUALS);
    if EQUALS !in parameter { FindAbsent(parameter, EQUALS); }
    assert parameter[..|parameter|] == parameter;
    if split < |parameter| {
      WordsAre(parameter[..split]);
      WordsAre(parameter[split + 1..]);
    }
  }

  ghost predicate FirstBadValue(parameters: seq<Bytes>, k: nat) {
    k < |parameters| && !GoodValue(parameters[k]) && forall j :: 0 <= j < k ==> GoodValue(parameters[j])
  }

  lemma BadValueShift(parameters: seq<Bytes>, k: nat)
    requires parameters != [] && GoodValue(parameters[0])
    ensures FirstBadValue(parameters[1..], k) <==> FirstBadValue(parameters, k + 1)
    ensures k < |parameters[1..]| ==> Start(parameters, k + 1) == |parameters[0]| + 1 + Start(parameters[1..], k)
  {
    var rest := parameters[1..];
    assert forall j :: 0 <= j < |rest| ==> rest[j] == parameters[j + 1];
    if FirstBadValue(parameters, k + 1) {
      forall j | 0 <= j < k
        ensures GoodValue(rest[j])
      {
        assert GoodValue(parameters[j + 1]);
      }
    }
    if FirstBadValue(rest, k) {
      forall j | 0 <= j < k + 1
        ensures GoodValue(parameters[j])
      {
        if j > 0 { assert GoodValue(rest[j - 1]); }
      }
    }
  }

  /** The first bad value is at this offset. */
  ghost predicate BadValueAt(parameters: seq<Bytes>, offset: nat, at: nat) {
    exists k: nat :: k < |parameters| && at == offset + Start(parameters, k) && FirstBadValue(parameters, k)
  }

  lemma BadValueLater(parameters: seq<Bytes>, offset: nat, at: nat)
    requires parameters != [] && GoodValue(parameters[0])
    ensures BadValueAt(parameters, offset, at) <==> BadValueAt(parameters[1..], offset + |parameters[0]| + 1, at)
  {
    var rest, later := parameters[1..], offset + |parameters[0]| + 1;
    if k: nat :| k < |rest| && at == later + Start(rest, k) && FirstBadValue(rest, k) {
      BadValueShift(parameters, k);
      assert at == offset + Start(parameters, k + 1);
    }
    if k: nat :| k < |parameters| && at == offset + Start(parameters, k) && FirstBadValue(parameters, k) {
      BadValueShift(parameters, k - 1);
      assert at == later + Start(rest, k - 1);
    }
  }

  lemma {:induction false} ValueErrorExact(q: Query, parameters: seq<Bytes>, offset: nat, e: ParseError)
    ensures ApplyAll(q, parameters, offset) == Err(e) <==>
      e.reason == InvalidQuery && BadValueAt(parameters, offset, e.offset)
    decreases |parameters|
  {
    if parameters != [] {
      ValueExact(q, parameters[0]);
      if !GoodValue(parameters[0]) {
        assert Start(parameters, 0) == 0 && FirstBadValue(parameters, 0);
        assert BadValueAt(parameters, offset, offset);
      } else {
        BadValueLater(parameters, offset, e.offset);
        ValueErrorExact(ApplyParameter(q, parameters[0]).value, parameters[1..], offset + |parameters[0]| + 1, e);
      }
    }
  }

  /** A duplicate and a name that is not canonical are named; everything else is an invalid query. */
  function Told(reason: QueryReason): ParseReason {
    if reason == Duplicate then DuplicateQuery else if reason == NoncanonicalName then NoncanonicalQuery else InvalidQuery
  }

  lemma ShapeFails(raw: Bytes, offset: nat, parameters: seq<Bytes>, shape: ShapeError)
    requires parameters == Split(raw, AMPERSAND) && CheckShape(parameters, 0, {}, 0) == Some(shape)
    ensures ParseQuery(Some(raw), offset) == Err(ParseError(Told(shape.reason), offset + shape.offset))
  {
    if raw == [] {
      assert parameters == [[]] && parameters[0] == [];
      assert shape == ShapeError(Malformed, 0);
    }
  }

  /** A query is refused at its first misshapen parameter. */
  lemma ShapeIsReported(raw: Bytes, offset: nat, parameters: seq<Bytes>, k: nat, reason: QueryReason)
    requires parameters == Split(raw, '&' as int) && FirstMisshapen(parameters, 0, {}, k, reason)
    ensures ParseQuery(Some(raw), offset) == Err(ParseError(Told(reason), offset + Start(parameters, k)))
  {
    assert MisshapenAt(parameters, 0, {}, 0, reason, Start(parameters, k));
    ShapeErrorExact(parameters, 0, {}, 0, reason, Start(parameters, k));
    ShapeFails(raw, offset, parameters, ShapeError(reason, Start(parameters, k)));
  }

  ghost predicate WellShaped(parameters: seq<Bytes>) {
    forall k: nat, reason :: !FirstMisshapen(parameters, 0, {}, k, reason)
  }

  /** One in good shape is refused at its first bad value, and accepted if it has none. */
  lemma QueryErrorExact(raw: Bytes, offset: nat, parameters: seq<Bytes>, e: ParseError)
    requires parameters == Split(raw, '&' as int) && WellShaped(parameters)
    ensures ParseQuery(Some(raw), offset) == Err(e) <==>
      e.reason == InvalidQuery && BadValueAt(parameters, offset, e.offset)
  {
    ShapePasses(raw, parameters);
    ValueErrorExact(Query(None, false), parameters, offset, e);
  }

  lemma ShapePasses(raw: Bytes, parameters: seq<Bytes>)
    requires parameters == Split(raw, '&' as int) && WellShaped(parameters)
    ensures raw != [] && ValidateSensitiveQuery(raw).None?
    ensures forall offset: nat :: ParseQuery(Some(raw), offset) == ApplyAll(Query(None, false), parameters, offset)
  {
    if raw == [] {
      assert parameters == [[]] && NamesUpTo(parameters, 0) == {};
      assert FirstMisshapen(parameters, 0, {}, 0, Malformed);
    }
    var shape := CheckShape(parameters, 0, {}, 0);
    if shape.Some? { ShapeErrorExact(parameters, 0, {}, 0, shape.value.reason, shape.value.offset); }
  }

  // ---------------------------------------------------------------- errors of a target

  /** What is wrong with the first four segments of a path, in the order it is looked for. */
  lemma HeadErrorExact(httpMethod: Method, segments: seq<Bytes>, length: nat, query: Query)
    ensures var asked := httpMethod == ListMethod || query.list;
      match ParseHead(httpMethod, segments, length, query)
      case Ok((mount, kind)) =>
        && |segments| >= 4 && segments[0] == [] && IsWord(segments[1], "v1")
        && IsName(mount) && segments[2] == Encode(mount) && segments[3] == FormOf(kind)
        && (asked <==> kind == List) && (query.list ==> httpMethod != OtherMethod)
        && (query.version.Some? ==> kind == Data)
      case Err(e) =>
        if |segments| < 4 || segments[0] != [] || !IsWord(segments[1], "v1") then e == ParseError(InvalidEndpoint, 0)
        else if Decode(segments[2], 4).Err? then e == Decode(segments[2], 4).error
        else if asked && !IsWord(segments[3], "metadata") then e == ParseError(InvalidQuery, length)
        else if query.list && httpMethod == OtherMethod then e == ParseError(InvalidQuery, length)
        else if query.version.Some? && KindOf(segments[3], asked).Some? then e == ParseError(InvalidQuery, length)
        else e == ParseError(InvalidEndpoint, 4)
  {
    if |segments| >= 4 {
      WordV1(segments[1]);
      WordMetadata(segments[3]);
      var mount := Decode(segments[2], 4);
      if mount.Ok? { DecodeExact(segments[2], 4, mount.value); }
      var asked := httpMethod == ListMethod || query.list;
      if KindOf(segments[3], asked).Some? { KindExact(segments[3], asked, KindOf(segments[3], asked).value); }
    }
  }

  lemma WordV1(s: Bytes)
    ensures IsWord(s, "v1") <==> s == V1
  {
    Words();
  }

  lemma WordMetadata(s: Bytes)
    ensures IsWord(s, "metadata") <==> s == METADATA_FORM
  {
    Words();
  }

  /** Below them only a listing may end in a slash or name nothing; what is left is decoded. */
  lemma NamesErrorExact(kind: EndpointKind, raws: seq<Bytes>, length: nat, start: nat)
    requires length >= 1
    ensures var trailing := raws != [] && raws[|raws| - 1] == [];
      if trailing && kind != List then ParseNames(kind, raws, length, start) == Err(ParseError(EmptySegment, length - 1))
      else if raws == [] && kind != List then ParseNames(kind, raws, length, start) == Err(ParseError(MissingResource, length))
      else ParseNames(kind, raws, length, start) == DecodeAll(if trailing then raws[..|raws| - 1] else raws, start)
  {
  }

  ghost predicate Spells(raw: Bytes) { exists s :: IsName(s) && raw == Encode(s) }

  /** The first so many segments are spellings of names. */
  ghost predicate Spelled(raws: seq<Bytes>, k: nat) {
    k <= |raws| && forall j :: 0 <= j < k ==> Spells(raws[j])
  }

  lemma SpelledDecodesAt(raw: Bytes, offset: nat)
    ensures Decode(raw, offset).Ok? <==> Spells(raw)
  {
    if Decode(raw, offset).Ok? { DecodeExact(raw, offset, Decode(raw, offset).value); }
    if s :| IsName(s) && raw == Encode(s) { DecodeExact(raw, offset, s); }
  }

  lemma SpelledTail(raws: seq<Bytes>, k: nat)
    requires 1 <= k && Spelled(raws, k)
    ensures Spelled(raws[1..], k - 1) && Spells(raws[0])
  {
    forall j | 0 <= j < k - 1
      ensures Spells(raws[1..][j])
    {
      assert raws[1..][j] == raws[j + 1];
    }
  }

  lemma DecodeAllStops(raws: seq<Bytes>, offset: nat, e: ParseError)
    requires raws != [] && Decode(raws[0], offset) == Err(e)
    ensures DecodeAll(raws, offset) == Err(e)
  {
  }

  lemma DecodeAllSkips(raws: seq<Bytes>, offset: nat, e: ParseError)
    requires raws != [] && Decode(raws[0], offset).Ok? && DecodeAll(raws[1..], offset + |raws[0]| + 1) == Err(e)
    ensures DecodeAll(raws, offset) == Err(e)
  {
  }

  /** Of several segments the first that is no name's spelling is reported, with its own error and offset. */
  lemma {:induction false} FirstUnspelled(raws: seq<Bytes>, offset: nat, k: nat, at: nat, e: ParseError)
    requires k < |raws| && Spelled(raws, k) && at == offset + Start(raws, k) && Decode(raws[k], at) == Err(e)
    ensures DecodeAll(raws, offset) == Err(e)
    decreases k
  {
    if k == 0 {
      DecodeAllStops(raws, offset, e);
    } else {
      SpelledTail(raws, k);
      SpelledDecodesAt(raws[0], offset);
      assert raws[1..][k - 1] == raws[k];
      FirstUnspelled(raws[1..], offset + |raws[0]| + 1, k - 1, at, e);
      DecodeAllSkips(raws, offset, e);
    }
  }

  lemma SpelledShift(raws: seq<Bytes>, k: nat)
    requires raws != [] && Spelled(raws[1..], k) && Spells(raws[0])
    ensures Spelled(raws, k + 1)
  {
    forall j | 0 <= j < k + 1
      ensures Spells(raws[j])
    {
      if j > 0 { assert raws[j] == raws[1..][j - 1]; }
    }
  }

  lemma DecodeAllStep(raws: seq<Bytes>, offset: nat, first: Result<Bytes, ParseError>)
    requires raws != [] && first == Decode(raws[0], offset)
    ensures first.Err? ==> DecodeAll(raws, offset) == Err(first.error)
    ensures first.Ok? && DecodeAll(raws, offset).Err? ==>
      DecodeAll(raws[1..], offset + |raws[0]| + 1) == Err(DecodeAll(raws, offset).error)
  {
  }

  lemma {:induction false} UnspelledIsFirst(raws: seq<Bytes>, offset: nat, e: ParseError) returns (k: nat, at: nat)
    requires DecodeAll(raws, offset) == Err(e)
    ensures k < |raws| && Spelled(raws, k) && at == offset + Start(raws, k) && Decode(raws[k], at) == Err(e)
    decreases |raws|
  {
    var first := Decode(raws[0], offset);
    DecodeAllStep(raws, offset, first);
    if first.Err? {
      k, at := 0, offset;
    } else {
      SpelledDecodesAt(raws[0], offset);
      var later: nat;
      later, at := UnspelledIsFirst(raws[1..], offset + |raws[0]| + 1, e);
      k := later + 1;
      SpelledShift(raws, later);
      assert raws[k] == raws[1..][later];
    }
  }

  lemma TargetCut(target: Bytes, path: Bytes, raw: Option<Bytes>)
    requires QUESTION !in path && target == path + (if raw.Some? then [QUESTION] + raw.value else [])
    ensures PathOf(target) == path && QueryOf(target) == raw
  {
    if raw.Some? {
      FindAfter(path, QUESTION, raw.value);
      assert target == path + [QUESTION] + raw.value;
      assert target[..|path|] == path && target[|path| + 1..] == raw.value;
    } else {
      FindAbsent(path, QUESTION);
      assert target == path && path[..|path|] == path;
    }
  }

  lemma ParseIs(httpMethod: Method, target: Bytes, path: Bytes, raw: Option<Bytes>, query: Result<Query, ParseError>)
    requires PathOf(target) == path && QueryOf(target) == raw
    requires query == ParseQuery(raw, |path| + (if raw.Some? then 1 else 0))
    ensures Parse(httpMethod, target)
         == if |target| > 8192 then Err(ParseError(TargetTooLong, 8192))
            else if target == [] then Err(ParseError(InvalidEndpoint, 0))
            else if query.Err? then Err(query.error)
            else ParsePath(httpMethod, Split(path, SLASH), |path|, query.value)
  {
  }

  /** A target is cut at its first question mark; it is too long, empty, or refused for its query before its path. */
  lemma TargetErrorExact(
    httpMethod: Method, target: Bytes, path: Bytes, raw: Option<Bytes>, query: Result<Query, ParseError>)
    requires '?' as int !in path && target == path + (if raw.Some? then ['?' as int] + raw.value else [])
    requires query == ParseQuery(raw, |path| + (if raw.Some? then 1 else 0))
    ensures Parse(httpMethod, target)
         == if |target| > 8192 then Err(ParseError(TargetTooLong, 8192))
            else if target == [] then Err(ParseError(InvalidEndpoint, 0))
            else if query.Err? then Err(query.error)
            else ParsePath(httpMethod, Split(path, '/' as int), |path|, query.value)
  {
    TargetCut(target, path, raw);
    ParseIs(httpMethod, target, path, raw, query);
  }

  /** A path is refused for its head before its names, and the names are counted from where they start. */
  lemma PathErrorExact(httpMethod: Method, segments: seq<Bytes>, length: nat, query: Query)
    ensures var head := ParseHead(httpMethod, segments, length, query);
      && (head.Err? ==> ParsePath(httpMethod, segments, length, query) == Err(head.error))
      && (head.Ok? ==>
            && |segments| >= 4
            && var names := ParseNames(head.value.1, segments[4..], length, Start(segments, 4));
            && (names.Err? ==> ParsePath(httpMethod, segments, length, query) == Err(names.error))
            && (names.Ok? ==>
                  ParsePath(httpMethod, segments, length, query)
                  == Ok(Endpoint(head.value.1, Resource(head.value.0, names.value), query.version))))
  {
    if |segments| >= 4 { FourStart(segments); }
  }

  lemma FourStart(segments: seq<Bytes>)
    requires |segments| >= 4
    ensures Start(segments, 4) == ResourceStart(segments)
  {
    var a := segments[1..];
    var b := a[1..];
    var c := b[1..];
    assert Start(c, 1) == |c[0]| + 1 && Start(b, 2) == |b[0]| + 1 + Start(c, 1);
    assert Start(a, 3) == |a[0]| + 1 + Start(b, 2) && Start(segments, 4) == |segments[0]| + 1 + Start(a, 3);
  }
}
