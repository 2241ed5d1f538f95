/** The query of a request target: at most one `version` and one `list`, each in one spelling. */
module RawQuery {
  import opened Prelude
  import opened Text
  import opened RawSegment

  const AMPERSAND: byte := 0x26
  const EQUALS: byte := 0x3D
  const MAX_QUERY_PARAMETERS := 2

  /** `version` */
  const VERSION_NAME: Bytes := [0x76, 0x65, 0x72, 0x73, 0x69, 0x6F, 0x6E]
  /** `list` */
  const LIST_NAME: Bytes := [0x6C, 0x69, 0x73, 0x74]
  /** `true` */
  const TRUE_VALUE: Bytes := [0x74, 0x72, 0x75, 0x65]

  datatype QueryReason = Duplicate | NoncanonicalName | UnknownName | TooMany | Malformed

  datatype ShapeError = ShapeError(reason: QueryReason, offset: nat)

  datatype Query = Query(version: Option<u64>, list: bool)

  // ---------------------------------------------------------------- decimal versions

  predicate AllDigits(s: Bytes) {
    forall i :: 0 <= i < |s| ==> IsDigit(s[i])
  }

  function Number(s: Bytes): nat
    requires AllDigits(s)
  {
    if s == [] then 0 else Number(s[..|s| - 1]) * 10 + (s[|s| - 1] - 0x30)
  }

  function Digits(n: nat): Bytes {
    if n < 10 then [0x30 + n] else Digits(n / 10) + [0x30 + n % 10]
  }

  predicate CanonicalNumber(s: Bytes) {
    s != [] && s[0] != 0x30 && AllDigits(s)
  }

  lemma {:induction false} DigitsCanonical(n: nat)
    requires n >= 1
    ensures CanonicalNumber(Digits(n))
    decreases n
  {
    if n >= 10 { DigitsCanonical(n / 10); }
  }

  lemma {:induction false} NumberOfDigits(n: nat)
    ensures AllDigits(Digits(n)) && Number(Digits(n)) == n
    decreases n
  {
    if n >= 10 {
      NumberOfDigits(n / 10);
      var s := Digits(n);
      assert s[..|s| - 1] == Digits(n / 10);
    } else {
      assert Digits(n)[..0] == [];
    }
  }

  lemma {:induction false} DigitsOfNumber(s: Bytes)
    requires CanonicalNumber(s)
    ensures Number(s) >= 1 && Digits(Number(s)) == s
    decreases |s|
  {
    var n := |s| - 1;
    if n == 0 {
      assert s[..0] == [] && s == [s[0]];
    } else {
      DigitsOfNumber(s[..n]);
      assert s == s[..n] + [s[n]];
      assert Number(s) / 10 == Number(s[..n]) && Number(s) % 10 == s[n] - 0x30;
    }
  }

  // ---------------------------------------------------------------- shape

  predicate NoncanonicalNameIn(name: Bytes) {
    exists i :: 0 <= i < |name| && (name[i] == PERCENT || IsUpper(name[i]))
  }

  /** Why one more parameter is refused, given the names seen so far. */
  function ParameterShape(parameter: Bytes, index: nat, names: set<Bytes>): Option<QueryReason> {
    var split := Find(parameter, EQUALS);
    var name := parameter[..split];
    if index >= MAX_QUERY_PARAMETERS then Some(TooMany)
    else if split == |parameter| then Some(Malformed)
    else if NoncanonicalNameIn(name) then Some(NoncanonicalName)
    else if name != VERSION_NAME && name != LIST_NAME then Some(UnknownName)
    else if name in names then Some(Duplicate)
    else None
  }

  function NameOf(parameter: Bytes): Bytes {
    parameter[..Find(parameter, EQUALS)]
  }

  function CheckShape(parameters: seq<Bytes>, index: nat, names: set<Bytes>, offset: nat): Option<ShapeError>
    decreases |parameters|
  {
    if parameters == [] then None
    else
      var refusal := ParameterShape(parameters[0], index, names);
      if refusal.Some? then Some(ShapeError(refusal.value, offset))
      else CheckShape(parameters[1..], index + 1, names + {NameOf(parameters[0])}, offset + |parameters[0]| + 1)
  }

  function ValidateSensitiveQuery(raw: Bytes): Option<ShapeError> {
    if raw == [] then Some(ShapeError(Malformed, 0))
    else CheckShape(Split(raw, AMPERSAND), 0, {}, 0)
  }

  // ---------------------------------------------------------------- values

  function ParseVersion(value: Bytes): Option<u64> {
    if CanonicalNumber(value) && Number(value) <= U64_MAX then Some(Number(value)) else None
  }

  function ApplyParameter(q: Query, parameter: Bytes): Option<Query> {
    var split := Find(parameter, EQUALS);
    if split == |parameter| then None
    else
      var name, value := parameter[..split], parameter[split + 1..];
      if name == VERSION_NAME then
        var version := ParseVersion(value);
        if version.None? then None else Some(q.(version := version))
      else if name == LIST_NAME && value == TRUE_VALUE then Some(q.(list := true))
      else None
  }

  function ApplyAll(q: Query, parameters: seq<Bytes>, offset: nat): Result<Query, ParseError>
    decreases |parameters|
  {
    if parameters == [] then Ok(q)
    else
      var next := ApplyParameter(q, parameters[0]);
      if next.None? then Err(ParseError(InvalidQuery, offset))
      else ApplyAll(next.value, parameters[1..], offset + |parameters[0]| + 1)
  }

  function ShapeReason(reason: QueryReason): ParseReason {
    match reason
    case Duplicate => DuplicateQuery
    case NoncanonicalName => NoncanonicalQuery
    case _ => InvalidQuery
  }

  function ParseQuery(raw: Option<Bytes>, offset: nat): Result<Query, ParseError> {
    if raw.None? then Ok(Query(None, false))
    else
      var shape := ValidateSensitiveQuery(raw.value);
      if shape.Some? then Err(ParseError(ShapeReason(shape.value.reason), offset + shape.value.offset))
      else ApplyAll(Query(None, false), Split(raw.value, AMPERSAND), offset)
  }

  // ---------------------------------------------------------------- canonical queries

  /** The one spelling of a query that asks for a version or a listing, not both. */
  function RenderQuery(q: Query): Option<Bytes> {
    if q.version.Some? then Some(VERSION_NAME + [EQUALS] + Digits(q.version.value))
    else if q.list then Some(LIST_NAME + [EQUALS] + TRUE_VALUE)
    else None
  }

  lemma ParameterSpelling(q: Query, parameter: Bytes)
    requires ApplyParameter(q, parameter).Some?
    ensures var r := ApplyParameter(q, parameter).value;
      && (NameOf(parameter) == VERSION_NAME ==>
            r.version.Some? && r.list == q.list
            && parameter == VERSION_NAME + [EQUALS] + Digits(r.version.value))
      && (NameOf(parameter) == LIST_NAME ==>
            r.list && r.version == q.version && parameter == LIST_NAME + [EQUALS] + TRUE_VALUE)
      && (NameOf(parameter) == VERSION_NAME || NameOf(parameter) == LIST_NAME)
  {
    var split := Find(parameter, EQUALS);
    assert parameter == parameter[..split] + [EQUALS] + parameter[split + 1..];
    if NameOf(parameter) == VERSION_NAME { DigitsOfNumber(parameter[split + 1..]); }
  }

  lemma ThirdIsTooMany(parameters: seq<Bytes>, names: set<Bytes>, offset: nat)
    ensures CheckShape(parameters, 2, names, offset).None? ==> parameters == []
  {
  }

  /** A well-shaped list of parameters has one or two of them, with different names. */
  lemma ShapeBounds(parameters: seq<Bytes>)
    requires parameters != [] && CheckShape(parameters, 0, {}, 0).None?
    ensures |parameters| <= 2
    ensures |parameters| == 2 ==> NameOf(parameters[0]) != NameOf(parameters[1])
  {
    if |parameters| >= 2 {
      var rest := parameters[1..];
      var names := {} + {NameOf(parameters[0])};
      assert CheckShape(rest, 1, names, |parameters[0]| + 1).None?;
      assert NameOf(parameters[0]) in names;
      ThirdIsTooMany(rest[1..], names + {NameOf(rest[0])}, |parameters[0]| + 1 + |rest[0]| + 1);
    }
  }

  lemma SingleParameter(parameter: Bytes, offset: nat)
    requires ApplyAll(Query(None, false), [parameter], offset).Ok?
    ensures RenderQuery(ApplyAll(Query(None, false), [parameter], offset).value) == Some(parameter)
  {
    assert [parameter][1..] == [];
    ParameterSpelling(Query(None, false), parameter);
  }

  lemma TwoParameters(a: Bytes, b: Bytes, offset: nat)
    requires ApplyAll(Query(None, false), [a, b], offset).Ok? && NameOf(a) != NameOf(b)
    ensures var q := ApplyAll(Query(None, false), [a, b], offset).value;
      q.version.Some? && q.list
  {
    var first := ApplyParameter(Query(None, false), a).value;
    assert [a, b][1..] == [b] && [b][1..] == [];
    assert ApplyAll(Query(None, false), [a, b], offset) == ApplyAll(first, [b], offset + |a| + 1);
    ParameterSpelling(Query(None, false), a);
    ParameterSpelling(first, b);
  }

  /** An accepted query that does not ask for both is its own canonical spelling. */
  lemma AcceptedQueryIsCanonical(raw: Option<Bytes>, offset: nat)
    requires ParseQuery(raw, offset).Ok?
    requires var q := ParseQuery(raw, offset).value; !(q.version.Some? && q.list)
    ensures RenderQuery(ParseQuery(raw, offset).value) == raw
  {
    if raw.Some? {
      var parameters := Split(raw.value, AMPERSAND);
      ShapeBounds(parameters);
      JoinSplit(raw.value, AMPERSAND);
      if |parameters| == 1 {
        assert parameters == [parameters[0]];
        SingleParameter(parameters[0], offset);
      } else {
        assert parameters == [parameters[0], parameters[1]];
        TwoParameters(parameters[0], parameters[1], offset);
      }
    }
  }

  lemma NameBeforeEquals(name: Bytes, value: Bytes)
    requires EQUALS !in name
    ensures var p := name + [EQUALS] + value;
      Find(p, EQUALS) == |name| && NameOf(p) == name && p[|name| + 1..] == value
  {
    FindAfter(name, EQUALS, value);
    var p := name + [EQUALS] + value;
    assert p[..|name|] == name && p[|name| + 1..] == value;
  }

  lemma NoAmpersandInDigits(s: Bytes)
    requires AllDigits(s)
    ensures AMPERSAND !in s && 0x3F !in s
  {
  }

  lemma OneParameterParses(parameter: Bytes, offset: nat)
    requires AMPERSAND !in parameter && parameter != []
    requires ParameterShape(parameter, 0, {}).None?
    ensures ParseQuery(Some(parameter), offset) == ApplyAll(Query(None, false), [parameter], offset)
    ensures ApplyAll(Query(None, false), [parameter], offset)
      == match ApplyParameter(Query(None, false), parameter)
         case None => Err(ParseError(InvalidQuery, offset))
         case Some(q) => Ok(q)
  {
    FindAbsent(parameter, AMPERSAND);
    assert Split(parameter, AMPERSAND) == [parameter];
    assert [parameter][1..] == [];
    assert CheckShape([parameter], 0, {}, 0).None?;
  }

  /** The canonical spelling is accepted and means what it was rendered from. */
  lemma CanonicalQueryParses(q: Query, offset: nat)
    requires !(q.version.Some? && q.list)
    requires q.version.Some? ==> q.version.value >= 1
    ensures ParseQuery(RenderQuery(q), offset) == Ok(q)
  {
    if q.version.Some? {
      var digits := Digits(q.version.value);
      DigitsCanonical(q.version.value);
      NumberOfDigits(q.version.value);
      NameBeforeEquals(VERSION_NAME, digits);
      NoAmpersandInDigits(digits);
      OneParameterParses(VERSION_NAME + [EQUALS] + digits, offset);
    } else if q.list {
      NameBeforeEquals(LIST_NAME, TRUE_VALUE);
      OneParameterParses(LIST_NAME + [EQUALS] + TRUE_VALUE, offset);
    }
  }

  // ---------------------------------------------------------------- the loops

  method ValidateQueryLoop(raw: Bytes) returns (r: Option<ShapeError>)
    ensures r == ValidateSensitiveQuery(raw)
  {
    if raw == [] { return Some(ShapeError(Malformed, 0)); }
    var parameters := Split(raw, AMPERSAND);
    var names: set<Bytes> := {};
    var offset: nat := 0;
    for index := 0 to |parameters|
      invariant CheckShape(parameters[index..], index, names, offset) == CheckShape(parameters, 0, {}, 0)
    {
      var parameter := parameters[index];
      assert parameters[index..][0] == parameter && parameters[index..][1..] == parameters[index + 1..];
      if index >= MAX_QUERY_PARAMETERS { return Some(ShapeError(TooMany, offset)); }
      var split := Find(parameter, EQUALS);
      if split == |parameter| { return Some(ShapeError(Malformed, offset)); }
      var name := parameter[..split];
      if NoncanonicalNameIn(name) { return Some(ShapeError(NoncanonicalName, offset)); }
      if name != VERSION_NAME && name != LIST_NAME { return Some(ShapeError(UnknownName, offset)); }
      if name in names { return Some(ShapeError(Duplicate, offset)); }
      names := names + {name};
      offset := offset + |parameter| + 1;
    }
    return None;
  }

  method ApplyOne(q: Query, parameter: Bytes) returns (r: Option<Query>)
    ensures r == ApplyParameter(q, parameter)
  {
    var split := Find(parameter, EQUALS);
    if split == |parameter| { return None; }
    var name, value := parameter[..split], parameter[split + 1..];
    if name == VERSION_NAME {
      if !CanonicalNumber(value) || Number(value) > U64_MAX { return None; }
      return Some(q.(version := Some(Number(value))));
    }
    if name == LIST_NAME && value == TRUE_VALUE { return Some(q.(list := true)); }
    return None;
  }

  method ParseQueryLoop(raw: Option<Bytes>, start: nat) returns (r: Result<Query, ParseError>)
    ensures r == ParseQuery(raw, start)
  {
    if raw.None? { return Ok(Query(None, false)); }
    var shape := ValidateQueryLoop(raw.value);
    if shape.Some? { return Err(ParseError(ShapeReason(shape.value.reason), start + shape.value.offset)); }
    var parameters := Split(raw.value, AMPERSAND);
    var version: Option<u64> := None;
    var list := false;
    var offset: nat := start;
    for index := 0 to |parameters|
      invariant ApplyAll(Query(version, list), parameters[index..], offset)
        == ApplyAll(Query(None, false), parameters, start)
    {
      var parameter := parameters[index];
      assert parameters[index..][0] == parameter && parameters[index..][1..] == parameters[index + 1..];
      var next := ApplyOne(Query(version, list), parameter);
      if next.None? { return Err(ParseError(InvalidQuery, offset)); }
      version, list := next.value.version, next.value.list;
      offset := offset + |parameter| + 1;
    }
    return Ok(Query(version, list));
  }
}
