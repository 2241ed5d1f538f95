/** The sole canonical parser of request targets. */
module RawTarget {
  import opened Prelude
  import opened Text
  import opened Endpoints
  import opened RawSegment
  import opened RawQuery

  const MAX_RAW_TARGET_BYTES := 8192
  const QUESTION: byte := 0x3F

  /** `v1` */
  const V1: Bytes := [0x76, 0x31]
  const DATA_FORM: Bytes := [0x64, 0x61, 0x74, 0x61]
  const METADATA_FORM: Bytes := [0x6D, 0x65, 0x74, 0x61, 0x64, 0x61, 0x74, 0x61]
  const DELETE_FORM: Bytes := [0x64, 0x65, 0x6C, 0x65, 0x74, 0x65]
  const UNDELETE_FORM: Bytes := [0x75, 0x6E, 0x64, 0x65, 0x6C, 0x65, 0x74, 0x65]
  const DESTROY_FORM: Bytes := [0x64, 0x65, 0x73, 0x74, 0x72, 0x6F, 0x79]

  datatype Method = Get | ListMethod | OtherMethod

  // ---------------------------------------------------------------- parsing

  function KindOf(form: Bytes, list: bool): Option<EndpointKind> {
    if form == METADATA_FORM then Some(if list then List else Metadata)
    else if list then None
    else if form == DATA_FORM then Some(Data)
    else if form == DELETE_FORM then Some(Delete)
    else if form == UNDELETE_FORM then Some(Undelete)
    else if form == DESTROY_FORM then Some(Destroy)
    else None
  }

  function FormOf(kind: EndpointKind): Bytes {
    match kind
    case Data => DATA_FORM
    case Metadata => METADATA_FORM
    case List => METADATA_FORM
    case Delete => DELETE_FORM
    case Undelete => UNDELETE_FORM
    case Destroy => DESTROY_FORM
  }

  /** The decoded segments, or the first error; `offset` is where the first one starts. */
  function DecodeAll(raws: seq<Bytes>, offset: nat): Result<seq<Bytes>, ParseError>
    decreases |raws|
  {
    if raws == [] then Ok([])
    else
      var first := Decode(raws[0], offset);
      if first.Err? then Err(first.error)
      else
        var rest := DecodeAll(raws[1..], offset + |raws[0]| + 1);
        if rest.Err? then rest else Ok([first.value] + rest.value)
  }

  /** Mount and kind, from the first four segments. */
  function ParseHead(httpMethod: Method, segments: seq<Bytes>, length: nat, query: Query)
    : Result<(Bytes, EndpointKind), ParseError>
  {
    if |segments| < 4 || segments[0] != [] || segments[1] != V1 then Err(ParseError(InvalidEndpoint, 0))
    else
      var mount := Decode(segments[2], 4);
      var form := segments[3];
      var list := httpMethod == ListMethod || query.list;
      var kind := KindOf(form, list);
      if mount.Err? then Err(mount.error)
      else if list && form != METADATA_FORM then Err(ParseError(InvalidQuery, length))
      else if query.list && httpMethod == OtherMethod then Err(ParseError(InvalidQuery, length))
      else if kind.None? then Err(ParseError(InvalidEndpoint, 4))
      else if query.version.Some? && kind.value != Data then Err(ParseError(InvalidQuery, length))
      else Ok((mount.value, kind.value))
  }

  /** The resource below them; only a listing may end in a slash or name nothing. */
  function ParseNames(kind: EndpointKind, raws: seq<Bytes>, length: nat, start: nat): Result<seq<Bytes>, ParseError> {
    var trailing := raws != [] && raws[|raws| - 1] == [];
    if trailing && kind != List then Err(ParseError(EmptySegment, SaturatingSub(length, 1)))
    else
      var names := if trailing then raws[..|raws| - 1] else raws;
      if names == [] && kind != List then Err(ParseError(MissingResource, length))
      else DecodeAll(names, start)
  }

  function ResourceStart(segments: seq<Bytes>): nat
    requires |segments| >= 4
  {
    |segments[0]| + |segments[1]| + |segments[2]| + |segments[3]| + 4
  }

  /** Everything after the query: the path split on slashes. */
  function ParsePath(httpMethod: Method, segments: seq<Bytes>, length: nat, query: Query)
    : Result<Endpoint, ParseError>
  {
    var head := ParseHead(httpMethod, segments, length, query);
    if head.Err? then Err(head.error)
    else
      var names := ParseNames(head.value.1, segments[4..], length, ResourceStart(segments));
      if names.Err? then Err(names.error)
      else Ok(Endpoint(head.value.1, Resource(head.value.0, names.value), query.version))
  }

  /** `split_once('?')` */
  function PathOf(target: Bytes): Bytes { target[..Find(target, QUESTION)] }

  function QueryOf(target: Bytes): Option<Bytes> {
    var i := Find(target, QUESTION);
    if i == |target| then None else Some(target[i + 1..])
  }

  function Parse(httpMethod: Method, target: Bytes): Result<Endpoint, ParseError> {
    if |target| > MAX_RAW_TARGET_BYTES then Err(ParseError(TargetTooLong, MAX_RAW_TARGET_BYTES))
    else if target == [] then Err(ParseError(InvalidEndpoint, 0))
    else
      var path, raw := PathOf(target), QueryOf(target);
      var query := ParseQuery(raw, |path| + if raw.Some? then 1 else 0);
      if query.Err? then Err(query.error)
      else ParsePath(httpMethod, Split(path, SLASH), |path|, query.value)
  }

  // ---------------------------------------------------------------- rendering

  function EncodeAll(names: seq<Bytes>): (r: seq<Bytes>)
    ensures |r| == |names|
  {
    seq(|names|, i requires 0 <= i < |names| => Encode(names[i]))
  }

  function RenderSegments(e: Endpoint): seq<Bytes> {
    [[], V1, Encode(e.resource.mount), FormOf(e.kind)] + EncodeAll(e.resource.segments)
  }

  /** The path of an endpoint, with the trailing slash a listing may have. */
  function PathSegments(e: Endpoint, trailing: bool): seq<Bytes> {
    RenderSegments(e) + (if trailing then [[]] else [])
  }

  function WithQuery(path: Bytes, query: Option<Bytes>): Bytes {
    if query.None? then path else path + [QUESTION] + query.value
  }

  /** The canonical target of an endpoint that is not a listing. */
  function Render(e: Endpoint): Bytes {
    WithQuery(Join(PathSegments(e, false), SLASH), RenderQuery(Query(e.version, false)))
  }

  /** The targets of a listing: with or without a trailing slash and `?list=true`. */
  function RenderList(e: Endpoint, trailing: bool, query: bool): Bytes {
    WithQuery(Join(PathSegments(e, trailing), SLASH), RenderQuery(Query(None, query)))
  }

  predicate AllNames(names: seq<Bytes>) {
    forall i :: 0 <= i < |names| ==> IsName(names[i])
  }

  /** What the parser can produce. */
  predicate WellFormed(e: Endpoint) {
    && IsName(e.resource.mount) && AllNames(e.resource.segments)
    && (e.kind != List ==> e.resource.segments != [])
    && (e.version.Some? ==> e.kind == Data && e.version.value >= 1)
  }

  // ---------------------------------------------------------------- segments

  lemma OneMoreName(raw: Bytes, raws: seq<Bytes>, name: Bytes, names: seq<Bytes>)
    ensures AllNames([name] + names) <==> IsName(name) && AllNames(names)
    ensures [raw] + raws == EncodeAll([name] + names) <==> raw == Encode(name) && raws == EncodeAll(names)
  {
    var all := [name] + names;
    assert EncodeAll(all) == [Encode(name)] + EncodeAll(names);
    assert ([raw] + raws)[1..] == raws && EncodeAll(all)[1..] == EncodeAll(names);
    assert all[0] == name && all[1..] == names;
  }

  /** Decoding a list is exact, segment by segment. */
  lemma {:induction false} DecodeAllExact(raws: seq<Bytes>, offset: nat, names: seq<Bytes>)
    ensures DecodeAll(raws, offset) == Ok(names) <==> AllNames(names) && raws == EncodeAll(names)
    decreases |raws|
  {
    if raws != [] && names != [] {
      DecodeExact(raws[0], offset, names[0]);
      DecodeAllExact(raws[1..], offset + |raws[0]| + 1, names[1..]);
      OneMoreName(raws[0], raws[1..], names[0], names[1..]);
      assert names == [names[0]] + names[1..] && raws == [raws[0]] + raws[1..];
    }
  }

  lemma SpelledAreNonempty(names: seq<Bytes>)
    requires AllNames(names)
    ensures forall i :: 0 <= i < |names| ==> EncodeAll(names)[i] != []
  {
    forall i | 0 <= i < |names|
      ensures EncodeAll(names)[i] != []
    {
      SpellingBytes(names[i]);
    }
  }

  lemma SpellingIsPlain(s: Bytes)
    ensures SLASH !in Encode(s) && QUESTION !in Encode(s)
  {
    SpellingBytes(s);
  }

  // ---------------------------------------------------------------- accepted means canonical

  /** The kind is a listing exactly when the method or the query says so. */
  predicate MethodFits(httpMethod: Method, query: Query, kind: EndpointKind) {
    && (kind == List <==> httpMethod == ListMethod || query.list)
    && (query.list ==> httpMethod != OtherMethod)
    && (query.version.Some? ==> kind == Data)
  }

  lemma KindExact(form: Bytes, list: bool, kind: EndpointKind)
    ensures KindOf(form, list) == Some(kind) <==> form == FormOf(kind) && (list <==> kind == List)
  {
  }

  lemma HeadExact(httpMethod: Method, segments: seq<Bytes>, length: nat, query: Query, mount: Bytes, kind: EndpointKind)
    ensures ParseHead(httpMethod, segments, length, query) == Ok((mount, kind)) <==>
      && |segments| >= 4 && segments[0] == [] && segments[1] == V1
      && IsName(mount) && segments[2] == Encode(mount) && segments[3] == FormOf(kind)
      && MethodFits(httpMethod, query, kind)
  {
    if |segments| >= 4 {
      DecodeExact(segments[2], 4, mount);
      KindExact(segments[3], httpMethod == ListMethod || query.list, kind);
    }
  }

  lemma NamesExact(kind: EndpointKind, raws: seq<Bytes>, length: nat, start: nat, names: seq<Bytes>)
    ensures ParseNames(kind, raws, length, start) == Ok(names) <==>
      && AllNames(names) && (kind != List ==> names != [])
      && (raws == EncodeAll(names) || (kind == List && raws == EncodeAll(names) + [[]]))
  {
    if AllNames(names) { SpelledAreNonempty(names); }
    if raws != [] && raws[|raws| - 1] == [] {
      var kept := raws[..|raws| - 1];
      assert raws == kept + [[]];
      assert forall q: seq<Bytes> :: raws == q + [[]] ==> (q + [[]])[..|q|] == q == kept;
      DecodeAllExact(kept, start, names);
    } else {
      DecodeAllExact(raws, start, names);
    }
  }

  lemma HeadAndTail(segments: seq<Bytes>, e: Endpoint, trailing: bool)
    requires |segments| >= 4
    ensures segments == PathSegments(e, trailing) <==>
      && segments[0] == [] && segments[1] == V1
      && segments[2] == Encode(e.resource.mount) && segments[3] == FormOf(e.kind)
      && segments[4..] == EncodeAll(e.resource.segments) + (if trailing then [[]] else [])
  {
    var head := [segments[0], segments[1], segments[2], segments[3]];
    assert segments == head + segments[4..];
    var want := PathSegments(e, trailing);
    assert want[4..] == EncodeAll(e.resource.segments) + (if trailing then [[]] else []);
  }

  /** Parsing a split path is exact: it accepts the path of an endpoint and nothing else. */
  lemma PathExact(httpMethod: Method, segments: seq<Bytes>, length: nat, query: Query, e: Endpoint)
    ensures ParsePath(httpMethod, segments, length, query) == Ok(e) <==>
      && IsName(e.resource.mount) && AllNames(e.resource.segments)
      && (e.kind != List ==> e.resource.segments != [])
      && e.version == query.version && MethodFits(httpMethod, query, e.kind)
      && (segments == PathSegments(e, false) || (e.kind == List && segments == PathSegments(e, true)))
  {
    HeadExact(httpMethod, segments, length, query, e.resource.mount, e.kind);
    if |segments| >= 4 {
      NamesExact(e.kind, segments[4..], length, ResourceStart(segments), e.resource.segments);
      HeadAndTail(segments, e, false);
      HeadAndTail(segments, e, true);
      assert EncodeAll(e.resource.segments) + [] == EncodeAll(e.resource.segments);
    }
  }

  lemma ParsedVersionPositive(raw: Option<Bytes>, offset: nat)
    requires ParseQuery(raw, offset).Ok?
    ensures var q := ParseQuery(raw, offset).value; q.version.Some? ==> q.version.value >= 1
  {
    if raw.Some? { AppliedVersionPositive(Query(None, false), Split(raw.value, AMPERSAND), offset); }
  }

  lemma {:induction false} AppliedVersionPositive(q: Query, parameters: seq<Bytes>, offset: nat)
    requires q.version.Some? ==> q.version.value >= 1
    requires ApplyAll(q, parameters, offset).Ok?
    ensures var r := ApplyAll(q, parameters, offset).value; r.version.Some? ==> r.version.value >= 1
    decreases |parameters|
  {
    if parameters != [] {
      var p := parameters[0];
      var value := p[Find(p, EQUALS) + 1..];
      if CanonicalNumber(value) { DigitsOfNumber(value); }
      AppliedVersionPositive(ApplyParameter(q, p).value, parameters[1..], offset + |p| + 1);
    }
  }

  lemma TargetRejoined(target: Bytes)
    ensures target == WithQuery(PathOf(target), QueryOf(target))
    ensures Join(Split(PathOf(target), SLASH), SLASH) == PathOf(target)
  {
    JoinSplit(PathOf(target), SLASH);
  }

  /**
    One spelling per resource: an accepted target that is not a listing is the canonical target of
    the endpoint it was parsed to, and the endpoint is well formed.
   */
  lemma AcceptedIsCanonical(httpMethod: Method, target: Bytes, e: Endpoint)
    requires Parse(httpMethod, target) == Ok(e) && e.kind != List
    ensures WellFormed(e) && target == Render(e)
  {
    var path, raw := PathOf(target), QueryOf(target);
    var offset := |path| + if raw.Some? then 1 else 0;
    var query := ParseQuery(raw, offset).value;
    TargetRejoined(target);
    ParsedVersionPositive(raw, offset);
    PathExact(httpMethod, Split(path, SLASH), |path|, query, e);
    AcceptedQueryIsCanonical(raw, offset);
  }

  /** The target is this spelling of the listing, under a method that asks for one. */
  ghost predicate IsListing(httpMethod: Method, target: Bytes, e: Endpoint, trailing: bool, query: bool) {
    && target == RenderList(e, trailing, query)
    && (query || httpMethod == ListMethod) && (query ==> httpMethod != OtherMethod)
  }

  /** An accepted listing has one of the four spellings of its endpoint, and a method to match. */
  lemma AcceptedListing(httpMethod: Method, target: Bytes, e: Endpoint)
    requires Parse(httpMethod, target) == Ok(e) && e.kind == List
    ensures WellFormed(e) && exists trailing, query :: IsListing(httpMethod, target, e, trailing, query)
  {
    var path, raw := PathOf(target), QueryOf(target);
    var offset := |path| + if raw.Some? then 1 else 0;
    var query := ParseQuery(raw, offset).value;
    var segments := Split(path, SLASH);
    TargetRejoined(target);
    PathExact(httpMethod, segments, |path|, query, e);
    AcceptedQueryIsCanonical(raw, offset);
    assert IsListing(httpMethod, target, e, segments == PathSegments(e, true), query.list);
  }

  /** Two accepted targets of one endpoint are the same bytes. */
  lemma OneSpelling(m1: Method, t1: Bytes, m2: Method, t2: Bytes)
    requires Parse(m1, t1).Ok? && Parse(m1, t1) == Parse(m2, t2) && Parse(m1, t1).value.kind != List
    ensures t1 == t2
  {
    AcceptedIsCanonical(m1, t1, Parse(m1, t1).value);
    AcceptedIsCanonical(m2, t2, Parse(m2, t2).value);
  }

  // ---------------------------------------------------------------- canonical is accepted

  ghost predicate PlainParts(parts: seq<Bytes>) {
    forall i :: 0 <= i < |parts| ==> SLASH !in parts[i] && QUESTION !in parts[i]
  }

  lemma RenderedSegmentsPlain(e: Endpoint, trailing: bool)
    ensures PlainParts(PathSegments(e, trailing))
  {
    SpellingIsPlain(e.resource.mount);
    forall i | 0 <= i < |e.resource.segments|
      ensures SLASH !in EncodeAll(e.resource.segments)[i] && QUESTION !in EncodeAll(e.resource.segments)[i]
    {
      SpellingIsPlain(e.resource.segments[i]);
    }
  }

  lemma {:induction false} JoinedPlain(parts: seq<Bytes>, b: byte)
    requires b != SLASH && forall i :: 0 <= i < |parts| ==> b !in parts[i]
    ensures b !in Join(parts, SLASH)
    decreases |parts|
  {
    if |parts| > 1 { JoinedPlain(parts[1..], b); }
  }

  lemma SplitTarget(path: Bytes, query: Option<Bytes>)
    requires QUESTION !in path
    ensures PathOf(WithQuery(path, query)) == path && QueryOf(WithQuery(path, query)) == query
  {
    if query.None? {
      FindAbsent(path, QUESTION);
    } else {
      FindAfter(path, QUESTION, query.value);
      var t := path + [QUESTION] + query.value;
      assert t[..|path|] == path && t[|path| + 1..] == query.value;
    }
  }

  lemma AssembledSplits(segments: seq<Bytes>, raw: Option<Bytes>)
    requires |segments| >= 4 && PlainParts(segments)
    ensures var target := WithQuery(Join(segments, SLASH), raw);
      && PathOf(target) == Join(segments, SLASH) && QueryOf(target) == raw && target != []
      && Split(Join(segments, SLASH), SLASH) == segments
  {
    JoinedPlain(segments, QUESTION);
    SplitTarget(Join(segments, SLASH), raw);
    SplitJoin(segments, SLASH);
  }

  lemma ParseIs(httpMethod: Method, target: Bytes, path: Bytes, raw: Option<Bytes>, q: Query)
    requires target != [] && |target| <= MAX_RAW_TARGET_BYTES && PathOf(target) == path && QueryOf(target) == raw
    requires ParseQuery(raw, |path| + if raw.Some? then 1 else 0) == Ok(q)
    ensures Parse(httpMethod, target) == ParsePath(httpMethod, Split(path, SLASH), |path|, q)
  {
  }

  /** A target put together from plain segments and a canonical query is taken apart again. */
  lemma AssembledParses(httpMethod: Method, segments: seq<Bytes>, q: Query)
    requires |segments| >= 4 && PlainParts(segments)
    requires !(q.version.Some? && q.list) && (q.version.Some? ==> q.version.value >= 1)
    requires |WithQuery(Join(segments, SLASH), RenderQuery(q))| <= MAX_RAW_TARGET_BYTES
    ensures Parse(httpMethod, WithQuery(Join(segments, SLASH), RenderQuery(q)))
      == ParsePath(httpMethod, segments, |Join(segments, SLASH)|, q)
  {
    var path, raw := Join(segments, SLASH), RenderQuery(q);
    var target := WithQuery(path, raw);
    AssembledSplits(segments, raw);
    CanonicalQueryParses(q, |path| + if raw.Some? then 1 else 0);
    ParseIs(httpMethod, target, path, raw, q);
  }

  /** Every well-formed endpoint whose canonical target fits is accepted under it. */
  lemma CanonicalIsAccepted(httpMethod: Method, e: Endpoint)
    requires WellFormed(e) && e.kind != List && httpMethod != ListMethod
    requires |Render(e)| <= MAX_RAW_TARGET_BYTES
    ensures Parse(httpMethod, Render(e)) == Ok(e)
  {
    var segments, query := PathSegments(e, false), Query(e.version, false);
    RenderedSegmentsPlain(e, false);
    AssembledParses(httpMethod, segments, query);
    PathExact(httpMethod, segments, |Join(segments, SLASH)|, query, e);
  }

  lemma ListingIsAccepted(httpMethod: Method, e: Endpoint, trailing: bool, query: bool)
    requires WellFormed(e) && e.kind == List
    requires (query || httpMethod == ListMethod) && (query ==> httpMethod != OtherMethod)
    requires |RenderList(e, trailing, query)| <= MAX_RAW_TARGET_BYTES
    ensures Parse(httpMethod, RenderList(e, trailing, query)) == Ok(e)
  {
    var segments := PathSegments(e, trailing);
    RenderedSegmentsPlain(e, trailing);
    AssembledParses(httpMethod, segments, Query(None, query));
    PathExact(httpMethod, segments, |Join(segments, SLASH)|, Query(None, query), e);
  }

  // ---------------------------------------------------------------- keys

  /** Different segment lists get different KV keys: no decoded segment is empty or holds a slash. */
  lemma KeysAreDistinct(m1: Method, t1: Bytes, m2: Method, t2: Bytes)
    requires Parse(m1, t1).Ok? && Parse(m2, t2).Ok?
    ensures LogicalPath(Parse(m1, t1).value.resource) == LogicalPath(Parse(m2, t2).value.resource) <==>
      Parse(m1, t1).value.resource.segments == Parse(m2, t2).value.resource.segments
  {
    var e1, e2 := Parse(m1, t1).value, Parse(m2, t2).value;
    if e1.kind == List { AcceptedListing(m1, t1, e1); } else { AcceptedIsCanonical(m1, t1, e1); }
    if e2.kind == List { AcceptedListing(m2, t2, e2); } else { AcceptedIsCanonical(m2, t2, e2); }
    NamesAreKeys(e1.resource.segments, e2.resource.segments);
  }

  lemma NamesAreKeys(a: seq<Bytes>, b: seq<Bytes>)
    requires AllNames(a) && AllNames(b)
    ensures Join(a, SLASH) == Join(b, SLASH) <==> a == b
  {
    NamesAreFree(a);
    NamesAreFree(b);
    if Join(a, SLASH) == Join(b, SLASH) { JoinInjective(a, b, SLASH); }
  }

  lemma NamesAreFree(names: seq<Bytes>)
    requires AllNames(names)
    ensures FreeOf(names, SLASH) && forall i :: 0 <= i < |names| ==> names[i] != []
  {
    forall i | 0 <= i < |names|
      ensures SLASH !in names[i] && names[i] != []
    {
      assert IsName(names[i]);
    }
  }

  // ---------------------------------------------------------------- the parser's own loop

  function Onto(done: seq<Bytes>, rest: Result<seq<Bytes>, ParseError>): Result<seq<Bytes>, ParseError> {
    if rest.Ok? then Ok(done + rest.value) else rest
  }

  lemma DecodeOnto(done: seq<Bytes>, rest: seq<Bytes>, offset: nat)
    requires rest != []
    ensures var first := Decode(rest[0], offset);
      Onto(done, DecodeAll(rest, offset))
      == if first.Err? then Err(first.error)
         else Onto(done + [first.value], DecodeAll(rest[1..], offset + |rest[0]| + 1))
  {
    var first, tail := Decode(rest[0], offset), DecodeAll(rest[1..], offset + |rest[0]| + 1);
    if first.Ok? && tail.Ok? {
      assert done + ([first.value] + tail.value) == done + [first.value] + tail.value;
    }
  }

  method DecodeSegments(raws: seq<Bytes>, start: nat) returns (r: Result<seq<Bytes>, ParseError>)
    ensures r == DecodeAll(raws, start)
  {
    var segments: seq<Bytes> := [];
    var offset: nat := start;
    ghost var all := DecodeAll(raws, start);
    assert raws[0..] == raws;
    assert all.Ok? ==> [] + all.value == all.value;
    for i := 0 to |raws|
      invariant Onto(segments, DecodeAll(raws[i..], offset)) == all
    {
      assert raws[i..][0] == raws[i] && raws[i..][1..] == raws[i + 1..];
      DecodeOnto(segments, raws[i..], offset);
      var decoded := DecodeSegment(raws[i], offset);
      if decoded.Err? { return Err(decoded.error); }
      segments := segments + [decoded.value];
      offset := offset + |raws[i]| + 1;
    }
    assert raws[|raws|..] == [];
    assert Onto(segments, DecodeAll([], offset)) == Ok(segments) by { assert segments + [] == segments; }
    return Ok(segments);
  }

  /** The path of the target, once its query is known. */
  method ParseSegments(httpMethod: Method, segments: seq<Bytes>, length: nat, query: Query)
    returns (r: Result<Endpoint, ParseError>)
    ensures r == ParsePath(httpMethod, segments, length, query)
  {
    if |segments| < 4 || segments[0] != [] || segments[1] != V1 { return Err(ParseError(InvalidEndpoint, 0)); }
    var mount := DecodeSegment(segments[2], 4);
    if mount.Err? { return Err(mount.error); }
    var form := segments[3];
    var list := httpMethod == ListMethod || query.list;
    if list && form != METADATA_FORM { return Err(ParseError(InvalidQuery, length)); }
    if query.list && httpMethod == OtherMethod { return Err(ParseError(InvalidQuery, length)); }
    var kind := KindOf(form, list);
    if kind.None? { return Err(ParseError(InvalidEndpoint, 4)); }
    if query.version.Some? && kind.value != Data { return Err(ParseError(InvalidQuery, length)); }
    var names := segments[4..];
    if names != [] && names[|names| - 1] == [] {
      if kind.value != List { return Err(ParseError(EmptySegment, SaturatingSub(length, 1))); }
      names := names[..|names| - 1];
    }
    if names == [] && kind.value != List { return Err(ParseError(MissingResource, length)); }
    var decoded := DecodeSegments(names, ResourceStart(segments));
    if decoded.Err? { return Err(decoded.error); }
    return Ok(Endpoint(kind.value, Resource(mount.value, decoded.value), query.version));
  }

  /** `parse_raw_target` */
  method ParseRawTarget(httpMethod: Method, target: Bytes) returns (r: Result<Endpoint, ParseError>)
    ensures r == Parse(httpMethod, target)
  {
    if |target| > MAX_RAW_TARGET_BYTES { return Err(ParseError(TargetTooLong, MAX_RAW_TARGET_BYTES)); }
    if target == [] { return Err(ParseError(InvalidEndpoint, 0)); }
    var path, raw := PathOf(target), QueryOf(target);
    var query := ParseQueryLoop(raw, |path| + if raw.Some? then 1 else 0);
    if query.Err? { return Err(query.error); }
    r := ParseSegments(httpMethod, Split(path, SLASH), |path|, query.value);
  }
}
