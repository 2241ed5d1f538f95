/** UTF-8 (section 3 of RFC 3629) told from code points, and what the checks on bytes make of it. */
module RawUtf8 {
  import opened Prelude
  import opened Text
  import opened RawSegment

  /** A Unicode scalar value: any code point but the surrogates. */
  predicate Scalar(c: nat) { c < 0xD800 || 0xE000 <= c <= 0x10FFFF }

  function Utf8(c: nat): Bytes
    requires Scalar(c)
  {
    if c < 0x80 then [c]
    else if c < 0x800 then [0xC0 + c / 64, 0x80 + c % 64]
    else if c < 0x1_0000 then [0xE0 + c / 4096, 0x80 + c / 64 % 64, 0x80 + c % 64]
    else
      assert c / 262144 <= 4;
      [0xF0 + c / 262144, 0x80 + c / 4096 % 64, 0x80 + c / 64 % 64, 0x80 + c % 64]
  }

  predicate Scalars(cs: seq<nat>) { forall i :: 0 <= i < |cs| ==> Scalar(cs[i]) }

  function Utf8All(cs: seq<nat>): Bytes
    requires Scalars(cs)
  {
    if cs == [] then [] else Utf8(cs[0]) + Utf8All(cs[1..])
  }

  /** The check on the first bytes takes in exactly one encoded scalar value. */
  lemma FirstIsTaken(c: nat, rest: Bytes)
    requires Scalar(c)
    ensures CharLength(Utf8(c) + rest) == |Utf8(c)|
  {
    var s := Utf8(c) + rest;
    assert s[..|Utf8(c)|] == Utf8(c);
    if 0x800 <= c < 0x1_0000 {
      assert s[0] == 0xE0 + c / 4096 && s[1] == 0x80 + c / 64 % 64 && s[2] == 0x80 + c % 64;
      ThreeBytes(c);
    } else if c >= 0x1_0000 {
      assert s[0] == 0xF0 + c / 262144 && s[1] == 0x80 + c / 4096 % 64;
      assert s[2] == 0x80 + c / 64 % 64 && s[3] == 0x80 + c % 64;
      FourBytes(c);
    }
  }

  lemma ThreeBytes(c: nat)
    requires 0x800 <= c < 0x1_0000 && Scalar(c)
    ensures c / 4096 <= 15
    ensures c / 4096 == 0 ==> c / 64 % 64 >= 0x20
    ensures c / 4096 == 13 ==> c / 64 % 64 <= 0x1F
  {
    assert c / 64 == c / 4096 * 64 + c / 64 % 64 by { Nested(c, 64, 64); }
  }

  lemma FourBytes(c: nat)
    requires 0x1_0000 <= c <= 0x10FFFF
    ensures c / 262144 <= 4
    ensures c / 262144 == 0 ==> c / 4096 % 64 >= 0x10
    ensures c / 262144 == 4 ==> c / 4096 % 64 <= 0x0F
  {
    assert c / 4096 == c / 262144 * 64 + c / 4096 % 64 by { Nested(c, 4096, 64); }
  }

  lemma Nested(c: nat, a: nat, b: nat)
    requires (a == 64 || a == 4096) && b == 64
    ensures c / a == c / (a * b) * b + c / a % b
  {
  }

  function Two(a: nat, b: nat): nat { a * 64 + b }

  function Three(a: nat, b: nat, c: nat): nat { a * 4096 + b * 64 + c }

  function Four(a: nat, b: nat, c: nat, d: nat): nat { a * 262144 + b * 4096 + c * 64 + d }

  lemma TwoIs(a: nat, b: nat)
    requires b < 64
    ensures Two(a, b) / 64 == a && Two(a, b) % 64 == b
  {
  }

  lemma ThreeIs(a: nat, b: nat, c: nat)
    requires b < 64 && c < 64
    ensures var n := Three(a, b, c);
      n / 4096 == a && n / 64 % 64 == b && n % 64 == c
  {
    var n := Three(a, b, c);
    TwoIs(Two(a, b), c);
    TwoIs(a, b);
    assert n == Two(Two(a, b), c);
    Nested(n, 64, 64);
  }

  lemma FourIs(a: nat, b: nat, c: nat, d: nat)
    requires b < 64 && c < 64 && d < 64
    ensures var n := Four(a, b, c, d);
      n / 262144 == a && n / 4096 % 64 == b && n / 64 % 64 == c && n % 64 == d
  {
    var n := Four(a, b, c, d);
    TwoIs(Three(a, b, c), d);
    ThreeIs(a, b, c);
    assert n == Two(Three(a, b, c), d);
    Nested(n, 64, 64);
    assert n / 4096 == Two(a, b) by { TwoIs(Two(a, b), c); assert n / 64 == Two(Two(a, b), c); }
    TwoIs(a, b);
    Nested(n, 4096, 64);
  }

  /** The scalar value a well-formed character stands for. */
  function ScalarAt(s: Bytes): nat
    requires CharLength(s) > 0
  {
    match CharLength(s)
    case 1 => s[0]
    case 2 => Two(s[0] - 0xC0, s[1] - 0x80)
    case 3 => Three(s[0] - 0xE0, s[1] - 0x80, s[2] - 0x80)
    case _ => Four(s[0] - 0xF0, s[1] - 0x80, s[2] - 0x80, s[3] - 0x80)
  }

  lemma ThreeTaken(s: Bytes, c: nat)
    requires CharLength(s) == 3 && c == ScalarAt(s)
    ensures 0x800 <= c < 0x1_0000 && Scalar(c) && s[..3] == Utf8(c)
  {
    ThreeIs(s[0] - 0xE0, s[1] - 0x80, s[2] - 0x80);
  }

  lemma FourTaken(s: Bytes, c: nat)
    requires CharLength(s) == 4 && c == ScalarAt(s)
    ensures 0x1_0000 <= c <= 0x10FFFF && s[..4] == Utf8(c)
  {
    FourIs(s[0] - 0xF0, s[1] - 0x80, s[2] - 0x80, s[3] - 0x80);
  }

  lemma TakenIsFirst(s: Bytes)
    requires CharLength(s) > 0
    ensures Scalar(ScalarAt(s)) && s[..CharLength(s)] == Utf8(ScalarAt(s))
  {
    if CharLength(s) == 2 {
      TwoIs(s[0] - 0xC0, s[1] - 0x80);
    } else if CharLength(s) == 3 {
      ThreeTaken(s, ScalarAt(s));
    } else if CharLength(s) == 4 {
      FourTaken(s, ScalarAt(s));
    }
  }

  lemma {:induction false} EncodedIsValid(cs: seq<nat>)
    requires Scalars(cs)
    ensures ValidUtf8(Utf8All(cs))
  {
    if cs != [] {
      var rest := Utf8All(cs[1..]);
      EncodedIsValid(cs[1..]);
      FirstIsTaken(cs[0], rest);
      assert (Utf8(cs[0]) + rest)[|Utf8(cs[0])|..] == rest;
    }
  }

  lemma OneMore(s: Bytes, n: nat, c: nat, rest: seq<nat>)
    requires n <= |s| && Scalar(c) && Scalars(rest) && s[..n] == Utf8(c) && s[n..] == Utf8All(rest)
    ensures Scalars([c] + rest) && s == Utf8All([c] + rest)
  {
    assert ([c] + rest)[1..] == rest;
    assert s == s[..n] + s[n..];
  }

  lemma {:induction false} ValidIsEncoded(s: Bytes) returns (cs: seq<nat>)
    requires ValidUtf8(s)
    ensures Scalars(cs) && s == Utf8All(cs)
    decreases |s|
  {
    if s == [] {
      cs := [];
    } else {
      var n, c := CharLength(s), ScalarAt(s);
      TakenIsFirst(s);
      var rest := ValidIsEncoded(s[n..]);
      cs := [c] + rest;
      OneMore(s, n, c, rest);
    }
  }

  /** The bytes of a name are accepted as text exactly when they encode some scalar values. */
  lemma Utf8Exact(s: Bytes)
    ensures ValidUtf8(s) <==> exists cs: seq<nat> :: Scalars(cs) && s == Utf8All(cs)
  {
    if ValidUtf8(s) { var cs := ValidIsEncoded(s); }
    if cs: seq<nat> :| Scalars(cs) && s == Utf8All(cs) { EncodedIsValid(cs); }
  }

  // ---------------------------------------------------------------- control characters

  /** The control characters of Unicode: C0, DEL and C1. */
  predicate Control(c: nat) { c < 0x20 || 0x7F <= c <= 0x9F }

  /** A control character ends at this position, or starts here when it takes two bytes. */
  predicate ControlAt(s: Bytes, i: nat)
    requires i < |s|
  {
    s[i] < 0x20 || s[i] == 0x7F || (s[i] == 0xC2 && i + 1 < |s| && 0x80 <= s[i + 1] <= 0x9F)
  }

  lemma ControlMeans(s: Bytes)
    ensures HasControl(s) <==> exists i :: 0 <= i < |s| && ControlAt(s, i)
  {
    if HasControl(s) {
      var i :| 0 <= i < |s| && (s[i] < 0x20 || s[i] == 0x7F || (s[i] == 0xC2 && i + 1 < |s| && 0x80 <= s[i + 1] <= 0x9F));
      assert ControlAt(s, i);
    }
  }

  predicate Tails(s: Bytes) { forall i :: 1 <= i < |s| ==> 0x80 <= s[i] <= 0xBF }

  /** Past ASCII the first byte is high and the others are tails; 0xC2 starts just U+0080 to U+00BF. */
  lemma Utf8Shape(c: nat)
    requires Scalar(c)
    ensures c < 0x80 ==> Utf8(c) == [c]
    ensures c >= 0x80 ==> |Utf8(c)| >= 2 && Utf8(c)[0] >= 0xC2 && Tails(Utf8(c))
    ensures c >= 0x80 ==> (Utf8(c)[0] == 0xC2 <==> c <= 0xBF)
    ensures 0x80 <= c <= 0xBF ==> Utf8(c)[1] == c
  {
  }

  lemma ControlBehind(first: Bytes, rest: Bytes, i: nat)
    requires i < |rest| && ControlAt(rest, i)
    ensures HasControl(first + rest)
  {
    var s := first + rest;
    assert s[|first| + i] == rest[i] && (i + 1 < |rest| ==> s[|first| + i + 1] == rest[i + 1]);
    assert ControlAt(s, |first| + i);
  }

  lemma OwnControl(c: nat, s: Bytes)
    requires Scalar(c) && |Utf8(c)| <= |s| && s[..|Utf8(c)|] == Utf8(c)
    ensures Control(c) <==> ControlAt(s, 0)
    ensures forall i :: 1 <= i < |Utf8(c)| ==> !ControlAt(s, i)
  {
    Utf8Shape(c);
    assert forall i :: 0 <= i < |Utf8(c)| ==> s[i] == Utf8(c)[i];
  }

  lemma ControlSplit(first: Bytes, rest: Bytes, s: Bytes, own: bool)
    requires first != [] && s == first + rest && (own <==> ControlAt(s, 0))
    requires forall i :: 1 <= i < |first| ==> !ControlAt(s, i)
    ensures HasControl(s) <==> own || HasControl(rest)
  {
    var n := |first|;
    ControlMeans(s);
    ControlMeans(rest);
    if i :| 0 <= i < |rest| && ControlAt(rest, i) { ControlBehind(first, rest, i); }
    if i :| 0 <= i < |s| && ControlAt(s, i) {
      if i >= n {
        assert s[i] == rest[i - n] && (i + 1 < |s| ==> s[i + 1] == rest[i + 1 - n]);
        assert ControlAt(rest, i - n);
      }
    }
  }

  lemma FirstControl(c: nat, rest: Bytes)
    requires Scalar(c)
    ensures HasControl(Utf8(c) + rest) <==> Control(c) || HasControl(rest)
  {
    var s := Utf8(c) + rest;
    assert s[..|Utf8(c)|] == Utf8(c);
    OwnControl(c, s);
    ControlSplit(Utf8(c), rest, s, Control(c));
  }

  /** A text has a control character exactly when one of its scalar values is one. */
  lemma {:induction false} ControlExact(cs: seq<nat>)
    requires Scalars(cs)
    ensures HasControl(Utf8All(cs)) <==> exists i :: 0 <= i < |cs| && Control(cs[i])
  {
    if cs != [] {
      FirstControl(cs[0], Utf8All(cs[1..]));
      ControlExact(cs[1..]);
      assert forall i :: 0 <= i < |cs[1..]| ==> cs[1..][i] == cs[i + 1];
      if i :| 0 <= i < |cs| && Control(cs[i]) {
        if i > 0 { assert Control(cs[1..][i - 1]); }
      }
      if i :| 0 <= i < |cs[1..]| && Control(cs[1..][i]) { assert Control(cs[i + 1]); }
    }
  }
}
