/** Byte strings: `split`, `join`, decimal and hexadecimal spellings, byte order. */
module Text {
  import opened Prelude

  type Bytes = seq<byte>

  const SLASH: byte := 0x2F

  /** `char::is_control` somewhere in a UTF-8 string: C0, DEL, or C1 (which starts 0xC2). */
  predicate HasControl(s: Bytes) {
    exists i :: 0 <= i < |s| &&
      (s[i] < 0x20 || s[i] == 0x7F || (s[i] == 0xC2 && i + 1 < |s| && 0x80 <= s[i + 1] <= 0x9F))
  }

  /** Position of the first `sep`, or the length when there is none. */
  function Find(s: Bytes, sep: byte): (i: nat)
    ensures i <= |s|
    ensures i < |s| ==> s[i] == sep
    ensures sep !in s[..i]
  {
    if s == [] then 0
    else if s[0] == sep then 0
    else
      var i := 1 + Find(s[1..], sep);
      assert s[..i] == [s[0]] + s[1..][..i - 1];
      i
  }

  /** `str::split` on one separator byte. */
  function Split(s: Bytes, sep: byte): (parts: seq<Bytes>)
    ensures |parts| >= 1
    decreases |s|
  {
    var i := Find(s, sep);
    if i == |s| then [s] else [s[..i]] + Split(s[i + 1..], sep)
  }

  /** `[_]::join` with one separator byte. */
  function Join(parts: seq<Bytes>, sep: byte): Bytes {
    if parts == [] then []
    else if |parts| == 1 then parts[0]
    else parts[0] + [sep] + Join(parts[1..], sep)
  }

  ghost predicate FreeOf(parts: seq<Bytes>, sep: byte) {
    forall i :: 0 <= i < |parts| ==> sep !in parts[i]
  }

  lemma {:induction false} JoinSplit(s: Bytes, sep: byte)
    ensures Join(Split(s, sep), sep) == s
    decreases |s|
  {
    var i := Find(s, sep);
    if i < |s| {
      JoinSplit(s[i + 1..], sep);
      var parts := Split(s, sep);
      assert parts[1..] == Split(s[i + 1..], sep);
      assert s == s[..i] + [sep] + s[i + 1..];
    }
  }

  lemma {:induction false} SplitIsFree(s: Bytes, sep: byte)
    ensures FreeOf(Split(s, sep), sep)
    decreases |s|
  {
    var i := Find(s, sep);
    if i < |s| {
      SplitIsFree(s[i + 1..], sep);
    } else {
      assert s[..i] == s;
    }
  }

  lemma {:induction false} FindAfter(prefix: Bytes, sep: byte, rest: Bytes)
    requires sep !in prefix
    ensures Find(prefix + [sep] + rest, sep) == |prefix|
    decreases |prefix|
  {
    if prefix != [] {
      FindAfter(prefix[1..], sep, rest);
      assert (prefix + [sep] + rest)[1..] == prefix[1..] + [sep] + rest;
    }
  }

  lemma {:induction false} FindAbsent(s: Bytes, sep: byte)
    requires sep !in s
    ensures Find(s, sep) == |s|
  {
    if s != [] {
      FindAbsent(s[1..], sep);
    }
  }

  lemma {:induction false} SplitJoin(parts: seq<Bytes>, sep: byte)
    requires parts != []
    requires FreeOf(parts, sep)
    ensures Split(Join(parts, sep), sep) == parts
    decreases |parts|
  {
    if |parts| == 1 {
      FindAbsent(parts[0], sep);
    } else {
      var rest := Join(parts[1..], sep);
      FindAfter(parts[0], sep, rest);
      SplitJoin(parts[1..], sep);
      var s := parts[0] + [sep] + rest;
      assert s[..|parts[0]|] == parts[0];
      assert s[|parts[0]| + 1..] == rest;
    }
  }

  /** A nonempty list of nonempty parts joins to something nonempty. */
  lemma JoinNonempty(parts: seq<Bytes>, sep: byte)
    requires forall i :: 0 <= i < |parts| ==> parts[i] != []
    ensures Join(parts, sep) == [] <==> parts == []
  {
  }

  /** Lists of nonempty separator-free parts are told apart by their joined form. */
  lemma JoinInjective(a: seq<Bytes>, b: seq<Bytes>, sep: byte)
    requires FreeOf(a, sep) && FreeOf(b, sep)
    requires forall i :: 0 <= i < |a| ==> a[i] != []
    requires forall i :: 0 <= i < |b| ==> b[i] != []
    requires Join(a, sep) == Join(b, sep)
    ensures a == b
  {
    JoinNonempty(a, sep);
    JoinNonempty(b, sep);
    if a != [] {
      SplitJoin(a, sep);
      SplitJoin(b, sep);
    }
  }
}
