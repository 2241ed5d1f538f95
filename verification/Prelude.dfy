/**
  Widths, identifiers and ordered sets shared by every component.

  A Rust `BTreeSet`/`BTreeMap` is a Dafny `set`/`map`; where the source iterates one in key
  order, the model uses `Least` and `Ascending`.
 */
module Prelude {

  datatype Option<+T> = None | Some(value: T)

  datatype Result<+T, +E> = Ok(value: T) | Err(error: E)

  const U64_MAX: nat := 0xFFFF_FFFF_FFFF_FFFF

  type u64 = n: nat | n <= 0xFFFF_FFFF_FFFF_FFFF
  type u32 = n: nat | n <= 0xFFFF_FFFF
  type u16 = n: nat | n <= 0xFFFF
  type byte = n: nat | n <= 0xFF

  /** A sixteen-byte identifier read as a big-endian number, so `<` is the byte order. */
  type Id = n: nat | n < 0x1_0000_0000_0000_0000_0000_0000_0000_0000

  function Min(x: nat, y: nat): nat { if x <= y then x else y }

  function Max(x: nat, y: nat): nat { if x >= y then x else y }

  /** Rust's `u64::saturating_add`. */
  function SaturatingAdd(x: u64, y: nat): u64 { Min(x + y, U64_MAX) }

  /** Rust's `saturating_sub` on unsigned values. */
  function SaturatingSub(x: nat, y: nat): nat { if x >= y then x - y else 0 }

  lemma {:induction false} LeastExists(s: set<nat>)
    requires s != {}
    ensures exists x :: x in s && forall y :: y in s ==> x <= y
    decreases |s|
  {
    var z :| z in s;
    var rest := s - {z};
    if rest == {} {
      assert s == {z};
    } else {
      LeastExists(rest);
      var x :| x in rest && forall y :: y in rest ==> x <= y;
      var least := Min(z, x);
      forall y | y in s
        ensures least <= y
      {
        assert y == z || y in rest;
      }
      assert least in s;
    }
  }

  /** The first key of an ordered set. */
  function Least(s: set<nat>): (x: nat)
    requires s != {}
    ensures x in s && forall y :: y in s ==> x <= y
  {
    LeastExists(s);
    var x :| x in s && forall y :: y in s ==> x <= y;
    x
  }

  ghost predicate StrictlyAscending(q: seq<nat>) {
    forall i, j :: 0 <= i < j < |q| ==> q[i] < q[j]
  }

  /** The elements of an ordered set in iteration order. */
  function Ascending(s: set<nat>): (q: seq<nat>)
    ensures StrictlyAscending(q)
    ensures forall x :: x in q <==> x in s
    ensures |q| == |s|
  {
    if s == {} then [] else
      var x := Least(s);
      var rest := Ascending(s - {x});
      assert forall i :: 0 <= i < |rest| ==> rest[i] in s - {x};
      [x] + rest
  }

  function AscendingIds(s: set<Id>): (q: seq<Id>)
    ensures StrictlyAscending(q)
    ensures forall x :: x in q <==> x in s
    ensures |q| == |s|
  {
    var q := Ascending(s);
    assert forall i :: 0 <= i < |q| ==> q[i] in s;
    q
  }
}
