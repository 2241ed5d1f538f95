/** Row keys: hexadecimal identifiers joined by colons, compared byte by byte. */
module RowKeys {
  import opened Prelude
  import opened Text

  const COLON: byte := 0x3A
  const DASH: byte := 0x2D

  function Digit(d: nat): byte
    requires d < 16
  {
    if d < 10 then 0x30 + d else 0x57 + d
  }

  /** The low `width` hexadecimal digits. */
  function Hex(n: nat, width: nat): (s: Bytes)
    ensures |s| == width && COLON !in s && DASH !in s
  {
    if width == 0 then [] else Hex(n / 16, width - 1) + [Digit(n % 16)]
  }

  function Pow16(k: nat): nat { if k == 0 then 1 else 16 * Pow16(k - 1) }

  lemma Pow16Of32()
    ensures Pow16(32) == 0x1_0000_0000_0000_0000_0000_0000_0000_0000
  {
    assert Pow16(8) == 0x1_0000_0000 by { assert Pow16(4) == 0x1_0000; }
    assert Pow16(16) == 0x1_0000_0000 * 0x1_0000_0000 by { assert Pow16(12) == 0x1_0000 * Pow16(8); }
    assert Pow16(24) == 0x1_0000_0000 * Pow16(16) by { assert Pow16(20) == 0x1_0000 * Pow16(16); }
    assert Pow16(28) == 0x1_0000 * Pow16(24);
  }

  lemma {:induction false} HexInjective(m: nat, n: nat, width: nat)
    requires m < Pow16(width) && n < Pow16(width) && Hex(m, width) == Hex(n, width)
    ensures m == n
    decreases width
  {
    if width > 0 {
      var a, b := Hex(m, width), Hex(n, width);
      assert a[..width - 1] == Hex(m / 16, width - 1) && b[..width - 1] == Hex(n / 16, width - 1);
      assert a[width - 1] == Digit(m % 16) && b[width - 1] == Digit(n % 16);
      HexInjective(m / 16, n / 16, width - 1);
    }
  }

  /** What lower-case hexadecimal digits stand for, if they are that. */
  function Worth(s: Bytes): Option<nat> {
    if s == [] then Some(0)
    else
      var high := Worth(s[..|s| - 1]);
      var b := s[|s| - 1];
      if high.None? then None
      else if 0x30 <= b <= 0x39 then Some(16 * high.value + (b - 0x30))
      else if 0x61 <= b <= 0x66 then Some(16 * high.value + (b - 0x61 + 10))
      else None
  }

  /** A number is spelled in lower-case digits that stand for it. */
  lemma {:induction false} HexReads(n: nat, width: nat)
    requires n < Pow16(width)
    ensures Worth(Hex(n, width)) == Some(n)
    decreases width
  {
    if width > 0 {
      var s := Hex(n, width);
      HexReads(n / 16, width - 1);
      assert s[..width - 1] == Hex(n / 16, width - 1) && s[width - 1] == Digit(n % 16);
    }
  }

  /** `encode_id`, or a dash for none. */
  function Part(id: Option<Id>): (s: Bytes)
    ensures COLON !in s
  {
    match id
    case None => [DASH]
    case Some(n) => Hex(n, 32)
  }

  lemma PartInjective(a: Option<Id>, b: Option<Id>)
    requires Part(a) == Part(b)
    ensures a == b
  {
    if a.Some? && b.Some? {
      Pow16Of32();
      HexInjective(a.value, b.value, 32);
    }
  }

  /** An identifier is spelled with its 32 digits; none is a dash. */
  lemma PartReads(id: Option<Id>)
    ensures id == None ==> Part(id) == [0x2D]
    ensures id.Some? ==> |Part(id)| == 32 && Worth(Part(id)) == Some(id.value)
  {
    if id.Some? {
      Pow16Of32();
      HexReads(id.value, 32);
    }
  }

  function Key(consumer: Option<Id>, instance: Option<Id>, identity: Option<Id>): Bytes {
    Join([Part(consumer), Part(instance), Part(identity)], COLON)
  }

  /** Equal keys belong to the same consumer, instance and identity. */
  lemma KeyInjective(c: Option<Id>, i: Option<Id>, d: Option<Id>, c': Option<Id>, i': Option<Id>, d': Option<Id>)
    requires Key(c, i, d) == Key(c', i', d')
    ensures c == c' && i == i' && d == d'
  {
    var p, q := [Part(c), Part(i), Part(d)], [Part(c'), Part(i'), Part(d')];
    JoinInjective(p, q, COLON);
    assert p[0] == q[0] && p[1] == q[1] && p[2] == q[2];
    PartInjective(c, c');
    PartInjective(i, i');
    PartInjective(d, d');
  }

  // ---------------------------------------------------------------- byte order

  predicate Before(a: Bytes, b: Bytes) {
    b != [] && (a == [] || a[0] < b[0] || (a[0] == b[0] && Before(a[1..], b[1..])))
  }

  lemma {:induction false} BeforeTotal(a: Bytes, b: Bytes)
    ensures Before(a, b) ==> !Before(b, a) && a != b
    ensures a == b || Before(a, b) || Before(b, a)
  {
    if a != [] && b != [] {
      BeforeTotal(a[1..], b[1..]);
      if a[0] == b[0] && a[1..] == b[1..] { assert a == [a[0]] + a[1..] && b == [b[0]] + b[1..]; }
    }
  }

  lemma {:induction false} BeforeChains(a: Bytes, b: Bytes, c: Bytes)
    ensures Before(a, c) ==> Before(a, b) || Before(b, c)
  {
    if a != [] && b != [] && c != [] { BeforeChains(a[1..], b[1..], c[1..]); }
  }

  // ---------------------------------------------------------------- the order of keys

  lemma {:induction false} BeforePrefix(p: Bytes, a: Bytes, b: Bytes)
    ensures Before(p + a, p + b) <==> Before(a, b)
  {
    if p == [] {
      assert p + a == a && p + b == b;
    } else {
      assert (p + a)[1..] == p[1..] + a && (p + b)[1..] == p[1..] + b;
      BeforePrefix(p[1..], a, b);
    }
  }

  /** Of two numbers of one width the smaller is spelled first, whatever follows. */
  lemma {:induction false} HexOrder(m: nat, n: nat, width: nat, x: Bytes, y: Bytes)
    requires m < n < Pow16(width)
    ensures Before(Hex(m, width) + x, Hex(n, width) + y)
    decreases width
  {
    var a, b := Hex(m / 16, width - 1), Hex(n / 16, width - 1);
    var c, d := [Digit(m % 16)], [Digit(n % 16)];
    assert Hex(m, width) + x == a + (c + x) && Hex(n, width) + y == b + (d + y);
    if m / 16 < n / 16 {
      HexOrder(m / 16, n / 16, width - 1, c + x, d + y);
    } else {
      BeforePrefix(a, c + x, d + y);
    }
  }

  /** None comes first, then the numbers in order. */
  predicate Lower(a: Option<Id>, b: Option<Id>) {
    b.Some? && (a.None? || a.value < b.value)
  }

  lemma HexStarts(n: Id)
    ensures Hex(n, 32)[0] >= 0x30
  {
    HexHigh(n, 32);
  }

  lemma {:induction false} HexHigh(n: nat, width: nat)
    ensures forall i :: 0 <= i < width ==> Hex(n, width)[i] >= 0x30
  {
    if width > 0 { HexHigh(n / 16, width - 1); }
  }

  lemma PartOrder(a: Option<Id>, b: Option<Id>, x: Bytes, y: Bytes)
    requires Lower(a, b)
    ensures Before(Part(a) + x, Part(b) + y)
  {
    Pow16Of32();
    if a.None? { HexStarts(b.value); } else { HexOrder(a.value, b.value, 32, x, y); }
  }

  /** Keys are ordered by consumer, then instance, then identity. */
  predicate OwnerBefore(c: Option<Id>, i: Option<Id>, d: Option<Id>, c': Option<Id>, i': Option<Id>, d': Option<Id>) {
    Lower(c, c') || (c == c' && (Lower(i, i') || (i == i' && Lower(d, d'))))
  }

  lemma KeySpelled(c: Option<Id>, i: Option<Id>, d: Option<Id>)
    ensures Key(c, i, d) == Part(c) + ([COLON] + (Part(i) + ([COLON] + Part(d))))
  {
    var parts := [Part(c), Part(i), Part(d)];
    assert parts[1..] == [Part(i), Part(d)] && parts[1..][1..] == [Part(d)];
    assert Join(parts[1..][1..], COLON) == Part(d);
    assert Join(parts[1..], COLON) == Part(i) + [COLON] + Part(d);
    assert Join(parts, COLON) == Part(c) + [COLON] + (Part(i) + [COLON] + Part(d));
  }

  lemma OwnersOrder(c: Option<Id>, i: Option<Id>, d: Option<Id>, c': Option<Id>, i': Option<Id>, d': Option<Id>)
    requires OwnerBefore(c, i, d, c', i', d')
    ensures Before(Key(c, i, d), Key(c', i', d'))
  {
    KeySpelled(c, i, d);
    KeySpelled(c', i', d');
    var x, y := [COLON] + (Part(i) + ([COLON] + Part(d))), [COLON] + (Part(i') + ([COLON] + Part(d')));
    if Lower(c, c') {
      PartOrder(c, c', x, y);
    } else {
      var u, v := Part(i) + ([COLON] + Part(d)), Part(i') + ([COLON] + Part(d'));
      BeforePrefix(Part(c), x, y);
      BeforePrefix([COLON], u, v);
      if Lower(i, i') {
        PartOrder(i, i', [COLON] + Part(d), [COLON] + Part(d'));
      } else {
        BeforePrefix(Part(i), [COLON] + Part(d), [COLON] + Part(d'));
        BeforePrefix([COLON], Part(d), Part(d'));
        PartOrder(d, d', [], []);
        assert Part(d) + [] == Part(d) && Part(d') + [] == Part(d');
      }
    }
  }

  /** The byte order of keys is the order of their owners, nobody before anybody. */
  lemma KeyOrder(c: Option<Id>, i: Option<Id>, d: Option<Id>, c': Option<Id>, i': Option<Id>, d': Option<Id>)
    ensures Before(Key(c, i, d), Key(c', i', d')) <==> OwnerBefore(c, i, d, c', i', d')
  {
    BeforeTotal(Key(c, i, d), Key(c', i', d'));
    if OwnerBefore(c, i, d, c', i', d') {
      OwnersOrder(c, i, d, c', i', d');
    } else if OwnerBefore(c', i', d', c, i, d) {
      OwnersOrder(c', i', d', c, i, d);
    }
  }
}
