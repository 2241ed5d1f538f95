/** The fixed-memory rate limiter as a value. A caller's hash bucket is a parameter of the step. */
module RateLimitModel {
  import opened Prelude

  datatype Class = LoginClass | ProbeClass | AuthenticatedClass | OverflowClass

  datatype Reason = Rate | Oversize | Malformed | Concurrency

  datatype Key = Key(kind: Class, reason: Reason, bucket: u16, window: u64)

  datatype Bucket = Bucket(window: u64, used: u32)

  datatype Config = Config(
    windowMilliseconds: u64,
    globalAttempts: u32,
    loginAttempts: u32,
    probeAttempts: u32,
    identityAttempts: u32,
    sourceShards: nat,
    identityShards: nat,
    maxAggregates: nat)

  predicate ValidConfig(c: Config) {
    && c.windowMilliseconds > 0 && c.globalAttempts > 0 && c.loginAttempts > 0
    && c.probeAttempts > 0 && c.identityAttempts > 0
    && 0 < c.sourceShards <= 0xFFFF && 0 < c.identityShards <= 0xFFFF && c.maxAggregates > 0
  }

  /** Counts are unbounded here; none exceeds the number of drops (`RateLimitProofs.NothingIsLost`). */
  datatype Limiter = Limiter(
    global: Bucket, login: seq<Bucket>, probe: seq<Bucket>, identity: seq<Bucket>, aggregates: map<Key, nat>)

  predicate Shaped(c: Config, l: Limiter) {
    |l.login| == c.sourceShards && |l.probe| == c.sourceShards && |l.identity| == c.identityShards
  }

  function NewLimiter(c: Config): Limiter {
    var blank := Bucket(0, 0);
    Limiter(blank, seq(c.sourceShards, _ => blank), seq(c.sourceShards, _ => blank),
            seq(c.identityShards, _ => blank), map[])
  }

  // ---------------------------------------------------------------- buckets

  function Refreshed(b: Bucket, window: u64): Bucket {
    if b.window != window then Bucket(window, 0) else b
  }

  function Consume(b: Bucket, window: u64, allowance: u32): (Bucket, bool) {
    var current := Refreshed(b, window);
    if current.used >= allowance then (current, false) else (current.(used := current.used + 1), true)
  }

  // ---------------------------------------------------------------- drop aggregates

  function ClassRank(c: Class): nat {
    match c
    case LoginClass => 0
    case ProbeClass => 1
    case AuthenticatedClass => 2
    case OverflowClass => 3
  }

  function ReasonRank(r: Reason): nat {
    match r
    case Rate => 0
    case Oversize => 1
    case Malformed => 2
    case Concurrency => 3
  }

  /** The derived field-by-field order of keys. */
  predicate KeyLess(a: Key, b: Key) {
    || ClassRank(a.kind) < ClassRank(b.kind)
    || (a.kind == b.kind
        && (|| ReasonRank(a.reason) < ReasonRank(b.reason)
            || (a.reason == b.reason
                && (a.bucket < b.bucket || (a.bucket == b.bucket && a.window < b.window)))))
  }

  lemma KeyTrichotomy(a: Key, b: Key)
    ensures a == b || KeyLess(a, b) || KeyLess(b, a)
    ensures !(KeyLess(a, b) && KeyLess(b, a))
  {
  }

  predicate IsLeastKey(keys: set<Key>, k: Key) {
    k in keys && forall other :: other in keys ==> other == k || KeyLess(k, other)
  }

  lemma {:induction false} LeastKeyExists(keys: set<Key>)
    requires keys != {}
    ensures exists k :: IsLeastKey(keys, k)
    decreases |keys|
  {
    var x :| x in keys;
    var rest := keys - {x};
    if rest == {} {
      assert keys == {x};
      assert IsLeastKey(keys, x);
    } else {
      LeastKeyExists(rest);
      var y :| IsLeastKey(rest, y);
      var least := if KeyLess(x, y) then x else y;
      forall other | other in keys
        ensures other == least || KeyLess(least, other)
      {
        assert other == x || other in rest;
        KeyTrichotomy(x, y);
      }
      assert IsLeastKey(keys, least);
    }
  }

  function LeastKey(keys: set<Key>): (k: Key)
    requires keys != {}
    ensures IsLeastKey(keys, k)
  {
    LeastKeyExists(keys);
    forall a, b | IsLeastKey(keys, a) && IsLeastKey(keys, b)
      ensures a == b
    {
      KeyTrichotomy(a, b);
    }
    var k :| IsLeastKey(keys, k);
    k
  }

  /** `*entry(key).or_insert(0) += n` */
  function Added(m: map<Key, nat>, k: Key, n: nat): map<Key, nat> {
    m[k := (if k in m then m[k] else 0) + n]
  }

  /** Record one drop; a full table gives up its least entry to the window's overflow entry. */
  function Record(m: map<Key, nat>, max: nat, k: Key): map<Key, nat> {
    if k in m || |m| < max then Added(m, k, 1)
    else
      var overflow := Key(OverflowClass, k.reason, 0xFFFF, k.window);
      if overflow in m || m == map[] then Added(m, overflow, 1)
      else
        var oldest := LeastKey(m.Keys);
        Added(Added(m - {oldest}, overflow, m[oldest]), overflow, 1)
  }

  // ---------------------------------------------------------------- steps

  datatype Slot = GlobalSlot | LoginSlot(index: nat) | ProbeSlot(index: nat) | IdentitySlot(index: nat)

  datatype Step =
    | Unauthenticated(login: bool, bucket: u16, now: u64)
    | Authenticated(bucket: u16, now: u64)
    | Drop(kind: Class, reason: Reason, bucket: u16, now: u64)
    | Take

  predicate InRange(c: Config, s: Step) {
    && (s.Unauthenticated? ==> s.bucket < c.sourceShards)
    && (s.Authenticated? ==> s.bucket < c.identityShards)
  }

  function WindowOf(c: Config, now: u64): u64
    requires ValidConfig(c)
  {
    DivSmaller(now, c.windowMilliseconds);
    now / c.windowMilliseconds
  }

  lemma MulGrows(x: nat, y: nat, w: nat)
    requires x <= y
    ensures x * w <= y * w
    ensures x < y ==> x * w + w <= y * w
  {
    assert y * w == x * w + (y - x) * w;
    if x < y { assert (y - x) * w == w + (y - x - 1) * w; }
  }

  lemma DivBounds(a: nat, w: nat)
    requires w > 0
    ensures (a / w) * w <= a < (a / w) * w + w
  {
  }

  lemma DivIs(a: nat, w: nat, q: nat)
    requires w > 0 && q * w <= a < q * w + w
    ensures a / w == q
  {
    DivBounds(a, w);
    if a / w <= q { MulGrows(a / w, q, w); } else { MulGrows(q, a / w, w); }
  }

  lemma DivSmaller(a: nat, w: nat)
    requires w > 0
    ensures 0 <= a / w <= a
  {
    DivBounds(a, w);
    MulGrows(1, w, a / w);
    assert (a / w) * w == w * (a / w) && 1 * (a / w) == a / w;
  }

  function Recorded(c: Config, l: Limiter, k: Key): Limiter {
    l.(aggregates := Record(l.aggregates, c.maxAggregates, k))
  }

  /** The limiter after a step, and whether it let the caller through. */
  function Next(c: Config, l: Limiter, s: Step): (Limiter, bool)
    requires ValidConfig(c) && Shaped(c, l) && InRange(c, s)
  {
    match s
    case Unauthenticated(login, bucket, now) =>
      var window := WindowOf(c, now);
      var key := Key(if login then LoginClass else ProbeClass, Rate, bucket, window);
      var (global, passed) := Consume(l.global, window, c.globalAttempts);
      var l1 := l.(global := global);
      if !passed then (Recorded(c, l1, key), false)
      else if login then
        var (shard, ok) := Consume(l1.login[bucket], window, c.loginAttempts);
        var l2 := l1.(login := l1.login[bucket := shard]);
        (if ok then l2 else Recorded(c, l2, key), ok)
      else
        var (shard, ok) := Consume(l1.probe[bucket], window, c.probeAttempts);
        var l2 := l1.(probe := l1.probe[bucket := shard]);
        (if ok then l2 else Recorded(c, l2, key), ok)
    case Authenticated(bucket, now) =>
      var window := WindowOf(c, now);
      var (shard, ok) := Consume(l.identity[bucket], window, c.identityAttempts);
      var l1 := l.(identity := l.identity[bucket := shard]);
      (if ok then l1 else Recorded(c, l1, Key(AuthenticatedClass, Rate, bucket, window)), ok)
    case Drop(kind, reason, bucket, now) =>
      (Recorded(c, l, Key(kind, reason, bucket, WindowOf(c, now))), true)
    case Take => (l.(aggregates := map[]), true)
  }

  // ---------------------------------------------------------------- handing out

  datatype DropAggregate = DropAggregate(
    kind: Class, reason: Reason, bucket: u16, count: nat, start: u64, end: u64)

  function Aggregate(c: Config, k: Key, count: nat): DropAggregate {
    var start := Min(k.window * c.windowMilliseconds, U64_MAX);
    DropAggregate(k.kind, k.reason, k.bucket, count, start,
                  SaturatingAdd(start, SaturatingSub(c.windowMilliseconds, 1)))
  }

  /** The table as a list, in key order. */
  function HandedOut(c: Config, m: map<Key, nat>): seq<DropAggregate>
    decreases |m|
  {
    if m == map[] then []
    else
      var k := LeastKey(m.Keys);
      var rest := m - {k};
      assert rest.Keys == m.Keys - {k};
      assert |rest| == |rest.Keys| && |m| == |m.Keys|;
      [Aggregate(c, k, m[k])] + HandedOut(c, rest)
  }
}
