/** Bounds and bookkeeping of the limiter over whole runs. */
module RateLimitProofs {
  import opened Prelude
  import opened RateLimitModel

  // ---------------------------------------------------------------- totals

  ghost function Total(m: map<Key, nat>): nat
    decreases |m|
  {
    if m == map[] then 0
    else
      var k :| k in m;
      var rest := m - {k};
      assert rest.Keys == m.Keys - {k};
      assert |rest| == |rest.Keys| && |m| == |m.Keys|;
      m[k] + Total(rest)
  }

  /** The sum does not depend on the order of adding up. */
  lemma {:induction false} TotalWithout(m: map<Key, nat>, k: Key)
    requires k in m
    ensures Total(m) == m[k] + Total(m - {k})
    decreases |m|
  {
    var j :| j in m && Total(m) == m[j] + Total(m - {j});
    var rest := m - {j};
    assert rest.Keys == m.Keys - {j};
    assert |rest| == |rest.Keys| && |m| == |m.Keys|;
    if j != k {
      TotalWithout(rest, k);
      var other := m - {k};
      assert other.Keys == m.Keys - {k};
      assert |other| == |other.Keys|;
      TotalWithout(other, j);
      assert rest - {k} == other - {j};
    }
  }

  lemma TotalAdded(m: map<Key, nat>, k: Key, n: nat)
    ensures Total(Added(m, k, n)) == Total(m) + n
  {
    var a := Added(m, k, n);
    TotalWithout(a, k);
    assert a - {k} == m - {k};
    if k in m {
      TotalWithout(m, k);
    } else {
      assert m - {k} == m;
    }
  }

  lemma CountWithinTotal(m: map<Key, nat>, k: Key)
    requires k in m
    ensures m[k] <= Total(m)
  {
    TotalWithout(m, k);
  }

  /** Recording a drop adds exactly one to the table, even through eviction, and never overfills it. */
  lemma RecordKeeps(m: map<Key, nat>, max: nat, k: Key)
    requires max > 0 && |m| <= max
    ensures Total(Record(m, max, k)) == Total(m) + 1
    ensures |Record(m, max, k)| <= max
  {
    if k in m || |m| < max {
      TotalAdded(m, k, 1);
      AddedSize(m, k, 1);
    } else {
      var overflow := Key(OverflowClass, k.reason, 0xFFFF, k.window);
      if overflow in m {
        TotalAdded(m, overflow, 1);
        AddedSize(m, overflow, 1);
      } else {
        var oldest := LeastKey(m.Keys);
        var rest := m - {oldest};
        assert rest.Keys == m.Keys - {oldest};
        assert |rest| == |rest.Keys| && |m| == |m.Keys|;
        TotalWithout(m, oldest);
        TotalAdded(rest, overflow, m[oldest]);
        TotalAdded(Added(rest, overflow, m[oldest]), overflow, 1);
        AddedSize(rest, overflow, m[oldest]);
        AddedSize(Added(rest, overflow, m[oldest]), overflow, 1);
      }
    }
  }

  lemma AddedSize(m: map<Key, nat>, k: Key, n: nat)
    ensures |Added(m, k, n)| == |m| + (if k in m then 0 else 1)
  {
    var a := Added(m, k, n);
    assert a.Keys == m.Keys + {k};
    assert |a| == |a.Keys| && |m| == |m.Keys|;
  }

  // ---------------------------------------------------------------- handing out

  function Counts(list: seq<DropAggregate>): nat {
    if list == [] then 0 else list[0].count + Counts(list[1..])
  }

  /** The list has one entry per key, and its counts add up to the table's. */
  lemma {:induction false} HandedOutAddsUp(c: Config, m: map<Key, nat>)
    ensures |HandedOut(c, m)| == |m| && Counts(HandedOut(c, m)) == Total(m)
    decreases |m|
  {
    if m != map[] {
      var k := LeastKey(m.Keys);
      var rest := m - {k};
      assert rest.Keys == m.Keys - {k};
      assert |rest| == |rest.Keys| && |m| == |m.Keys|;
      HandedOutAddsUp(c, rest);
      TotalWithout(m, k);
      assert HandedOut(c, m)[1..] == HandedOut(c, rest);
    }
  }

  /** The keys in the order of the list. */
  function KeyOrder(m: map<Key, nat>): seq<Key>
    decreases |m|
  {
    if m == map[] then []
    else
      var k := LeastKey(m.Keys);
      var rest := m - {k};
      assert rest.Keys == m.Keys - {k};
      assert |rest| == |rest.Keys| && |m| == |m.Keys|;
      [k] + KeyOrder(rest)
  }

  lemma {:induction false} KeyOrderHas(m: map<Key, nat>)
    ensures forall k :: k in KeyOrder(m) <==> k in m
    decreases |m|
  {
    if m != map[] {
      var k := LeastKey(m.Keys);
      var rest := m - {k};
      assert rest.Keys == m.Keys - {k};
      assert |rest| == |rest.Keys| && |m| == |m.Keys|;
      KeyOrderHas(rest);
    }
  }

  lemma {:induction false} KeyOrderRises(m: map<Key, nat>)
    ensures forall i, j :: 0 <= i < j < |KeyOrder(m)| ==> KeyLess(KeyOrder(m)[i], KeyOrder(m)[j])
    decreases |m|
  {
    if m != map[] {
      var k := LeastKey(m.Keys);
      var rest := m - {k};
      assert rest.Keys == m.Keys - {k};
      assert |rest| == |rest.Keys| && |m| == |m.Keys|;
      KeyOrderRises(rest);
      KeyOrderHas(rest);
      var others := KeyOrder(rest);
      forall j | 0 <= j < |others|
        ensures KeyLess(k, others[j])
      {
        assert others[j] in others;
        assert others[j] in m.Keys;
      }
    }
  }

  /** Entry by entry the list is the table, in key order. */
  lemma {:induction false} HandedOutIs(c: Config, m: map<Key, nat>)
    ensures |KeyOrder(m)| == |HandedOut(c, m)|
    ensures forall i :: 0 <= i < |KeyOrder(m)| ==>
      KeyOrder(m)[i] in m && HandedOut(c, m)[i] == Aggregate(c, KeyOrder(m)[i], m[KeyOrder(m)[i]])
    decreases |m|
  {
    if m != map[] {
      var k := LeastKey(m.Keys);
      var rest := m - {k};
      assert rest.Keys == m.Keys - {k};
      assert |rest| == |rest.Keys| && |m| == |m.Keys|;
      HandedOutIs(c, rest);
      forall i | 0 <= i < |KeyOrder(m)|
        ensures KeyOrder(m)[i] in m && HandedOut(c, m)[i] == Aggregate(c, KeyOrder(m)[i], m[KeyOrder(m)[i]])
      {
        if i > 0 { assert KeyOrder(rest)[i - 1] in rest; }
      }
    }
  }

  /** An aggregate is handed out with its own class, reason, bucket and count, and the span of its window. */
  lemma AggregateTells(c: Config, k: Key, count: nat)
    requires ValidConfig(c)
    ensures var a := Aggregate(c, k, count);
      && a.kind == k.kind && a.reason == k.reason && a.bucket == k.bucket && a.count == count
      && (k.window * c.windowMilliseconds + c.windowMilliseconds - 1 <= U64_MAX ==>
            a.start == k.window * c.windowMilliseconds && a.end == a.start + c.windowMilliseconds - 1)
      && (k.window * c.windowMilliseconds > U64_MAX ==> a.start == U64_MAX && a.end == U64_MAX)
  {
  }

  /** Keys are handed out by class, then reason, then bucket, then window. */
  lemma KeysAscend(a: Key, b: Key)
    ensures a.kind == b.kind && a.reason == b.reason ==>
      (KeyLess(a, b) <==> a.bucket < b.bucket || (a.bucket == b.bucket && a.window < b.window))
    ensures a.kind == b.kind && a.reason != b.reason ==>
      (KeyLess(a, b) <==>
         || a.reason == Rate || b.reason == Concurrency || (a.reason == Oversize && b.reason == Malformed))
    ensures a.kind != b.kind ==>
      (KeyLess(a, b) <==>
         || a.kind == LoginClass || b.kind == OverflowClass || (a.kind == ProbeClass && b.kind == AuthenticatedClass))
  {
  }

  /** What a configuration must give: something of everything, and no more shards than a bucket number can tell. */
  lemma ConfigExact(c: Config)
    ensures ValidConfig(c) <==>
      && c.windowMilliseconds != 0 && c.globalAttempts != 0 && c.loginAttempts != 0 && c.probeAttempts != 0
      && c.identityAttempts != 0 && c.maxAggregates != 0
      && 1 <= c.sourceShards <= 65_535 && 1 <= c.identityShards <= 65_535
  {
  }

  // ---------------------------------------------------------------- bookkeeping over runs

  /** The limiter, the drops recorded so far and the counts handed out so far. */
  datatype Books = Books(limiter: Limiter, drops: nat, taken: nat)

  predicate DropsAt(c: Config, l: Limiter, s: Step)
    requires ValidConfig(c) && Shaped(c, l) && InRange(c, s)
  {
    s.Drop? || !Next(c, l, s).1
  }

  ghost function Booked(c: Config, b: Books, s: Step): Books
    requires ValidConfig(c) && Shaped(c, b.limiter) && InRange(c, s)
  {
    Books(Next(c, b.limiter, s).0,
          b.drops + (if DropsAt(c, b.limiter, s) then 1 else 0),
          b.taken + (if s.Take? then Total(b.limiter.aggregates) else 0))
  }

  ghost predicate Balanced(c: Config, b: Books) {
    && ValidConfig(c) && Shaped(c, b.limiter)
    && |b.limiter.aggregates| <= c.maxAggregates
    && Total(b.limiter.aggregates) + b.taken == b.drops
  }

  /** The key a step records its drop under, where it drops one. */
  function DropKey(c: Config, s: Step): Key
    requires ValidConfig(c) && !s.Take?
  {
    match s
    case Unauthenticated(login, bucket, now) =>
      Key(if login then LoginClass else ProbeClass, Rate, bucket, WindowOf(c, now))
    case Authenticated(bucket, now) => Key(AuthenticatedClass, Rate, bucket, WindowOf(c, now))
    case Drop(kind, reason, bucket, now) => Key(kind, reason, bucket, WindowOf(c, now))
  }

  lemma StepShape(c: Config, l: Limiter, s: Step)
    requires ValidConfig(c) && Shaped(c, l) && InRange(c, s)
    ensures var t := Next(c, l, s).0;
      && Shaped(c, t)
      && t.aggregates == if s.Take? then map[]
                         else if DropsAt(c, l, s) then Record(l.aggregates, c.maxAggregates, DropKey(c, s))
                         else l.aggregates
  {
  }

  lemma StepBalances(c: Config, b: Books, s: Step)
    requires Balanced(c, b) && InRange(c, s)
    ensures Balanced(c, Booked(c, b, s))
  {
    StepShape(c, b.limiter, s);
    if !s.Take? {
      RecordKeeps(b.limiter.aggregates, c.maxAggregates, DropKey(c, s));
    }
  }

  ghost predicate AllInRange(c: Config, steps: seq<Step>) {
    forall i :: 0 <= i < |steps| ==> InRange(c, steps[i])
  }

  ghost function RunBooks(c: Config, b: Books, steps: seq<Step>): Books
    requires Balanced(c, b) && AllInRange(c, steps)
    decreases |steps|
  {
    if steps == [] then b
    else
      StepBalances(c, b, steps[0]);
      RunBooks(c, Booked(c, b, steps[0]), steps[1..])
  }

  /**
    In every run the table never exceeds its limit, and counts held plus counts taken equal the
    drops recorded, through any eviction. In particular no count exceeds the number of drops, so
    none overflows before 2^64 of them.
   */
  lemma {:induction false} NothingIsLost(c: Config, b: Books, steps: seq<Step>)
    requires Balanced(c, b) && AllInRange(c, steps)
    ensures var r := RunBooks(c, b, steps);
      && |r.limiter.aggregates| <= c.maxAggregates
      && Total(r.limiter.aggregates) + r.taken == r.drops
      && (forall k :: k in r.limiter.aggregates ==> r.limiter.aggregates[k] <= r.drops)
      && r.drops <= b.drops + |steps|
    decreases |steps|
  {
    if steps == [] {
      forall k | k in b.limiter.aggregates
        ensures b.limiter.aggregates[k] <= b.drops
      {
        CountWithinTotal(b.limiter.aggregates, k);
      }
    } else {
      StepBalances(c, b, steps[0]);
      NothingIsLost(c, Booked(c, b, steps[0]), steps[1..]);
    }
  }

  // ---------------------------------------------------------------- counts per key

  ghost function CountOf(m: map<Key, nat>, k: Key): nat { if k in m then m[k] else 0 }

  /** The drop a step records finds its key, or room for it. */
  ghost predicate Fits(c: Config, l: Limiter, s: Step)
    requires ValidConfig(c) && Shaped(c, l) && InRange(c, s)
  {
    DropsAt(c, l, s) && !s.Take? ==> DropKey(c, s) in l.aggregates || |l.aggregates| < c.maxAggregates
  }

  ghost predicate AllFit(c: Config, l: Limiter, steps: seq<Step>)
    requires ValidConfig(c) && Shaped(c, l) && AllInRange(c, steps)
    decreases |steps|
  {
    steps == [] ||
    (StepShape(c, l, steps[0]);
     Fits(c, l, steps[0]) && AllFit(c, Next(c, l, steps[0]).0, steps[1..]))
  }

  /** Drops recorded under a key less the counts of it handed out. */
  ghost function Outstanding(c: Config, l: Limiter, steps: seq<Step>, k: Key): int
    requires ValidConfig(c) && Shaped(c, l) && AllInRange(c, steps)
    decreases |steps|
  {
    if steps == [] then 0
    else
      StepShape(c, l, steps[0]);
      (if steps[0].Take? then 0 - CountOf(l.aggregates, k)
       else if DropsAt(c, l, steps[0]) && DropKey(c, steps[0]) == k then 1 else 0)
      + Outstanding(c, Next(c, l, steps[0]).0, steps[1..], k)
  }

  function RunLimiter(c: Config, l: Limiter, steps: seq<Step>): (r: Limiter)
    requires ValidConfig(c) && Shaped(c, l) && AllInRange(c, steps)
    ensures Shaped(c, r)
    decreases |steps|
  {
    if steps == [] then l
    else
      StepShape(c, l, steps[0]);
      RunLimiter(c, Next(c, l, steps[0]).0, steps[1..])
  }

  /** While nothing is evicted each key holds exactly its own drops, less those handed out. */
  lemma {:induction false} KeysCountTheirOwn(c: Config, l: Limiter, steps: seq<Step>, k: Key)
    requires ValidConfig(c) && Shaped(c, l) && AllInRange(c, steps) && AllFit(c, l, steps)
    ensures CountOf(RunLimiter(c, l, steps).aggregates, k) == CountOf(l.aggregates, k) + Outstanding(c, l, steps, k)
    decreases |steps|
  {
    if steps != [] {
      StepShape(c, l, steps[0]);
      KeysCountTheirOwn(c, Next(c, l, steps[0]).0, steps[1..], k);
    }
  }

  /** Eviction can only take from a key that was itself dropped under: such a key never holds more than its drops. */
  lemma RecordNeverOvercounts(m: map<Key, nat>, max: nat, recorded: Key, k: Key)
    requires k.kind != OverflowClass
    ensures CountOf(Record(m, max, recorded), k) <= CountOf(m, k) + (if recorded == k then 1 else 0)
  {
  }

  /** Through any eviction, a key of a request class holds at most its own drops, less those handed out. */
  lemma {:induction false} KeysNeverOvercount(c: Config, l: Limiter, steps: seq<Step>, k: Key)
    requires ValidConfig(c) && Shaped(c, l) && AllInRange(c, steps) && k.kind != OverflowClass
    ensures CountOf(RunLimiter(c, l, steps).aggregates, k) <= CountOf(l.aggregates, k) + Outstanding(c, l, steps, k)
    decreases |steps|
  {
    if steps != [] {
      StepShape(c, l, steps[0]);
      if !steps[0].Take? { RecordNeverOvercounts(l.aggregates, c.maxAggregates, DropKey(c, steps[0]), k); }
      KeysNeverOvercount(c, Next(c, l, steps[0]).0, steps[1..], k);
    }
  }

  lemma FreshBooks(c: Config)
    requires ValidConfig(c)
    ensures Balanced(c, Books(NewLimiter(c), 0, 0))
  {
  }

  /** From a new limiter: every drop of the run is held or has been handed out, once. */
  lemma DropsAreAccountedFor(c: Config, steps: seq<Step>)
    requires ValidConfig(c) && AllInRange(c, steps)
    ensures Balanced(c, Books(NewLimiter(c), 0, 0))
    ensures var r := RunBooks(c, Books(NewLimiter(c), 0, 0), steps);
      && |r.limiter.aggregates| <= c.maxAggregates
      && Total(r.limiter.aggregates) + r.taken == r.drops <= |steps|
  {
    FreshBooks(c);
    NothingIsLost(c, Books(NewLimiter(c), 0, 0), steps);
  }

  // ---------------------------------------------------------------- budgets

  predicate SlotExists(c: Config, slot: Slot) {
    match slot
    case GlobalSlot => true
    case LoginSlot(i) => i < c.sourceShards
    case ProbeSlot(i) => i < c.sourceShards
    case IdentitySlot(i) => i < c.identityShards
  }

  function BucketAt(c: Config, l: Limiter, slot: Slot): Bucket
    requires Shaped(c, l) && SlotExists(c, slot)
  {
    match slot
    case GlobalSlot => l.global
    case LoginSlot(i) => l.login[i]
    case ProbeSlot(i) => l.probe[i]
    case IdentitySlot(i) => l.identity[i]
  }

  function Allowance(c: Config, slot: Slot): u32 {
    match slot
    case GlobalSlot => c.globalAttempts
    case LoginSlot(_) => c.loginAttempts
    case ProbeSlot(_) => c.probeAttempts
    case IdentitySlot(_) => c.identityAttempts
  }

  /** The slots a request must find room in: all of them, or it is refused. */
  predicate Needs(s: Step, slot: Slot) {
    match slot
    case GlobalSlot => s.Unauthenticated?
    case LoginSlot(i) => s.Unauthenticated? && s.login && s.bucket == i
    case ProbeSlot(i) => s.Unauthenticated? && !s.login && s.bucket == i
    case IdentitySlot(i) => s.Authenticated? && s.bucket == i
  }

  /** The step took one unit of the slot's budget. */
  predicate Spends(c: Config, l: Limiter, s: Step, slot: Slot)
    requires ValidConfig(c) && Shaped(c, l) && InRange(c, s) && SlotExists(c, slot)
  {
    && Needs(s, slot)
    && (slot.GlobalSlot? || Next(c, l, s).1)
    && Consume(BucketAt(c, l, slot), WindowOf(c, s.now), Allowance(c, slot)).1
  }

  /** A request let through has spent from every slot it needs. */
  lemma AdmittedSpends(c: Config, l: Limiter, s: Step, slot: Slot)
    requires ValidConfig(c) && Shaped(c, l) && InRange(c, s) && SlotExists(c, slot)
    requires Needs(s, slot) && Next(c, l, s).1
    ensures Spends(c, l, s, slot)
  {
  }

  /** How a step moves one bucket: left alone, refreshed, or charged one unit below its allowance. */
  lemma SlotMoves(c: Config, l: Limiter, s: Step, slot: Slot)
    requires ValidConfig(c) && Shaped(c, l) && InRange(c, s) && SlotExists(c, slot)
    ensures var b, t := BucketAt(c, l, slot), BucketAt(c, Next(c, l, s).0, slot);
      && Shaped(c, Next(c, l, s).0)
      && (Spends(c, l, s, slot) ==>
            var r := Refreshed(b, WindowOf(c, s.now)); r.used < Allowance(c, slot) && t == r.(used := r.used + 1))
      && (!Spends(c, l, s, slot) ==> t == b || (Needs(s, slot) && t == Refreshed(b, WindowOf(c, s.now))))
  {
  }

  /** The requests that need the slot arrive in windows that never fall; within a window in any order. */
  predicate Ordered(c: Config, steps: seq<Step>, slot: Slot, window: nat)
    requires ValidConfig(c)
    decreases |steps|
  {
    || steps == []
    || (if Needs(steps[0], slot)
        then window <= WindowOf(c, steps[0].now) && Ordered(c, steps[1..], slot, WindowOf(c, steps[0].now))
        else Ordered(c, steps[1..], slot, window))
  }

  /** How many steps of a run spent from the slot at a time in `[from, to]`. */
  ghost function Spent(c: Config, l: Limiter, steps: seq<Step>, slot: Slot, from: nat, to: nat): nat
    requires ValidConfig(c) && Shaped(c, l) && AllInRange(c, steps) && SlotExists(c, slot)
    decreases |steps|
  {
    if steps == [] then 0
    else
      SlotMoves(c, l, steps[0], slot);
      (if Spends(c, l, steps[0], slot) && from <= steps[0].now <= to then 1 else 0)
      + Spent(c, Next(c, l, steps[0]).0, steps[1..], slot, from, to)
  }

  /** What a bucket can still grant in window `x`, once times have reached its own window. */
  function Room(b: Bucket, allowance: u32, x: nat): nat {
    if x < b.window then 0 else if x == b.window then SaturatingSub(allowance, b.used) else allowance
  }

  lemma RoomFalls(b: Bucket, allowance: u32, window: u64, x: nat)
    requires b.window <= window
    ensures Room(Refreshed(b, window), allowance, x) <= Room(b, allowance, x)
    ensures x == window ==> Room(Refreshed(b, window), allowance, x) == Room(b, allowance, x)
  {
  }

  lemma InWindow(c: Config, now: u64, x: nat)
    requires ValidConfig(c)
    ensures (WindowOf(c, now) == x) <==> x * c.windowMilliseconds <= now <= x * c.windowMilliseconds + c.windowMilliseconds - 1
  {
    DivBounds(now, c.windowMilliseconds);
    if x * c.windowMilliseconds <= now <= x * c.windowMilliseconds + c.windowMilliseconds - 1 {
      DivIs(now, c.windowMilliseconds, x);
    }
  }

  ghost function SpentInWindow(c: Config, l: Limiter, steps: seq<Step>, slot: Slot, x: nat): nat
    requires ValidConfig(c) && Shaped(c, l) && AllInRange(c, steps) && SlotExists(c, slot)
  {
    Spent(c, l, steps, slot, x * c.windowMilliseconds, x * c.windowMilliseconds + c.windowMilliseconds - 1)
  }

  lemma {:induction false} WithinRoom(
    c: Config, l: Limiter, steps: seq<Step>, slot: Slot, window: nat, x: nat)
    requires ValidConfig(c) && Shaped(c, l) && AllInRange(c, steps) && SlotExists(c, slot)
    requires Ordered(c, steps, slot, window) && BucketAt(c, l, slot).window <= window
    ensures SpentInWindow(c, l, steps, slot, x) <= Room(BucketAt(c, l, slot), Allowance(c, slot), x)
    decreases |steps|
  {
    if steps != [] {
      var s, b, a := steps[0], BucketAt(c, l, slot), Allowance(c, slot);
      SlotMoves(c, l, s, slot);
      var next := Next(c, l, s).0;
      if Needs(s, slot) {
        RoomFalls(b, a, WindowOf(c, s.now), x);
        InWindow(c, s.now, x);
        WithinRoom(c, next, steps[1..], slot, WindowOf(c, s.now), x);
      } else {
        WithinRoom(c, next, steps[1..], slot, window, x);
      }
    }
  }

  /** A slot whose requests come in windows that never fall spends at most its allowance in each. */
  lemma WindowBudget(c: Config, steps: seq<Step>, slot: Slot, x: nat)
    requires ValidConfig(c) && AllInRange(c, steps) && SlotExists(c, slot) && Ordered(c, steps, slot, 0)
    ensures SpentInWindow(c, NewLimiter(c), steps, slot, x) <= Allowance(c, slot)
  {
    WithinRoom(c, NewLimiter(c), steps, slot, 0, x);
  }

  lemma {:induction false} SpentSplits(
    c: Config, l: Limiter, steps: seq<Step>, slot: Slot, from: nat, to: nat, low: nat, middle: nat, high: nat)
    requires ValidConfig(c) && Shaped(c, l) && AllInRange(c, steps) && SlotExists(c, slot)
    requires low <= from && to <= high
    ensures Spent(c, l, steps, slot, from, to)
         <= Spent(c, l, steps, slot, low, middle) + Spent(c, l, steps, slot, middle + 1, high)
    decreases |steps|
  {
    if steps != [] {
      SlotMoves(c, l, steps[0], slot);
      SpentSplits(c, Next(c, l, steps[0]).0, steps[1..], slot, from, to, low, middle, high);
    }
  }

  /** Over any interval one window long, wherever it starts, at most twice the allowance. */
  lemma IntervalBudget(c: Config, steps: seq<Step>, slot: Slot, from: nat)
    requires ValidConfig(c) && AllInRange(c, steps) && SlotExists(c, slot) && Ordered(c, steps, slot, 0)
    ensures Spent(c, NewLimiter(c), steps, slot, from, from + c.windowMilliseconds) <= 2 * Allowance(c, slot)
  {
    var w := c.windowMilliseconds;
    var k := from / w;
    DivBounds(from, w);
    var low, middle, high := k * w, k * w + w - 1, (k + 1) * w + w - 1;
    assert (k + 1) * w == middle + 1;
    SpentSplits(c, NewLimiter(c), steps, slot, from, from + w, low, middle, high);
    WindowBudget(c, steps, slot, k);
    WindowBudget(c, steps, slot, k + 1);
  }

  // ---------------------------------------------------------------- requests in any order

  /** The step takes the slot into window `x` from another one. */
  predicate Enters(c: Config, l: Limiter, s: Step, slot: Slot, x: nat)
    requires ValidConfig(c) && Shaped(c, l) && InRange(c, s) && SlotExists(c, slot) && Shaped(c, Next(c, l, s).0)
  {
    BucketAt(c, l, slot).window != x && BucketAt(c, Next(c, l, s).0, slot).window == x
  }

  ghost function Entries(c: Config, l: Limiter, steps: seq<Step>, slot: Slot, x: nat): nat
    requires ValidConfig(c) && Shaped(c, l) && AllInRange(c, steps) && SlotExists(c, slot)
    decreases |steps|
  {
    if steps == [] then 0
    else
      SlotMoves(c, l, steps[0], slot);
      (if Enters(c, l, steps[0], slot, x) then 1 else 0) + Entries(c, Next(c, l, steps[0]).0, steps[1..], slot, x)
  }

  /** What a bucket can grant in window `x` before it leaves it. */
  function Left(b: Bucket, allowance: u32, x: nat): nat {
    if b.window == x then SaturatingSub(allowance, b.used) else 0
  }

  lemma Distributes(a: nat, n: nat)
    ensures a * (n + 1) == a * n + a
  {
  }

  /** One step in front of a run that is within its bound, `rest` being the bound of that run. */
  lemma RefillStep(c: Config, l: Limiter, s: Step, slot: Slot, x: nat, rest: nat)
    requires ValidConfig(c) && Shaped(c, l) && InRange(c, s) && SlotExists(c, slot) && Shaped(c, Next(c, l, s).0)
    ensures var b, t, a := BucketAt(c, l, slot), BucketAt(c, Next(c, l, s).0, slot), Allowance(c, slot);
      (if Spends(c, l, s, slot) && WindowOf(c, s.now) == x then 1 else 0) + Left(t, a, x) + rest
      <= Left(b, a, x) + rest + (if Enters(c, l, s, slot, x) then a else 0)
  {
    SlotMoves(c, l, s, slot);
  }

  /** `n` allowances. */
  function Grants(allowance: nat, n: nat): nat {
    if n == 0 then 0 else allowance + Grants(allowance, n - 1)
  }

  lemma {:induction false} GrantsIs(allowance: nat, n: nat)
    ensures Grants(allowance, n) == allowance * n
  {
    if n > 0 {
      GrantsIs(allowance, n - 1);
      Distributes(allowance, n - 1);
    }
  }

  lemma {:induction false} RefillBound(c: Config, l: Limiter, steps: seq<Step>, slot: Slot, x: nat)
    requires ValidConfig(c) && Shaped(c, l) && AllInRange(c, steps) && SlotExists(c, slot)
    ensures SpentInWindow(c, l, steps, slot, x)
         <= Left(BucketAt(c, l, slot), Allowance(c, slot), x) + Grants(Allowance(c, slot), Entries(c, l, steps, slot, x))
    decreases |steps|
  {
    if steps != [] {
      var s := steps[0];
      SlotMoves(c, l, s, slot);
      var next := Next(c, l, s).0;
      RefillBound(c, next, steps[1..], slot, x);
      if Needs(s, slot) { InWindow(c, s.now, x); }
      RefillStep(c, l, s, slot, x, Grants(Allowance(c, slot), Entries(c, next, steps[1..], slot, x)));
    }
  }

  /**
    In every run, in whatever order requests come, a slot spends in a window at most its allowance
    for each time it enters it. Window 0, where a new limiter starts, counts once more.
   */
  lemma EntriesBound(c: Config, steps: seq<Step>, slot: Slot, x: nat)
    requires ValidConfig(c) && AllInRange(c, steps) && SlotExists(c, slot)
    ensures SpentInWindow(c, NewLimiter(c), steps, slot, x)
         <= Allowance(c, slot) * (Entries(c, NewLimiter(c), steps, slot, x) + (if x == 0 then 1 else 0))
  {
    var n := Entries(c, NewLimiter(c), steps, slot, x);
    RefillBound(c, NewLimiter(c), steps, slot, x);
    GrantsIs(Allowance(c, slot), n);
    Distributes(Allowance(c, slot), n);
  }

  /** Ordered requests enter each window at most once. */
  lemma {:induction false} OrderedEntersOnce(c: Config, l: Limiter, steps: seq<Step>, slot: Slot, window: nat, x: nat)
    requires ValidConfig(c) && Shaped(c, l) && AllInRange(c, steps) && SlotExists(c, slot)
    requires Ordered(c, steps, slot, window) && BucketAt(c, l, slot).window <= window
    ensures Entries(c, l, steps, slot, x) <= (if x > BucketAt(c, l, slot).window then 1 else 0)
    decreases |steps|
  {
    if steps != [] {
      SlotMoves(c, l, steps[0], slot);
      OrderedEntersOnce(c, Next(c, l, steps[0]).0, steps[1..], slot,
                        if Needs(steps[0], slot) then WindowOf(c, steps[0].now) else window, x);
    }
  }

  /** The bound is met: three requests that enter window 1 twice spend its allowance twice. */
  lemma OutOfOrderTimesRefill()
    ensures var c := Config(1, 9, 1, 1, 1, 1, 1, 1);
      var steps := [Authenticated(0, 1), Authenticated(0, 0), Authenticated(0, 1)];
      && ValidConfig(c) && AllInRange(c, steps)
      && Entries(c, NewLimiter(c), steps, IdentitySlot(0), 1) == 2
      && SpentInWindow(c, NewLimiter(c), steps, IdentitySlot(0), 1) == 2 * Allowance(c, IdentitySlot(0))
  {
    var c := Config(1, 9, 1, 1, 1, 1, 1, 1);
    var s0, s1, s2 := Authenticated(0, 1), Authenticated(0, 0), Authenticated(0, 1);
    var steps := [s0, s1, s2];
    var slot := IdentitySlot(0);
    var l0 := NewLimiter(c);
    var l1 := Next(c, l0, s0).0;
    var l2 := Next(c, l1, s1).0;
    var l3 := Next(c, l2, s2).0;
    assert steps[1..] == [s1, s2] && [s1, s2][1..] == [s2] && [s2][1..] == [];
    assert l1.identity[0] == Bucket(1, 1);
    assert l2.identity[0] == Bucket(0, 1);
    assert l3.identity[0] == Bucket(1, 1);
    assert Spent(c, l3, [], slot, 1, 1) == 0 && Entries(c, l3, [], slot, 1) == 0;
    assert Spent(c, l2, [s2], slot, 1, 1) == 1 && Entries(c, l2, [s2], slot, 1) == 1;
    assert Spent(c, l1, [s1, s2], slot, 1, 1) == 1 && Entries(c, l1, [s1, s2], slot, 1) == 1;
  }

  // ---------------------------------------------------------------- exactly when a request passes

  ghost predicate NoLaterThan(c: Config, steps: seq<Step>, slot: Slot, window: nat)
    requires ValidConfig(c)
  {
    forall i :: 0 <= i < |steps| && Needs(steps[i], slot) ==> WindowOf(c, steps[i].now) <= window
  }

  /** A bucket's use count is what was spent in its window. */
  lemma {:induction false} UsedIsSpent(
    c: Config, l: Limiter, steps: seq<Step>, slot: Slot, earliest: nat, window: u64)
    requires ValidConfig(c) && Shaped(c, l) && AllInRange(c, steps) && SlotExists(c, slot)
    requires Ordered(c, steps, slot, earliest) && BucketAt(c, l, slot).window <= earliest
    requires NoLaterThan(c, steps, slot, window)
    ensures Refreshed(BucketAt(c, RunLimiter(c, l, steps), slot), window).used
         == Refreshed(BucketAt(c, l, slot), window).used + SpentInWindow(c, l, steps, slot, window)
    decreases |steps|
  {
    if steps != [] {
      var s := steps[0];
      SlotMoves(c, l, s, slot);
      var next := Next(c, l, s).0;
      if Needs(s, slot) {
        InWindow(c, s.now, window);
        UsedIsSpent(c, next, steps[1..], slot, WindowOf(c, s.now), window);
      } else {
        UsedIsSpent(c, next, steps[1..], slot, earliest, window);
      }
    }
  }

  lemma PassesWhenAllHaveRoom(c: Config, l: Limiter, s: Step)
    requires ValidConfig(c) && Shaped(c, l) && InRange(c, s) && (s.Unauthenticated? || s.Authenticated?)
    ensures Next(c, l, s).1 <==>
      forall slot :: SlotExists(c, slot) && Needs(s, slot) ==>
        Refreshed(BucketAt(c, l, slot), WindowOf(c, s.now)).used < Allowance(c, slot)
  {
    if s.Unauthenticated? {
      var shard := if s.login then LoginSlot(s.bucket) else ProbeSlot(s.bucket);
      assert Needs(s, GlobalSlot) && Needs(s, shard);
    } else {
      assert Needs(s, IdentitySlot(s.bucket));
    }
  }

  /**
    After any run in which the requests to each bucket it needs came in windows that never fall, up
    to its own, a request is let through exactly when each of those buckets has spent less than its
    allowance in the request's window.
   */
  lemma AdmittedExactly(c: Config, steps: seq<Step>, s: Step)
    requires ValidConfig(c) && AllInRange(c, steps)
    requires InRange(c, s) && (s.Unauthenticated? || s.Authenticated?)
    requires forall slot :: SlotExists(c, slot) && Needs(s, slot) ==>
      Ordered(c, steps, slot, 0) && NoLaterThan(c, steps, slot, WindowOf(c, s.now))
    ensures Next(c, RunLimiter(c, NewLimiter(c), steps), s).1 <==>
      forall slot :: SlotExists(c, slot) && Needs(s, slot) ==>
        SpentInWindow(c, NewLimiter(c), steps, slot, WindowOf(c, s.now)) < Allowance(c, slot)
  {
    var l, window := RunLimiter(c, NewLimiter(c), steps), WindowOf(c, s.now);
    PassesWhenAllHaveRoom(c, l, s);
    forall slot | SlotExists(c, slot) && Needs(s, slot)
      ensures Refreshed(BucketAt(c, l, slot), window).used
           == SpentInWindow(c, NewLimiter(c), steps, slot, window)
    {
      UsedIsSpent(c, NewLimiter(c), steps, slot, 0, window);
    }
  }
}
