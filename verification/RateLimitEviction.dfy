/** What eviction does to the drop table: which entry goes, and which drops an entry then counts. */
module RateLimitEviction {
  import opened Prelude
  import opened RateLimitModel
  import opened RateLimitProofs

  function OverflowFor(k: Key): Key { Key(OverflowClass, k.reason, 0xFFFF, k.window) }

  /** Recording under `k` takes an entry out of the table. */
  predicate Evicts(m: map<Key, nat>, max: nat, k: Key) {
    k !in m && |m| >= max && OverflowFor(k) !in m && m != map[]
  }

  // ---------------------------------------------------------------- which entry goes

  predicate PrefixLess(a: Key, b: Key) {
    || ClassRank(a.kind) < ClassRank(b.kind)
    || (a.kind == b.kind
        && (ReasonRank(a.reason) < ReasonRank(b.reason) || (a.reason == b.reason && a.bucket < b.bucket)))
  }

  predicate InEarliestWindow(keys: set<Key>, k: Key) {
    k in keys && forall j :: j in keys ==> k.window <= j.window
  }

  /**
    The entry evicted, the least key, is in the earliest window exactly when some entry of that
    window has the least class, reason and bucket of all.
   */
  lemma EvictsEarliestExactly(keys: set<Key>)
    requires keys != {}
    ensures InEarliestWindow(keys, LeastKey(keys)) <==>
      exists k :: InEarliestWindow(keys, k) && forall j :: j in keys ==> !PrefixLess(j, k)
  {
    var least := LeastKey(keys);
    if InEarliestWindow(keys, least) {
      assert forall j :: j in keys ==> !PrefixLess(j, least);
    }
    if k :| InEarliestWindow(keys, k) && forall j :: j in keys ==> !PrefixLess(j, k) {
      assert !PrefixLess(least, k) && k.window <= least.window;
      KeyTrichotomy(least, k);
    }
  }

  /** A login drop of window 5 goes before a probe drop of window 0. */
  lemma EvictsLaterWindow()
    ensures var login, probe := Key(LoginClass, Rate, 0, 5), Key(ProbeClass, Rate, 0, 0);
      LeastKey({login, probe}) == login && !InEarliestWindow({login, probe}, login)
  {
    var login, probe := Key(LoginClass, Rate, 0, 5), Key(ProbeClass, Rate, 0, 0);
    assert IsLeastKey({login, probe}, login);
    KeyTrichotomy(login, LeastKey({login, probe}));
    assert probe in {login, probe};
  }

  // ---------------------------------------------------------------- counts per key

  /** A drop is simply counted under its own key exactly when the key is there or there is room. */
  lemma RecordIsAddedExactly(m: map<Key, nat>, max: nat, k: Key)
    requires max > 0
    ensures Record(m, max, k) == Added(m, k, 1) <==> k in m || |m| < max
  {
    if !(k in m || |m| < max) {
      var overflow := OverflowFor(k);
      assert k in Added(m, k, 1);
      if Evicts(m, max, k) {
        var oldest := LeastKey(m.Keys);
        assert oldest != overflow && oldest !in Record(m, max, k) && oldest in Added(m, k, 1);
      } else {
        assert m != map[];
        assert k != overflow && k !in Record(m, max, k);
      }
    }
  }

  /** Every key holds its own drops of the run, less those handed out. */
  ghost predicate CountsOwn(c: Config, l: Limiter, steps: seq<Step>)
    requires ValidConfig(c) && Shaped(c, l) && AllInRange(c, steps)
  {
    forall k :: CountOf(RunLimiter(c, l, steps).aggregates, k) == CountOf(l.aggregates, k) + Outstanding(c, l, steps, k)
  }

  lemma AddedCounts(m: map<Key, nat>, k: Key, j: Key)
    ensures CountOf(Added(m, k, 1), j) == CountOf(m, j) + (if j == k then 1 else 0)
  {
  }

  ghost predicate NoZero(m: map<Key, nat>) { forall k :: k in m ==> m[k] > 0 }

  lemma RecordNoZero(m: map<Key, nat>, max: nat, k: Key)
    requires NoZero(m)
    ensures NoZero(Record(m, max, k))
  {
  }

  lemma SameCounts(a: map<Key, nat>, b: map<Key, nat>)
    requires NoZero(a) && NoZero(b) && forall k :: CountOf(a, k) == CountOf(b, k)
    ensures a == b
  {
    forall k
      ensures (k in a <==> k in b) && (k in a ==> a[k] == b[k])
    {
      assert CountOf(a, k) == CountOf(b, k);
    }
  }

  lemma RunOne(c: Config, l: Limiter, s: Step, k: Key)
    requires ValidConfig(c) && Shaped(c, l) && InRange(c, s)
    ensures AllInRange(c, [s]) && RunLimiter(c, l, [s]) == Next(c, l, s).0
    ensures Outstanding(c, l, [s], k)
         == if s.Take? then 0 - CountOf(l.aggregates, k) else if DropsAt(c, l, s) && DropKey(c, s) == k then 1 else 0
  {
    StepShape(c, l, s);
    assert [s][1..] == [];
  }

  /** One step counts every key's own exactly when its drop, if any, finds its key or room. */
  lemma StepCountsOwnExactly(c: Config, l: Limiter, s: Step)
    requires ValidConfig(c) && Shaped(c, l) && InRange(c, s) && NoZero(l.aggregates)
    ensures AllInRange(c, [s])
    ensures CountsOwn(c, l, [s]) <==> Fits(c, l, s)
  {
    StepShape(c, l, s);
    var m, t := l.aggregates, Next(c, l, s).0.aggregates;
    forall k
      ensures RunLimiter(c, l, [s]) == Next(c, l, s).0
      ensures Outstanding(c, l, [s], k)
           == if s.Take? then 0 - CountOf(m, k) else if DropsAt(c, l, s) && DropKey(c, s) == k then 1 else 0
    {
      RunOne(c, l, s, k);
    }
    if !s.Take? && DropsAt(c, l, s) {
      var key := DropKey(c, s);
      RecordIsAddedExactly(m, c.maxAggregates, key);
      forall k
        ensures CountOf(Added(m, key, 1), k) == CountOf(m, k) + (if k == key then 1 else 0)
      {
        AddedCounts(m, key, k);
      }
      if CountsOwn(c, l, [s]) {
        RecordNoZero(m, c.maxAggregates, key);
        forall k
          ensures CountOf(t, k) == CountOf(Added(m, key, 1), k)
        {
          assert CountOf(RunLimiter(c, l, [s]).aggregates, k) == CountOf(m, k) + Outstanding(c, l, [s], k);
        }
        SameCounts(t, Added(m, key, 1));
      }
    }
  }

  /** A run counts every key's own up to each of its steps exactly when nothing is ever evicted or overflows. */
  lemma {:induction false} CountsOwnExactly(c: Config, l: Limiter, steps: seq<Step>)
    requires ValidConfig(c) && Shaped(c, l) && AllInRange(c, steps) && NoZero(l.aggregates)
    ensures AllFit(c, l, steps) <==> forall n :: 0 <= n <= |steps| ==> AllInRange(c, steps[..n]) && CountsOwn(c, l, steps[..n])
    decreases |steps|
  {
    if AllFit(c, l, steps) {
      forall n | 0 <= n <= |steps|
        ensures AllInRange(c, steps[..n]) && CountsOwn(c, l, steps[..n])
      {
        FitsPrefix(c, l, steps, n);
        forall k
          ensures CountOf(RunLimiter(c, l, steps[..n]).aggregates, k)
               == CountOf(l.aggregates, k) + Outstanding(c, l, steps[..n], k)
        {
          KeysCountTheirOwn(c, l, steps[..n], k);
        }
      }
    }
    if forall n :: 0 <= n <= |steps| ==> AllInRange(c, steps[..n]) && CountsOwn(c, l, steps[..n]) {
      OwnCountsFit(c, l, steps);
    }
  }

  lemma {:induction false} FitsPrefix(c: Config, l: Limiter, steps: seq<Step>, n: nat)
    requires ValidConfig(c) && Shaped(c, l) && AllInRange(c, steps) && AllFit(c, l, steps) && n <= |steps|
    ensures AllInRange(c, steps[..n]) && AllFit(c, l, steps[..n])
    decreases |steps|
  {
    if n > 0 {
      StepShape(c, l, steps[0]);
      FitsPrefix(c, Next(c, l, steps[0]).0, steps[1..], n - 1);
      assert steps[..n][1..] == steps[1..][..n - 1];
    }
  }

  lemma {:induction false} OwnCountsFit(c: Config, l: Limiter, steps: seq<Step>)
    requires ValidConfig(c) && Shaped(c, l) && AllInRange(c, steps) && NoZero(l.aggregates)
    requires forall n :: 0 <= n <= |steps| ==> AllInRange(c, steps[..n]) && CountsOwn(c, l, steps[..n])
    ensures AllFit(c, l, steps)
    decreases |steps|
  {
    if steps != [] {
      var s := steps[0];
      var next := Next(c, l, s).0;
      StepShape(c, l, s);
      StepCountsOwnExactly(c, l, s);
      assert steps[..1] == [s];
      if !s.Take? && DropsAt(c, l, s) { RecordNoZero(l.aggregates, c.maxAggregates, DropKey(c, s)); }
      forall n | 0 <= n <= |steps[1..]|
        ensures AllInRange(c, steps[1..][..n]) && CountsOwn(c, next, steps[1..][..n])
      {
        OwnCountsTail(c, l, steps[..n + 1]);
        assert steps[..n + 1][1..] == steps[1..][..n];
      }
      OwnCountsFit(c, next, steps[1..]);
    }
  }

  lemma OwnCountsTail(c: Config, l: Limiter, steps: seq<Step>)
    requires ValidConfig(c) && Shaped(c, l) && AllInRange(c, steps) && steps != []
    requires CountsOwn(c, l, steps) && AllInRange(c, [steps[0]]) && CountsOwn(c, l, [steps[0]])
    ensures Shaped(c, Next(c, l, steps[0]).0) && CountsOwn(c, Next(c, l, steps[0]).0, steps[1..])
  {
    var s := steps[0];
    StepShape(c, l, s);
    var next := Next(c, l, s).0;
    forall k
      ensures CountOf(RunLimiter(c, next, steps[1..]).aggregates, k)
           == CountOf(next.aggregates, k) + Outstanding(c, next, steps[1..], k)
    {
      RunOne(c, l, s, k);
      assert CountOf(RunLimiter(c, l, [s]).aggregates, k) == CountOf(l.aggregates, k) + Outstanding(c, l, [s], k);
      assert CountOf(RunLimiter(c, l, steps).aggregates, k) == CountOf(l.aggregates, k) + Outstanding(c, l, steps, k);
    }
  }

  // ---------------------------------------------------------------- the drops an entry counts

  /** The times of the drops each entry counts. */
  type Times = map<Key, multiset<u64>>

  ghost function Stamped(ts: Times, k: Key, now: u64): Times {
    ts[k := (if k in ts then ts[k] else multiset{}) + multiset{now}]
  }

  /** The times move as recording moves the counts. */
  ghost function RecordTimes(m: map<Key, nat>, max: nat, ts: Times, k: Key, now: u64): Times
    requires ts.Keys == m.Keys
  {
    if k in m || |m| < max then Stamped(ts, k, now)
    else if !Evicts(m, max, k) then Stamped(ts, OverflowFor(k), now)
    else
      var oldest := LeastKey(m.Keys);
      Stamped((ts - {oldest})[OverflowFor(k) := ts[oldest]], OverflowFor(k), now)
  }

  /** Each entry counts exactly its times, of which it has at least one. */
  ghost predicate Tells(m: map<Key, nat>, ts: Times) {
    ts.Keys == m.Keys && forall k :: k in m ==> m[k] == |ts[k]| > 0
  }

  lemma StampTells(m: map<Key, nat>, ts: Times, k: Key, now: u64)
    requires Tells(m, ts)
    ensures Tells(Added(m, k, 1), Stamped(ts, k, now))
  {
  }

  lemma MoveTells(m: map<Key, nat>, ts: Times, from: Key, to: Key)
    requires Tells(m, ts) && from in m && to !in m
    ensures Tells(Added(m - {from}, to, m[from]), (ts - {from})[to := ts[from]])
  {
  }

  lemma RecordTells(m: map<Key, nat>, max: nat, ts: Times, k: Key, now: u64)
    requires Tells(m, ts)
    ensures Tells(Record(m, max, k), RecordTimes(m, max, ts, k, now))
  {
    var overflow := OverflowFor(k);
    if k in m || |m| < max {
      StampTells(m, ts, k, now);
    } else if !Evicts(m, max, k) {
      StampTells(m, ts, overflow, now);
    } else {
      var oldest := LeastKey(m.Keys);
      MoveTells(m, ts, oldest, overflow);
      StampTells(Added(m - {oldest}, overflow, m[oldest]), (ts - {oldest})[overflow := ts[oldest]], overflow, now);
    }
  }

  /** The time lies in the bounds the entry is handed out with. */
  predicate Bounded(c: Config, k: Key, t: u64) {
    Aggregate(c, k, 0).start <= t <= Aggregate(c, k, 0).end
  }

  /** The bounds of an entry are those of its window. */
  lemma BoundsAreWindow(c: Config, k: Key, t: u64)
    requires ValidConfig(c) && k.window * c.windowMilliseconds <= U64_MAX
    ensures Bounded(c, k, t) <==> WindowOf(c, t) == k.window
  {
    InWindow(c, t, k.window);
  }

  ghost predicate Ranged(c: Config, ts: Times) {
    forall k :: k in ts ==> k.window * c.windowMilliseconds <= U64_MAX
  }

  ghost predicate AllBounded(c: Config, ts: Times) {
    forall k, t :: k in ts && t in ts[k] ==> Bounded(c, k, t)
  }

  /** Recording takes in the drops of another window. */
  ghost predicate Strays(m: map<Key, nat>, max: nat, k: Key) {
    Evicts(m, max, k) && LeastKey(m.Keys).window != k.window
  }

  lemma WindowInRange(c: Config, now: u64)
    requires ValidConfig(c)
    ensures WindowOf(c, now) * c.windowMilliseconds <= now
  {
    DivBounds(now, c.windowMilliseconds);
  }

  /** A recorded drop leaves every counted time in its entry's bounds exactly when it does not stray. */
  lemma RecordBoundedExactly(c: Config, m: map<Key, nat>, ts: Times, k: Key, now: u64)
    requires ValidConfig(c) && Tells(m, ts) && Ranged(c, ts) && AllBounded(c, ts) && WindowOf(c, now) == k.window
    ensures Ranged(c, RecordTimes(m, c.maxAggregates, ts, k, now))
    ensures AllBounded(c, RecordTimes(m, c.maxAggregates, ts, k, now)) <==> !Strays(m, c.maxAggregates, k)
  {
    WindowInRange(c, now);
    BoundsAreWindow(c, k, now);
    BoundsAreWindow(c, OverflowFor(k), now);
    if Evicts(m, c.maxAggregates, k) {
      EvictionBoundedExactly(c, m, ts, k, now);
    }
  }

  lemma EvictionBoundedExactly(c: Config, m: map<Key, nat>, ts: Times, k: Key, now: u64)
    requires ValidConfig(c) && Tells(m, ts) && Ranged(c, ts) && AllBounded(c, ts)
    requires WindowOf(c, now) == k.window && k.window * c.windowMilliseconds <= U64_MAX
    requires Evicts(m, c.maxAggregates, k)
    ensures AllBounded(c, RecordTimes(m, c.maxAggregates, ts, k, now)) <==> LeastKey(m.Keys).window == k.window
  {
    var oldest, over, next := LeastKey(m.Keys), OverflowFor(k), RecordTimes(m, c.maxAggregates, ts, k, now);
    assert next[over] == ts[oldest] + multiset{now};
    forall t | t in ts[oldest]
      ensures WindowOf(c, t) == oldest.window && (Bounded(c, over, t) <==> oldest.window == k.window)
    {
      BoundsAreWindow(c, oldest, t);
      BoundsAreWindow(c, over, t);
    }
    BoundsAreWindow(c, over, now);
    assert |ts[oldest]| > 0;
    var some :| some in ts[oldest];
    assert some in next[over];
    forall j | j in next && j != over
      ensures j in ts && next[j] == ts[j]
    {
    }
  }

  // ---------------------------------------------------------------- over runs

  datatype Traced = Traced(limiter: Limiter, times: Times)

  ghost predicate Tracks(c: Config, b: Traced) {
    && ValidConfig(c) && Shaped(c, b.limiter) && |b.limiter.aggregates| <= c.maxAggregates
    && Tells(b.limiter.aggregates, b.times) && Ranged(c, b.times)
  }

  ghost function Trace(c: Config, b: Traced, s: Step): Traced
    requires Tracks(c, b) && InRange(c, s)
  {
    var l := b.limiter;
    Traced(Next(c, l, s).0,
           if s.Take? then map[]
           else if DropsAt(c, l, s) then RecordTimes(l.aggregates, c.maxAggregates, b.times, DropKey(c, s), s.now)
           else b.times)
  }

  ghost predicate StraysAt(c: Config, b: Traced, s: Step)
    requires Tracks(c, b) && InRange(c, s)
  {
    !s.Take? && DropsAt(c, b.limiter, s) && Strays(b.limiter.aggregates, c.maxAggregates, DropKey(c, s))
  }

  lemma RecordRanged(c: Config, m: map<Key, nat>, ts: Times, k: Key, now: u64)
    requires Tells(m, ts) && Ranged(c, ts) && k.window * c.windowMilliseconds <= U64_MAX
    ensures Ranged(c, RecordTimes(m, c.maxAggregates, ts, k, now))
  {
    var next := RecordTimes(m, c.maxAggregates, ts, k, now);
    assert next.Keys <= ts.Keys + {k, OverflowFor(k)};
    forall j | j in next
      ensures j.window * c.windowMilliseconds <= U64_MAX
    {
      assert j in ts || j.window == k.window;
    }
  }

  lemma TraceTracks(c: Config, b: Traced, s: Step)
    requires Tracks(c, b) && InRange(c, s)
    ensures Tracks(c, Trace(c, b, s))
  {
    var l := b.limiter;
    StepShape(c, l, s);
    if !s.Take? && DropsAt(c, l, s) {
      var k := DropKey(c, s);
      RecordKeeps(l.aggregates, c.maxAggregates, k);
      RecordTells(l.aggregates, c.maxAggregates, b.times, k, s.now);
      WindowInRange(c, s.now);
      RecordRanged(c, l.aggregates, b.times, k, s.now);
    }
  }

  /** A step takes a drop out of its entry's bounds exactly when it strays. */
  lemma StepBoundedExactly(c: Config, b: Traced, s: Step)
    requires Tracks(c, b) && AllBounded(c, b.times) && InRange(c, s)
    ensures AllBounded(c, Trace(c, b, s).times) <==> !StraysAt(c, b, s)
  {
    if !s.Take? && DropsAt(c, b.limiter, s) {
      RecordBoundedExactly(c, b.limiter.aggregates, b.times, DropKey(c, s), s.now);
    }
  }

  ghost function RunTrace(c: Config, b: Traced, steps: seq<Step>): Traced
    requires Tracks(c, b) && AllInRange(c, steps)
    decreases |steps|
  {
    if steps == [] then b
    else
      TraceTracks(c, b, steps[0]);
      RunTrace(c, Trace(c, b, steps[0]), steps[1..])
  }

  ghost predicate NeverStrays(c: Config, b: Traced, steps: seq<Step>)
    requires Tracks(c, b) && AllInRange(c, steps)
    decreases |steps|
  {
    steps == [] ||
    (TraceTracks(c, b, steps[0]);
     !StraysAt(c, b, steps[0]) && NeverStrays(c, Trace(c, b, steps[0]), steps[1..]))
  }

  lemma NewTracks(c: Config)
    requires ValidConfig(c)
    ensures Tracks(c, Traced(NewLimiter(c), map[])) && AllBounded(c, map[])
  {
  }

  ghost predicate BoundedAt(c: Config, b: Traced, steps: seq<Step>, n: nat)
    requires Tracks(c, b) && AllInRange(c, steps) && n <= |steps|
  {
    AllBounded(c, RunTrace(c, b, steps[..n]).times)
  }

  lemma BoundedShift(c: Config, b: Traced, steps: seq<Step>, n: nat)
    requires Tracks(c, b) && AllInRange(c, steps) && 1 <= n <= |steps|
    ensures Tracks(c, Trace(c, b, steps[0]))
    ensures BoundedAt(c, b, steps, n) <==> BoundedAt(c, Trace(c, b, steps[0]), steps[1..], n - 1)
  {
    TraceTracks(c, b, steps[0]);
    assert steps[..n][1..] == steps[1..][..n - 1] && steps[..n][0] == steps[0];
  }

  lemma {:induction false} BoundedAllTheWay(c: Config, b: Traced, steps: seq<Step>, n: nat)
    requires Tracks(c, b) && AllBounded(c, b.times) && AllInRange(c, steps) && NeverStrays(c, b, steps) && n <= |steps|
    ensures BoundedAt(c, b, steps, n)
    decreases |steps|
  {
    if n == 0 {
      assert steps[..0] == [];
    } else {
      BoundedShift(c, b, steps, n);
      StepBoundedExactly(c, b, steps[0]);
      BoundedAllTheWay(c, Trace(c, b, steps[0]), steps[1..], n - 1);
    }
  }

  lemma FirstBounded(c: Config, b: Traced, steps: seq<Step>)
    requires Tracks(c, b) && AllInRange(c, steps) && steps != [] && BoundedAt(c, b, steps, 1)
    ensures Tracks(c, Trace(c, b, steps[0])) && AllBounded(c, Trace(c, b, steps[0]).times)
  {
    BoundedShift(c, b, steps, 1);
    assert steps[1..][..0] == [];
  }

  lemma RestBounded(c: Config, b: Traced, steps: seq<Step>)
    requires Tracks(c, b) && AllInRange(c, steps) && steps != [] && Tracks(c, Trace(c, b, steps[0]))
    requires forall n :: 0 <= n <= |steps| ==> BoundedAt(c, b, steps, n)
    ensures forall n :: 0 <= n <= |steps[1..]| ==> BoundedAt(c, Trace(c, b, steps[0]), steps[1..], n)
  {
    forall n | 0 <= n <= |steps[1..]|
      ensures BoundedAt(c, Trace(c, b, steps[0]), steps[1..], n)
    {
      BoundedShift(c, b, steps, n + 1);
      assert BoundedAt(c, b, steps, n + 1);
    }
  }

  lemma {:induction false} StraysNowhere(c: Config, b: Traced, steps: seq<Step>)
    requires Tracks(c, b) && AllBounded(c, b.times) && AllInRange(c, steps)
    requires forall n :: 0 <= n <= |steps| ==> BoundedAt(c, b, steps, n)
    ensures NeverStrays(c, b, steps)
    decreases |steps|
  {
    if steps != [] {
      assert BoundedAt(c, b, steps, 1);
      FirstBounded(c, b, steps);
      StepBoundedExactly(c, b, steps[0]);
      RestBounded(c, b, steps);
      StraysNowhere(c, Trace(c, b, steps[0]), steps[1..]);
    }
  }

  /** Exactly the runs without a straying step keep every counted drop in bounds all the way. */
  lemma BoundsKeptExactly(c: Config, b: Traced, steps: seq<Step>)
    requires Tracks(c, b) && AllBounded(c, b.times) && AllInRange(c, steps)
    ensures NeverStrays(c, b, steps) <==> forall n :: 0 <= n <= |steps| ==> BoundedAt(c, b, steps, n)
  {
    if NeverStrays(c, b, steps) {
      forall n | 0 <= n <= |steps|
        ensures BoundedAt(c, b, steps, n)
      {
        BoundedAllTheWay(c, b, steps, n);
      }
    }
    if forall n :: 0 <= n <= |steps| ==> BoundedAt(c, b, steps, n) { StraysNowhere(c, b, steps); }
  }

  ghost predicate RequestsBounded(c: Config, ts: Times) {
    forall k, t :: k in ts && k.kind != OverflowClass && t in ts[k] ==> Bounded(c, k, t)
  }

  lemma RecordRequestsBounded(c: Config, m: map<Key, nat>, ts: Times, k: Key, now: u64)
    requires ValidConfig(c) && Tells(m, ts) && RequestsBounded(c, ts) && WindowOf(c, now) == k.window
    ensures RequestsBounded(c, RecordTimes(m, c.maxAggregates, ts, k, now))
  {
    WindowInRange(c, now);
    BoundsAreWindow(c, k, now);
  }

  /** In every run at all, the entries of request classes keep their drops in bounds. */
  lemma {:induction false} RequestBoundsContainDrops(c: Config, b: Traced, steps: seq<Step>)
    requires Tracks(c, b) && RequestsBounded(c, b.times) && AllInRange(c, steps)
    ensures RequestsBounded(c, RunTrace(c, b, steps).times)
    decreases |steps|
  {
    if steps != [] {
      var s := steps[0];
      TraceTracks(c, b, s);
      if !s.Take? && DropsAt(c, b.limiter, s) {
        RecordRequestsBounded(c, b.limiter.aggregates, b.times, DropKey(c, s), s.now);
      }
      RequestBoundsContainDrops(c, Trace(c, b, s), steps[1..]);
    }
  }

  const ONE_ENTRY := Config(1, 1, 1, 1, 1, 1, 1, 1)
  const LOGIN_KEY := Key(LoginClass, Rate, 0, 0)
  const OVERFLOW_KEY := Key(OverflowClass, Rate, 0xFFFF, 5)

  lemma FirstDrop(b: Traced)
    requires b == Traced(NewLimiter(ONE_ENTRY), map[])
    ensures Tracks(ONE_ENTRY, b)
    ensures var t := Trace(ONE_ENTRY, b, Drop(LoginClass, Rate, 0, 0));
      t.limiter.aggregates == map[LOGIN_KEY := 1] && t.times == map[LOGIN_KEY := multiset{0}]
  {
    NewTracks(ONE_ENTRY);
    DivIs(0, 1, 0);
    assert DropKey(ONE_ENTRY, Drop(LoginClass, Rate, 0, 0)) == LOGIN_KEY;
    assert Stamped(map[], LOGIN_KEY, 0)[LOGIN_KEY] == multiset{0};
  }

  lemma SecondDrop(b: Traced)
    requires Tracks(ONE_ENTRY, b)
    requires b.limiter.aggregates == map[LOGIN_KEY := 1] && b.times == map[LOGIN_KEY := multiset{0}]
    ensures Trace(ONE_ENTRY, b, Drop(ProbeClass, Rate, 0, 5)).times == map[OVERFLOW_KEY := multiset{0, 5}]
  {
    DivIs(5, 1, 5);
    var k := Key(ProbeClass, Rate, 0, 5);
    assert DropKey(ONE_ENTRY, Drop(ProbeClass, Rate, 0, 5)) == k && OverflowFor(k) == OVERFLOW_KEY;
    var m := b.limiter.aggregates;
    assert m.Keys == {LOGIN_KEY} && |m| == |m.Keys| && LOGIN_KEY in m;
    assert Evicts(m, 1, k);
    assert LeastKey(m.Keys) == LOGIN_KEY;
    var merged := (b.times - {LOGIN_KEY})[OVERFLOW_KEY := b.times[LOGIN_KEY]];
    assert merged == map[OVERFLOW_KEY := multiset{0}];
    assert multiset{0} + multiset{5} == multiset{0, 5};
  }

  lemma RunTwo(c: Config, b: Traced, s0: Step, s1: Step)
    requires Tracks(c, b) && AllInRange(c, [s0, s1]) && InRange(c, s0) && InRange(c, s1)
    requires Tracks(c, Trace(c, b, s0))
    ensures RunTrace(c, b, [s0, s1]) == Trace(c, Trace(c, b, s0), s1)
  {
    TraceTracks(c, Trace(c, b, s0), s1);
    assert [s0, s1][1..] == [s1] && [s1][1..] == [];
    assert RunTrace(c, Trace(c, b, s0), [s1]) == Trace(c, Trace(c, b, s0), s1);
  }

  /** With room for one entry, a drop at time 0 ends up in an entry bounded by [5, 5]. */
  lemma DropsCanLeaveTheirBounds()
    ensures var s0, s1 := Drop(LoginClass, Rate, 0, 0), Drop(ProbeClass, Rate, 0, 5);
      && Tracks(ONE_ENTRY, Traced(NewLimiter(ONE_ENTRY), map[])) && AllInRange(ONE_ENTRY, [s0, s1])
      && RunTrace(ONE_ENTRY, Traced(NewLimiter(ONE_ENTRY), map[]), [s0, s1]).times == map[OVERFLOW_KEY := multiset{0, 5}]
      && Aggregate(ONE_ENTRY, OVERFLOW_KEY, 2).start == Aggregate(ONE_ENTRY, OVERFLOW_KEY, 2).end == 5
  {
    var s0, s1 := Drop(LoginClass, Rate, 0, 0), Drop(ProbeClass, Rate, 0, 5);
    var b0 := Traced(NewLimiter(ONE_ENTRY), map[]);
    FirstDrop(b0);
    TraceTracks(ONE_ENTRY, b0, s0);
    var b1 := Trace(ONE_ENTRY, b0, s0);
    SecondDrop(b1);
    RunTwo(ONE_ENTRY, b0, s0, s1);
  }
}
