/** The limiter as the object the service mutates under its lock. */
module RateLimiter {
  import opened Prelude
  import M = RateLimitModel

  class LimiterState {
    const config: M.Config
    var global: M.Bucket
    const login: array<M.Bucket>
    const probe: array<M.Bucket>
    const identity: array<M.Bucket>
    var aggregates: map<M.Key, nat>

    ghost predicate Valid() {
      && M.ValidConfig(config)
      && login.Length == config.sourceShards
      && probe.Length == config.sourceShards
      && identity.Length == config.identityShards
      && login != probe && login != identity && probe != identity
    }

    ghost function Model(): M.Limiter
      reads this, login, probe, identity
    {
      M.Limiter(global, login[..], probe[..], identity[..], aggregates)
    }

    constructor (config: M.Config)
      requires M.ValidConfig(config)
      ensures Valid() && this.config == config && Model() == M.NewLimiter(config)
      ensures fresh(login) && fresh(probe) && fresh(identity)
    {
      this.config := config;
      global := M.Bucket(0, 0);
      login := new M.Bucket[config.sourceShards](_ => M.Bucket(0, 0));
      probe := new M.Bucket[config.sourceShards](_ => M.Bucket(0, 0));
      identity := new M.Bucket[config.identityShards](_ => M.Bucket(0, 0));
      aggregates := map[];
    }

    /** Charge one unit to a bucket of a shard table, refreshing it first when its window is over. */
    method ConsumeAt(buckets: array<M.Bucket>, index: nat, window: u64, allowance: u32) returns (ok: bool)
      requires index < buckets.Length
      modifies buckets
      ensures (buckets[index], ok) == M.Consume(old(buckets[index]), window, allowance)
      ensures buckets[..] == old(buckets[..])[index := buckets[index]]
    {
      if buckets[index].window != window {
        buckets[index] := M.Bucket(window, 0);
      }
      if buckets[index].used >= allowance {
        return false;
      }
      buckets[index] := buckets[index].(used := buckets[index].used + 1);
      ok := true;
    }

    method ConsumeGlobal(window: u64) returns (ok: bool)
      modifies this`global
      ensures (global, ok) == M.Consume(old(global), window, config.globalAttempts)
    {
      if global.window != window {
        global := M.Bucket(window, 0);
      }
      if global.used >= config.globalAttempts {
        return false;
      }
      global := global.(used := global.used + 1);
      ok := true;
    }

    /** Count a drop, merging the least entry into the overflow entry when the table is full. */
    method RecordLocked(kind: M.Class, reason: M.Reason, bucket: u16, window: u64)
      modifies this`aggregates
      ensures aggregates
           == M.Record(old(aggregates), config.maxAggregates, M.Key(kind, reason, bucket, window))
    {
      var key := M.Key(kind, reason, bucket, window);
      if key !in aggregates && |aggregates| >= config.maxAggregates {
        key := M.Key(M.OverflowClass, reason, 0xFFFF, window);
        if key !in aggregates && |aggregates| >= config.maxAggregates {
          if aggregates != map[] {
            var oldest := M.LeastKey(aggregates.Keys);
            var count := aggregates[oldest];
            aggregates := aggregates - {oldest};
            aggregates := M.Added(aggregates, key, count);
          }
        }
      }
      aggregates := M.Added(aggregates, key, 1);
    }

    method CheckUnauthenticated(isLogin: bool, bucket: u16, now: u64) returns (ok: bool)
      requires Valid() && bucket < config.sourceShards
      modifies this, login, probe
      ensures (Model(), ok) == M.Next(config, old(Model()), M.Unauthenticated(isLogin, bucket, now))
    {
      var window := M.WindowOf(config, now);
      var kind := if isLogin then M.LoginClass else M.ProbeClass;
      var passed := ConsumeGlobal(window);
      if !passed {
        RecordLocked(kind, M.Rate, bucket, window);
        return false;
      }
      if isLogin {
        ok := ConsumeAt(login, bucket, window, config.loginAttempts);
      } else {
        ok := ConsumeAt(probe, bucket, window, config.probeAttempts);
      }
      if !ok {
        RecordLocked(kind, M.Rate, bucket, window);
      }
    }

    method CheckAuthenticated(bucket: u16, now: u64) returns (ok: bool)
      requires Valid() && bucket < config.identityShards
      modifies this, identity
      ensures (Model(), ok) == M.Next(config, old(Model()), M.Authenticated(bucket, now))
    {
      var window := M.WindowOf(config, now);
      ok := ConsumeAt(identity, bucket, window, config.identityAttempts);
      if !ok {
        RecordLocked(M.AuthenticatedClass, M.Rate, bucket, window);
      }
    }

    method RecordDrop(kind: M.Class, reason: M.Reason, bucket: u16, now: u64)
      requires Valid()
      modifies this
      ensures Model() == M.Next(config, old(Model()), M.Drop(kind, reason, bucket, now)).0
    {
      RecordLocked(kind, reason, bucket, M.WindowOf(config, now));
    }

    method TakeAggregates() returns (taken: seq<M.DropAggregate>)
      requires Valid()
      modifies this
      ensures Model() == M.Next(config, old(Model()), M.Take).0
      ensures taken == M.HandedOut(config, old(aggregates))
    {
      var rest := aggregates;
      aggregates := map[];
      taken := [];
      while rest != map[]
        invariant taken + M.HandedOut(config, rest) == M.HandedOut(config, old(aggregates))
        decreases |rest|
      {
        var key := M.LeastKey(rest.Keys);
        ghost var later := M.HandedOut(config, rest - {key});
        assert taken + ([M.Aggregate(config, key, rest[key])] + later)
            == taken + [M.Aggregate(config, key, rest[key])] + later;
        assert (rest - {key}).Keys == rest.Keys - {key};
        assert |rest| == |rest.Keys| && |rest - {key}| == |(rest - {key}).Keys|;
        taken := taken + [M.Aggregate(config, key, rest[key])];
        rest := rest - {key};
      }
      assert taken + [] == taken;
    }
  }
}
