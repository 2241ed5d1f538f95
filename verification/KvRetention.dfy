/** Retention: what pruning an entry keeps, stated without its loop, and that this pins it down. */
module KvRetention {
  import opened Prelude
  import opened KvModel

  /** Everything the retention rule promises about the pruned entry `r` of `e`. */
  ghost predicate IsPruned(e: Entry, max: nat, r: Entry) {
    // nothing but the version table and the deferral mark moves, and no value changes
    && r == e.(versions := r.versions, retentionDeferred := r.retentionDeferred)
    && r.versions.Keys <= e.versions.Keys
    && (forall v :: v in r.versions ==> r.versions[v] == e.versions[v])
    // the current and the protected version stay
    && (forall v :: v in e.versions && v !in r.versions ==> v in Candidates(e))
    // what goes is older than every candidate that stays
    && (forall d, k :: d in e.versions && d !in r.versions && k in Candidates(r) ==> d < k)
    // no more goes than the limit asks, and the limit is met unless only pinned versions are left
    && (if |e.versions| <= max then r.versions == e.versions && !r.retentionDeferred
        else if r.retentionDeferred then |r.versions| > max && Candidates(r) == {}
        else |r.versions| == max)
  }

  /** The loop meets the rule. */
  lemma {:induction false} PruneMeets(e: Entry, max: nat)
    ensures IsPruned(e, max, Prune(e, max))
    decreases |e.versions|
  {
    if |e.versions| > max && Candidates(e) != {} {
      var oldest := Least(Candidates(e));
      var rest := e.versions - {oldest};
      assert rest.Keys == e.versions.Keys - {oldest};
      var e' := e.(versions := rest);
      PruneMeets(e', max);
      assert Candidates(e') == Candidates(e) - {oldest};
      var r := Prune(e', max);
      assert Candidates(r) <= Candidates(e');
    }
  }

  /** The deferral mark is recomputed, never consulted. */
  lemma {:induction false} PruneIgnoresMark(e: Entry, mark: bool, max: nat)
    ensures Prune(e.(retentionDeferred := mark), max) == Prune(e, max)
    decreases |e.versions|
  {
    if |e.versions| > max && Candidates(e) != {} {
      var oldest := Least(Candidates(e));
      var rest := e.versions - {oldest};
      assert rest.Keys == e.versions.Keys - {oldest};
      assert Candidates(e.(retentionDeferred := mark)) == Candidates(e);
      PruneIgnoresMark(e.(versions := rest), mark, max);
    }
  }

  lemma SameSizeOther<T>(a: set<T>, b: set<T>, x: T) returns (y: T)
    requires |a| == |b| && x in a && x !in b
    ensures y in b && y !in a
  {
    if b <= a {
      var c := a - {x};
      assert b <= c;
      SubsetSize(b, c);
      assert false;
    }
    y :| y in b && y !in a;
  }

  lemma {:induction false} SubsetSize<T>(a: set<T>, b: set<T>)
    requires a <= b
    ensures |a| <= |b|
    decreases |a|
  {
    if a != {} {
      var x :| x in a;
      SubsetSize(a - {x}, b - {x});
    }
  }

  lemma DroppedIsOlder(e: Entry, max: nat, r: Entry, dropped: u64, kept: u64)
    requires IsPruned(e, max, r)
    requires dropped in e.versions && dropped !in r.versions
    requires kept in r.versions && kept in Candidates(e)
    ensures dropped < kept
  {
    assert kept in Candidates(r);
  }

  lemma KeptBySecond(e: Entry, max: nat, r: Entry, s: Entry, v: u64)
    requires IsPruned(e, max, r) && IsPruned(e, max, s)
    requires r.retentionDeferred == s.retentionDeferred
    requires |e.versions| > max
    requires v in r.versions
    ensures v in s.versions
  {
    assert v in Candidates(r) <==> v in Candidates(e);
    if v !in s.versions {
      if !r.retentionDeferred {
        assert |r.versions.Keys| == |r.versions| && |s.versions.Keys| == |s.versions|;
        var y := SameSizeOther(r.versions.Keys, s.versions.Keys, v);
        DroppedIsOlder(e, max, r, y, v);
        DroppedIsOlder(e, max, s, v, y);
      }
      assert false;
    }
  }

  lemma DeferralAgrees(e: Entry, max: nat, r: Entry, s: Entry)
    requires IsPruned(e, max, r) && IsPruned(e, max, s)
    requires r.retentionDeferred
    ensures s.retentionDeferred
  {
    // every version r kept is pinned, so s kept it too
    assert r.versions.Keys <= s.versions.Keys by {
      forall v | v in r.versions
        ensures v in s.versions
      {
        assert v !in Candidates(r);
        assert v !in Candidates(e);
      }
    }
    SubsetSize(r.versions.Keys, s.versions.Keys);
    assert |r.versions.Keys| == |r.versions| && |s.versions.Keys| == |s.versions|;
  }

  /** The rule determines the result: any entry that meets it is the one the loop computes. */
  lemma PruneUnique(e: Entry, max: nat, r: Entry)
    requires IsPruned(e, max, r)
    ensures r == Prune(e, max)
  {
    var s := Prune(e, max);
    PruneMeets(e, max);
    if |e.versions| > max {
      if r.retentionDeferred { DeferralAgrees(e, max, r, s); }
      if s.retentionDeferred { DeferralAgrees(e, max, s, r); }
      forall v | v in r.versions ensures v in s.versions { KeptBySecond(e, max, r, s, v); }
      forall v | v in s.versions ensures v in r.versions { KeptBySecond(e, max, s, r, v); }
    }
    assert r.versions == s.versions;
  }
}
