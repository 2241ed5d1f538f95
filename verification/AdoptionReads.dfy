/** The reads that adoption is judged by, told from the audited observations alone. */
module AdoptionReads {
  import opened Prelude
  import opened Sequences
  import opened Adoption

  /** Whose reads: those through an instance, or an identity's own, through none. */
  datatype Reader = Through(instance: Id) | Directly(identity: Id)

  predicate ReadBy(r: Reader, o: Observation) {
    match r
    case Through(instance) => o.instance == Some(instance)
    case Directly(identity) => o.identity == identity && o.instance == None
  }

  /** A read of the reader's, strictly after the cutover and up to the cutoff. */
  predicate Counts(q: Query, r: Reader, o: Observation) {
    q.cutover < o.sequence && o.sequence <= q.cutoff && ReadBy(r, o)
  }

  /** The reader's last read in the window: the greatest sequence number, the last among equals. */
  ghost predicate LastRead(q: Query, r: Reader, j: int) {
    && 0 <= j < |q.observations| && Counts(q, r, q.observations[j])
    && forall k :: 0 <= k < |q.observations| && k != j && Counts(q, r, q.observations[k]) ==>
         || q.observations[k].sequence < q.observations[j].sequence
         || (q.observations[k].sequence == q.observations[j].sequence && k < j)
  }

  ghost predicate HasRead(q: Query, r: Reader) {
    exists k :: 0 <= k < |q.observations| && Counts(q, r, q.observations[k])
  }

  /** The reader last fetched this version, or last read at this time. */
  ghost predicate Fetched(q: Query, r: Reader, version: u64) {
    exists j :: LastRead(q, r, j) && q.observations[j].version == version
  }

  ghost predicate ReadAt(q: Query, r: Reader, time: u64) {
    exists j :: LastRead(q, r, j) && q.observations[j].effective == time
  }

  lemma LastReadIsOne(q: Query, r: Reader, i: int, j: int)
    requires LastRead(q, r, i) && LastRead(q, r, j)
    ensures i == j
  {
  }

  // ---------------------------------------------------------------- the pick is the last read

  lemma {:induction false} SelectOneMore<T(!new)>(xs: seq<T>, x: T, keep: T -> bool)
    ensures Select(xs + [x], keep) == Select(xs, keep) + (if keep(x) then [x] else [])
  {
    if xs == [] {
      assert [x][1..] == [];
    } else {
      assert (xs + [x])[1..] == xs[1..] + [x];
      SelectOneMore(xs[1..], x, keep);
    }
  }

  lemma {:induction false} SelectTwice<T(!new)>(xs: seq<T>, f: T -> bool, g: T -> bool, both: T -> bool)
    requires forall x :: both(x) <==> f(x) && g(x)
    ensures Select(Select(xs, f), g) == Select(xs, both)
  {
    if xs != [] { SelectTwice(xs[1..], f, g, both); }
  }

  /** The last of those kept that no other kept one is after. */
  ghost predicate LastOf(seen: seq<Observation>, keep: Observation -> bool, j: int) {
    && 0 <= j < |seen| && keep(seen[j])
    && forall k :: 0 <= k < |seen| && k != j && keep(seen[k]) ==>
         seen[k].sequence < seen[j].sequence || (seen[k].sequence == seen[j].sequence && k < j)
  }

  lemma KeptOneMore(seen: seq<Observation>, keep: Observation -> bool, j: int)
    requires seen != [] && LastOf(seen[..|seen| - 1], keep, j)
    ensures var n := |seen| - 1;
      LastOf(seen, keep, if keep(seen[n]) && seen[n].sequence >= seen[j].sequence then n else j)
  {
    var n := |seen| - 1;
    assert forall k :: 0 <= k < n ==> seen[..n][k] == seen[k];
  }

  lemma LatestOneMore(kept: seq<Observation>, last: Observation)
    ensures Latest(kept + [last])
         == if Latest(kept).Some? && last.sequence < Latest(kept).value.sequence then Latest(kept) else Some(last)
  {
    assert (kept + [last])[..|kept|] == kept;
  }

  /** The pick among those kept is the last of them. */
  ghost predicate PicksLast(seen: seq<Observation>, keep: Observation -> bool, latest: Option<Observation>) {
    && (latest.None? <==> forall k :: 0 <= k < |seen| ==> !keep(seen[k]))
    && (latest.Some? ==> exists j :: LastOf(seen, keep, j) && latest == Some(seen[j]))
  }

  lemma PicksOneMore(seen: seq<Observation>, keep: Observation -> bool, before: Option<Observation>)
    requires seen != [] && PicksLast(seen[..|seen| - 1], keep, before)
    ensures var last := seen[|seen| - 1];
      PicksLast(seen, keep,
                if !keep(last) || (before.Some? && last.sequence < before.value.sequence) then before else Some(last))
  {
    var n := |seen| - 1;
    assert forall k :: 0 <= k < n ==> seen[..n][k] == seen[k];
    if before.Some? {
      var j :| LastOf(seen[..n], keep, j) && before == Some(seen[..n][j]);
      KeptOneMore(seen, keep, j);
    } else if keep(seen[n]) {
      assert LastOf(seen, keep, n);
    }
  }

  lemma {:induction false} LatestKept(seen: seq<Observation>, keep: Observation -> bool)
    ensures PicksLast(seen, keep, Latest(Select(seen, keep)))
    decreases |seen|
  {
    if seen != [] {
      var init, last := seen[..|seen| - 1], seen[|seen| - 1];
      LatestKept(init, keep);
      PicksOneMore(seen, keep, Latest(Select(init, keep)));
      SelectOneMore(init, last, keep);
      assert init + [last] == seen;
      LatestOneMore(Select(init, keep), last);
      assert Select(init, keep) + [] == Select(init, keep);
    }
  }

  /** The reads the report looks at for a reader. */
  function ReadsOf(q: Query, r: Reader): seq<Observation> {
    match r
    case Through(instance) => ReadsOfInstance(q, instance)
    case Directly(identity) => DirectReads(q, identity)
  }

  lemma ReadsAre(q: Query, r: Reader)
    ensures ReadsOf(q, r) == Select(q.observations, (o: Observation) => Counts(q, r, o))
  {
    var window := (o: Observation) => q.cutover < o.sequence <= q.cutoff;
    var both := (o: Observation) => Counts(q, r, o);
    match r
    case Through(instance) =>
      SelectTwice(q.observations, window, (o: Observation) => o.instance == Some(instance), both);
    case Directly(identity) =>
      SelectTwice(q.observations, window, (o: Observation) => o.identity == identity && o.instance == None, both);
  }

  /** What the report goes by is the reader's last read, if it has read. */
  lemma LatestIsLastRead(q: Query, r: Reader)
    ensures Latest(ReadsOf(q, r)).None? <==> !HasRead(q, r)
    ensures Latest(ReadsOf(q, r)).Some? ==>
      exists j :: LastRead(q, r, j) && Latest(ReadsOf(q, r)) == Some(q.observations[j])
  {
    var keep := (o: Observation) => Counts(q, r, o);
    ReadsAre(q, r);
    LatestKept(q.observations, keep);
    if Latest(ReadsOf(q, r)).Some? {
      var j :| LastOf(q.observations, keep, j) && Latest(ReadsOf(q, r)) == Some(q.observations[j]);
      assert LastRead(q, r, j);
    }
  }

  /** The class, version and time taken from the pick are those of the last read. */
  lemma PickTells(q: Query, r: Reader, value: u64)
    ensures var latest := Latest(ReadsOf(q, r));
      && (FetchedOf(latest) == Some(value) <==> Fetched(q, r, value))
      && (TimeOf(latest) == Some(value) <==> ReadAt(q, r, value))
      && (ClassOf(latest, value) == OnCurrent <==> Fetched(q, r, value))
      && (ClassOf(latest, value) == SilentSinceWrite <==> !HasRead(q, r))
      && (ClassOf(latest, value) == OnPrior <==> HasRead(q, r) && !Fetched(q, r, value))
  {
    var latest := Latest(ReadsOf(q, r));
    LatestIsLastRead(q, r);
    if latest.Some? {
      var j :| LastRead(q, r, j) && latest == Some(q.observations[j]);
      forall i | LastRead(q, r, i)
        ensures i == j
      {
        LastReadIsOne(q, r, i, j);
      }
    } else {
      assert forall j :: !LastRead(q, r, j);
    }
  }

  // ---------------------------------------------------------------- who belongs to whom

  ghost predicate InstanceOf(q: Query, instance: Id, identity: Id) {
    instance in q.snapshot.instances && instance in q.identityOf && q.identityOf[instance] == identity
  }

  ghost predicate IdentityOf(q: Query, identity: Id, consumer: Id) {
    identity in q.snapshot.identities && identity in q.consumerOf && q.consumerOf[identity] == consumer
  }

  lemma LinksAre(q: Query, id: Id)
    ensures forall i :: i in InstancesOf(q, id) <==> InstanceOf(q, i, id)
    ensures forall i :: i in IdentitiesOf(q, id) <==> IdentityOf(q, i, id)
  {
  }

  ghost predicate HasInstance(q: Query, identity: Id) { exists i :: InstanceOf(q, i, identity) }

  ghost predicate HasIdentity(q: Query, consumer: Id) { exists i :: IdentityOf(q, i, consumer) }

  lemma LinkedAre(q: Query, id: Id)
    ensures InstancesOf(q, id) != [] <==> HasInstance(q, id)
    ensures IdentitiesOf(q, id) != [] <==> HasIdentity(q, id)
  {
    LinksAre(q, id);
    if InstancesOf(q, id) != [] { assert InstancesOf(q, id)[0] in InstancesOf(q, id); }
    if IdentitiesOf(q, id) != [] { assert IdentitiesOf(q, id)[0] in IdentitiesOf(q, id); }
  }
}
