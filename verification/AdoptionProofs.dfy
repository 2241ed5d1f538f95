/** What the adoption report means, and that the classifying loops compute it. */
module AdoptionProofs {
  import opened Prelude
  import opened Sequences
  import opened Adoption
  import opened AdoptionReads

  predicate Before(a: Member, b: Member) {
    Rank(a.kind) < Rank(b.kind) || (a.kind == b.kind && a.id < b.id)
  }

  function Rank(kind: Kind): nat {
    match kind
    case Consumer => 0
    case Identity => 1
    case Instance => 2
  }

  lemma BeforeIsOrder()
    ensures WeakOrder(Before)
  {
  }

  // ---------------------------------------------------------------- rollups

  lemma VerdictOf(members: seq<Member>, k: nat)
    requires k < |members|
    ensures members[k].verdict in Verdicts(members)
  {
    assert members[k] in members;
  }

  /** What the report says of an instance, by its last read in the window. */
  lemma InstanceReport(q: Query, id: Id)
    ensures var m := InstanceMember(q, id);
      && m.kind == Instance && m.id == id
      && (m.verdict == OnCurrent <==> Fetched(q, Through(id), q.target))
      && (m.verdict == RetiredWithoutProof <==> id in q.retired && !Fetched(q, Through(id), q.target))
      && (m.verdict == OnPrior <==>
            id !in q.retired && HasRead(q, Through(id)) && !Fetched(q, Through(id), q.target))
      && (m.verdict == SilentSinceWrite <==> id !in q.retired && !HasRead(q, Through(id)))
      && (forall v: u64 :: m.fetched == Some(v) <==> Fetched(q, Through(id), v))
      && (forall t: u64 :: m.lastRead == Some(t) <==> ReadAt(q, Through(id), t))
      && (m.lookbackExceeded <==> Stale(q, m.lastRead))
  {
    PickTells(q, Through(id), q.target);
    forall v: u64
      ensures InstanceMember(q, id).fetched == Some(v) <==> Fetched(q, Through(id), v)
      ensures InstanceMember(q, id).lastRead == Some(v) <==> ReadAt(q, Through(id), v)
    {
      PickTells(q, Through(id), v);
    }
  }

  /** The read is longer ago than the lookback allows. */
  predicate Stale(q: Query, last: Option<u64>) {
    last.Some? && q.lookback.Some? && q.now > last.value + q.lookback.value
  }

  lemma InstanceVerdict(q: Query, id: Id)
    ensures var v := InstanceMember(q, id).verdict;
      && v != NoInstanceObservation
      && (Settled(v) <==> id in q.retired || Fetched(q, Through(id), q.target))
  {
    InstanceReport(q, id);
  }

  /** Of several classes the one furthest from adoption is shown: prior, then silent, then retired. */
  ghost predicate LeastAdopted(shown: Class, classes: set<Class>) {
    && (shown == OnPrior <==> OnPrior in classes)
    && (shown == SilentSinceWrite <==> OnPrior !in classes && SilentSinceWrite in classes)
    && (shown == RetiredWithoutProof <==>
          OnPrior !in classes && SilentSinceWrite !in classes && RetiredWithoutProof in classes)
  }

  /** Rolling up instance verdicts is exact, both for adoption and for what blocks a closeout. */
  lemma InstanceRollupExact(classes: set<Class>)
    requires classes != {} && NoInstanceObservation !in classes
    ensures InstanceRollup(classes) == OnCurrent <==> forall c :: c in classes ==> c == OnCurrent
    ensures Settled(InstanceRollup(classes)) <==> forall c :: c in classes ==> Settled(c)
    ensures LeastAdopted(InstanceRollup(classes), classes)
  {
    if |classes| == 1 {
      SoleElement(classes);
    } else {
      assert classes != {OnCurrent};
      var c :| c in classes && c != OnCurrent;
    }
  }

  predicate Settled(c: Class) {
    c == OnCurrent || c == RetiredWithoutProof
  }

  /** Every verdict of a list is some element's, and every element's verdict is there. */
  lemma VerdictsAre(members: seq<Member>)
    ensures (forall c :: c in Verdicts(members) ==> c == OnCurrent) <==>
      (forall k :: 0 <= k < |members| ==> members[k].verdict == OnCurrent)
    ensures (forall c :: c in Verdicts(members) ==> Settled(c)) <==>
      (forall k :: 0 <= k < |members| ==> Settled(members[k].verdict))
  {
    forall k | 0 <= k < |members|
      ensures members[k].verdict in Verdicts(members)
    {
      VerdictOf(members, k);
    }
  }

  lemma InstanceClassesProper(q: Query, ids: seq<Id>)
    requires ids != []
    ensures var classes := Verdicts(InstanceMembers(q, ids));
      classes != {} && NoInstanceObservation !in classes
  {
    var members := InstanceMembers(q, ids);
    VerdictOf(members, 0);
    forall m | m in members
      ensures m.verdict != NoInstanceObservation
    {
      var k :| 0 <= k < |members| && members[k] == m;
      InstanceVerdict(q, ids[k]);
    }
  }

  lemma IdentityVerdict(q: Query, id: Id)
    requires InstancesOf(q, id) != []
    ensures var m := IdentityMember(q, id);
      && m.verdict == InstanceRollup(Verdicts(InstanceMembers(q, InstancesOf(q, id))))
      && m.kind == Identity && m.id == id && (m.lookbackExceeded <==> Stale(q, m.lastRead))
  {
  }

  ghost predicate SomeInstance(q: Query, id: Id, c: Class) {
    exists i :: InstanceOf(q, i, id) && InstanceMember(q, i).verdict == c
  }

  ghost predicate SomeIdentity(q: Query, id: Id, c: Class) {
    exists i :: IdentityOf(q, i, id) && IdentityMember(q, i).verdict == c
  }

  lemma VerdictAt(members: seq<Member>, c: Class)
    ensures c in Verdicts(members) <==> exists k :: 0 <= k < |members| && members[k].verdict == c
  {
    if k :| 0 <= k < |members| && members[k].verdict == c { VerdictOf(members, k); }
  }

  lemma InstanceClasses(q: Query, id: Id, ids: seq<Id>, c: Class)
    requires forall i :: i in ids <==> InstanceOf(q, i, id)
    ensures c in Verdicts(InstanceMembers(q, ids)) <==> SomeInstance(q, id, c)
  {
    var members := InstanceMembers(q, ids);
    VerdictAt(members, c);
    if k :| 0 <= k < |members| && members[k].verdict == c {
      assert ids[k] in ids;
    }
    if i :| InstanceOf(q, i, id) && InstanceMember(q, i).verdict == c {
      var k :| 0 <= k < |ids| && ids[k] == i;
      assert members[k].verdict == c;
    }
  }

  lemma IdentityClasses(q: Query, id: Id, ids: seq<Id>, c: Class)
    requires forall i :: i in ids <==> IdentityOf(q, i, id)
    ensures c in Verdicts(IdentityMembers(q, ids)) <==> SomeIdentity(q, id, c)
  {
    var members := IdentityMembers(q, ids);
    VerdictAt(members, c);
    if k :| 0 <= k < |members| && members[k].verdict == c {
      assert ids[k] in ids;
    }
    if i :| IdentityOf(q, i, id) && IdentityMember(q, i).verdict == c {
      var k :| 0 <= k < |ids| && ids[k] == i;
      assert members[k].verdict == c;
    }
  }

  lemma RollupMeans(q: Query, id: Id, ids: seq<Id>, shown: Class)
    requires ids != [] && forall i :: i in ids <==> InstanceOf(q, i, id)
    requires shown == InstanceRollup(Verdicts(InstanceMembers(q, ids)))
    ensures shown == OnCurrent <==> forall i :: InstanceOf(q, i, id) ==> InstanceMember(q, i).verdict == OnCurrent
    ensures Settled(shown) <==> forall i :: InstanceOf(q, i, id) ==> Settled(InstanceMember(q, i).verdict)
    ensures shown == OnPrior <==> SomeInstance(q, id, OnPrior)
    ensures shown == SilentSinceWrite <==> !SomeInstance(q, id, OnPrior) && SomeInstance(q, id, SilentSinceWrite)
    ensures shown == RetiredWithoutProof <==>
      && !SomeInstance(q, id, OnPrior) && !SomeInstance(q, id, SilentSinceWrite)
      && SomeInstance(q, id, RetiredWithoutProof)
  {
    InstanceClassesProper(q, ids);
    InstanceRollupExact(Verdicts(InstanceMembers(q, ids)));
    AllInstances(q, ids);
    InstanceClasses(q, id, ids, OnPrior);
    InstanceClasses(q, id, ids, SilentSinceWrite);
    InstanceClasses(q, id, ids, RetiredWithoutProof);
  }

  /**
    What the report says of an identity with instances: on-current exactly when all of them are,
    otherwise the class of theirs that is furthest from adoption.
   */
  lemma IdentityExact(q: Query, id: Id)
    requires HasInstance(q, id)
    ensures var m := IdentityMember(q, id);
      && m.kind == Identity && m.id == id && (m.lookbackExceeded <==> Stale(q, m.lastRead))
      && (m.verdict == OnCurrent <==> forall i :: InstanceOf(q, i, id) ==> InstanceMember(q, i).verdict == OnCurrent)
      && (Settled(m.verdict) <==> forall i :: InstanceOf(q, i, id) ==> Settled(InstanceMember(q, i).verdict))
      && (m.verdict == OnPrior <==> SomeInstance(q, id, OnPrior))
      && (m.verdict == SilentSinceWrite <==> !SomeInstance(q, id, OnPrior) && SomeInstance(q, id, SilentSinceWrite))
      && (m.verdict == RetiredWithoutProof <==>
            && !SomeInstance(q, id, OnPrior) && !SomeInstance(q, id, SilentSinceWrite)
            && SomeInstance(q, id, RetiredWithoutProof))
  {
    InstanceLinks(q, id);
    IdentityVerdict(q, id);
    RollupMeans(q, id, InstancesOf(q, id), IdentityMember(q, id).verdict);
  }

  lemma InstanceLinks(q: Query, id: Id)
    requires HasInstance(q, id)
    ensures InstancesOf(q, id) != [] && forall i :: i in InstancesOf(q, id) <==> InstanceOf(q, i, id)
  {
    LinkedAre(q, id);
    LinksAre(q, id);
  }

  lemma {:induction false} LastTimeIs(members: seq<Member>, t: u64)
    ensures LastTime(members) == Some(t) <==>
      && (exists k :: 0 <= k < |members| && members[k].lastRead == Some(t))
      && (forall k :: 0 <= k < |members| && members[k].lastRead.Some? ==> members[k].lastRead.value <= t)
    ensures LastTime(members) == None <==> forall k :: 0 <= k < |members| ==> members[k].lastRead == None
  {
    if members != [] {
      var rest := members[1..];
      LastTimeIs(rest, t);
      if LastTime(rest).Some? { LastTimeIs(rest, LastTime(rest).value); }
      assert forall k :: 0 <= k < |rest| ==> rest[k] == members[k + 1];
      assert members == [members[0]] + rest;
    }
  }

  lemma {:induction false} FirstFetchedIs(members: seq<Member>, v: u64)
    ensures FirstFetched(members) == Some(v) <==>
      exists k :: && 0 <= k < |members| && members[k].fetched == Some(v)
                  && forall n :: 0 <= n < k ==> members[n].fetched == None
  {
    if members != [] {
      var rest := members[1..];
      FirstFetchedIs(rest, v);
      assert forall k :: 0 <= k < |rest| ==> rest[k] == members[k + 1];
      if members[0].fetched == None && FirstFetched(rest) == Some(v) {
        var k :| 0 <= k < |rest| && rest[k].fetched == Some(v) && forall n :: 0 <= n < k ==> rest[n].fetched == None;
        assert members[k + 1].fetched == Some(v);
        forall n | 0 <= n < k + 1
          ensures members[n].fetched == None
        {
          if n > 0 { assert rest[n - 1].fetched == None; }
        }
      }
      if k :| 0 <= k < |members| && members[k].fetched == Some(v) && forall n :: 0 <= n < k ==> members[n].fetched == None {
        if k > 0 { assert rest[k - 1].fetched == Some(v) && forall n :: 0 <= n < k - 1 ==> rest[n].fetched == None; }
      }
    }
  }

  lemma {:induction false} SelectAscends(xs: seq<Id>, keep: Id -> bool)
    requires StrictlyAscending(xs)
    ensures StrictlyAscending(Select(xs, keep))
  {
    if xs != [] {
      var kept := Select(xs[1..], keep);
      SelectAscends(xs[1..], keep);
      forall k | 0 <= k < |kept|
        ensures kept[k] > xs[0]
      {
        assert kept[k] in kept && kept[k] in xs[1..];
      }
    }
  }

  lemma InstancesAscend(q: Query, id: Id)
    ensures StrictlyAscending(InstancesOf(q, id))
  {
    SelectAscends(AscendingIds(q.snapshot.instances), (i: Id) => i in q.identityOf && q.identityOf[i] == id);
  }

  /** An identity's time is that of the latest read through any of its instances. */
  lemma IdentityReadAt(q: Query, id: Id, t: u64)
    requires HasInstance(q, id)
    ensures IdentityMember(q, id).lastRead == Some(t) <==>
      && (exists i :: InstanceOf(q, i, id) && ReadAt(q, Through(i), t))
      && (forall i, u: u64 :: InstanceOf(q, i, id) && ReadAt(q, Through(i), u) ==> u <= t)
  {
    var ids := InstancesOf(q, id);
    var members := InstanceMembers(q, ids);
    LinkedAre(q, id);
    LinksAre(q, id);
    LastTimeIs(members, t);
    forall k | 0 <= k < |ids|
      ensures forall u: u64 :: members[k].lastRead == Some(u) <==> ReadAt(q, Through(ids[k]), u)
    {
      InstanceReport(q, ids[k]);
    }
    TimesByInstance(q, id, ids, members, t);
  }

  lemma TimesByInstance(q: Query, id: Id, ids: seq<Id>, members: seq<Member>, t: u64)
    requires |members| == |ids| && forall i :: i in ids <==> InstanceOf(q, i, id)
    requires forall k :: 0 <= k < |ids| ==>
      forall u: u64 :: members[k].lastRead == Some(u) <==> ReadAt(q, Through(ids[k]), u)
    ensures (exists k :: 0 <= k < |members| && members[k].lastRead == Some(t)) <==>
      (exists i :: InstanceOf(q, i, id) && ReadAt(q, Through(i), t))
    ensures (forall k :: 0 <= k < |members| && members[k].lastRead.Some? ==> members[k].lastRead.value <= t) <==>
      (forall i, u: u64 :: InstanceOf(q, i, id) && ReadAt(q, Through(i), u) ==> u <= t)
  {
    if i :| InstanceOf(q, i, id) && ReadAt(q, Through(i), t) {
      var k :| 0 <= k < |ids| && ids[k] == i;
      assert members[k].lastRead == Some(t);
    }
    if k :| 0 <= k < |members| && members[k].lastRead == Some(t) {
      assert ids[k] in ids && InstanceOf(q, ids[k], id) && ReadAt(q, Through(ids[k]), t);
    }
    if forall k :: 0 <= k < |members| && members[k].lastRead.Some? ==> members[k].lastRead.value <= t {
      forall i, u: u64 | InstanceOf(q, i, id) && ReadAt(q, Through(i), u)
        ensures u <= t
      {
        var k :| 0 <= k < |ids| && ids[k] == i;
        assert members[k].lastRead == Some(u);
      }
    }
    if forall i, u: u64 :: InstanceOf(q, i, id) && ReadAt(q, Through(i), u) ==> u <= t {
      forall k | 0 <= k < |members| && members[k].lastRead.Some?
        ensures members[k].lastRead.value <= t
      {
        assert ids[k] in ids && ReadAt(q, Through(ids[k]), members[k].lastRead.value);
      }
    }
  }

  /** An identity's version is that of the first of its instances, in order, that has read. */
  lemma IdentityFetched(q: Query, id: Id, v: u64)
    requires HasInstance(q, id)
    ensures IdentityMember(q, id).fetched == Some(v) <==>
      exists i :: && InstanceOf(q, i, id) && Fetched(q, Through(i), v)
                  && forall j :: InstanceOf(q, j, id) && j < i ==> !HasRead(q, Through(j))
  {
    var ids := InstancesOf(q, id);
    var members := InstanceMembers(q, ids);
    LinkedAre(q, id);
    LinksAre(q, id);
    InstancesAscend(q, id);
    FirstFetchedIs(members, v);
    forall k | 0 <= k < |ids|
      ensures members[k].fetched == Some(v) <==> Fetched(q, Through(ids[k]), v)
      ensures members[k].fetched == None <==> !HasRead(q, Through(ids[k]))
    {
      PickTells(q, Through(ids[k]), v);
      LatestIsLastRead(q, Through(ids[k]));
    }
    FetchedByInstance(q, id, ids, members, v);
  }

  lemma FetchedByInstance(q: Query, id: Id, ids: seq<Id>, members: seq<Member>, v: u64)
    requires |members| == |ids| && StrictlyAscending(ids) && forall i :: i in ids <==> InstanceOf(q, i, id)
    requires forall k :: 0 <= k < |ids| ==>
      && (members[k].fetched == Some(v) <==> Fetched(q, Through(ids[k]), v))
      && (members[k].fetched == None <==> !HasRead(q, Through(ids[k])))
    ensures (exists k :: && 0 <= k < |members| && members[k].fetched == Some(v)
                         && forall n :: 0 <= n < k ==> members[n].fetched == None) <==>
      exists i :: && InstanceOf(q, i, id) && Fetched(q, Through(i), v)
                  && forall j :: InstanceOf(q, j, id) && j < i ==> !HasRead(q, Through(j))
  {
    if k :| && 0 <= k < |members| && members[k].fetched == Some(v)
            && forall n :: 0 <= n < k ==> members[n].fetched == None
    {
      assert ids[k] in ids && InstanceOf(q, ids[k], id);
      forall j | InstanceOf(q, j, id) && j < ids[k]
        ensures !HasRead(q, Through(j))
      {
        var n :| 0 <= n < |ids| && ids[n] == j;
        assert members[n].fetched == None;
      }
    }
    if i :| && InstanceOf(q, i, id) && Fetched(q, Through(i), v)
            && forall j :: InstanceOf(q, j, id) && j < i ==> !HasRead(q, Through(j))
    {
      var k :| 0 <= k < |ids| && ids[k] == i;
      forall n | 0 <= n < k
        ensures members[n].fetched == None
      {
        assert ids[n] in ids && InstanceOf(q, ids[n], id) && ids[n] < i;
      }
    }
  }

  lemma AllInstances(q: Query, ids: seq<Id>)
    ensures var classes := Verdicts(InstanceMembers(q, ids));
      && ((forall c :: c in classes ==> c == OnCurrent) <==>
            (forall i :: i in ids ==> InstanceMember(q, i).verdict == OnCurrent))
      && ((forall c :: c in classes ==> Settled(c)) <==>
            (forall i :: i in ids ==> Settled(InstanceMember(q, i).verdict)))
  {
    var members := InstanceMembers(q, ids);
    VerdictsAre(members);
    assert forall k :: 0 <= k < |ids| ==> members[k] == InstanceMember(q, ids[k]);
  }

  lemma AllIdentities(q: Query, ids: seq<Id>)
    ensures var classes := Verdicts(IdentityMembers(q, ids));
      && ((forall c :: c in classes ==> c == OnCurrent) <==>
            (forall i :: i in ids ==> IdentityMember(q, i).verdict == OnCurrent))
      && ((forall c :: c in classes ==> Settled(c)) <==>
            (forall i :: i in ids ==> Settled(IdentityMember(q, i).verdict)))
  {
    var members := IdentityMembers(q, ids);
    VerdictsAre(members);
    assert forall k :: 0 <= k < |ids| ==> members[k] == IdentityMember(q, ids[k]);
  }

  /** What the report says of an identity without instances, by its own last read in the window. */
  lemma DirectExact(q: Query, id: Id)
    requires !HasInstance(q, id)
    ensures var m := IdentityMember(q, id);
      && m.kind == Identity && m.id == id
      && (m.verdict == OnCurrent <==> Fetched(q, Directly(id), q.target))
      && (m.verdict == OnPrior <==> HasRead(q, Directly(id)) && !Fetched(q, Directly(id), q.target))
      && (m.verdict == NoInstanceObservation <==> !HasRead(q, Directly(id)))
      && (Settled(m.verdict) <==> m.verdict == OnCurrent)
      && (forall v: u64 :: m.fetched == Some(v) <==> Fetched(q, Directly(id), v))
      && (forall t: u64 :: m.lastRead == Some(t) <==> ReadAt(q, Directly(id), t))
      && (m.lookbackExceeded <==> Stale(q, m.lastRead))
  {
    LinkedAre(q, id);
    PickTells(q, Directly(id), q.target);
    LatestIsLastRead(q, Directly(id));
    forall v: u64
      ensures IdentityMember(q, id).fetched == Some(v) <==> Fetched(q, Directly(id), v)
      ensures IdentityMember(q, id).lastRead == Some(v) <==> ReadAt(q, Directly(id), v)
    {
      PickTells(q, Directly(id), v);
    }
  }

  lemma IdentityRollupExact(classes: set<Class>)
    ensures IdentityRollup(classes) == OnCurrent <==> forall c :: c in classes ==> c == OnCurrent
    ensures Settled(IdentityRollup(classes)) <==> forall c :: c in classes ==> Settled(c)
    ensures LeastAdopted(IdentityRollup(classes),
                         if NoInstanceObservation in classes then classes + {SilentSinceWrite} else classes)
  {
  }

  /**
    What the report says of a consumer: on-current exactly when it has an identity and all its
    identities are, otherwise the class of theirs furthest from adoption, an unseen one as silent.
   */
  lemma ConsumerExact(q: Query, id: Id)
    ensures var m := ConsumerMember(q, id);
      && m == Member(Consumer, id, m.verdict, None, None, false)
      && (m.verdict == OnCurrent <==>
            HasIdentity(q, id) && forall i :: IdentityOf(q, i, id) ==> IdentityMember(q, i).verdict == OnCurrent)
      && (Settled(m.verdict) <==>
            HasIdentity(q, id) && forall i :: IdentityOf(q, i, id) ==> Settled(IdentityMember(q, i).verdict))
      && (m.verdict == OnPrior <==> SomeIdentity(q, id, OnPrior))
      && (m.verdict == SilentSinceWrite <==>
            || !HasIdentity(q, id)
            || (!SomeIdentity(q, id, OnPrior)
                && (SomeIdentity(q, id, SilentSinceWrite) || SomeIdentity(q, id, NoInstanceObservation))))
  {
    var ids := IdentitiesOf(q, id);
    LinkedAre(q, id);
    LinksAre(q, id);
    AllIdentities(q, ids);
    IdentityRollupExact(Verdicts(IdentityMembers(q, ids)));
    IdentityClasses(q, id, ids, OnPrior);
    IdentityClasses(q, id, ids, SilentSinceWrite);
    IdentityClasses(q, id, ids, NoInstanceObservation);
  }

  // ---------------------------------------------------------------- the closeout gate

  /** No member of the report blocks a closeout. */
  predicate Unblocked(members: seq<Member>) {
    forall m :: m in members ==> Settled(m.verdict)
  }

  /** Adoption in terms of the audited reads alone. */
  ghost predicate Adopted(q: Query) {
    && (forall i :: i in q.snapshot.instances ==> i in q.retired || Fetched(q, Through(i), q.target))
    && (forall i :: i in q.snapshot.identities ==> HasInstance(q, i) || Fetched(q, Directly(i), q.target))
    && (forall c :: c in q.snapshot.consumers ==> HasIdentity(q, c))
  }

  lemma InInstances(q: Query, m: Member)
    ensures m in InstanceMembers(q, AscendingIds(q.snapshot.instances)) <==>
      m.id in q.snapshot.instances && m == InstanceMember(q, m.id)
  {
    var ids := AscendingIds(q.snapshot.instances);
    var members := InstanceMembers(q, ids);
    if m.id in q.snapshot.instances && m == InstanceMember(q, m.id) {
      var k :| 0 <= k < |ids| && ids[k] == m.id;
      assert members[k] == m;
    }
    if m in members {
      var k :| 0 <= k < |members| && members[k] == m;
      assert ids[k] in ids;
    }
  }

  lemma InIdentities(q: Query, m: Member)
    ensures m in IdentityMembers(q, AscendingIds(q.snapshot.identities)) <==>
      m.id in q.snapshot.identities && m == IdentityMember(q, m.id)
  {
    var ids := AscendingIds(q.snapshot.identities);
    var members := IdentityMembers(q, ids);
    if m.id in q.snapshot.identities && m == IdentityMember(q, m.id) {
      var k :| 0 <= k < |ids| && ids[k] == m.id;
      assert members[k] == m;
    }
    if m in members {
      var k :| 0 <= k < |members| && members[k] == m;
      assert ids[k] in ids;
    }
  }

  lemma InConsumers(q: Query, m: Member)
    ensures m in ConsumerMembers(q, AscendingIds(q.snapshot.consumers)) <==>
      m.id in q.snapshot.consumers && m == ConsumerMember(q, m.id)
  {
    var ids := AscendingIds(q.snapshot.consumers);
    var members := ConsumerMembers(q, ids);
    if m.id in q.snapshot.consumers && m == ConsumerMember(q, m.id) {
      var k :| 0 <= k < |ids| && ids[k] == m.id;
      assert members[k] == m;
    }
    if m in members {
      var k :| 0 <= k < |members| && members[k] == m;
      assert ids[k] in ids;
    }
  }

  lemma InThree(a: seq<Member>, b: seq<Member>, c: seq<Member>, m: Member)
    ensures m in a + b + c <==> m in a || m in b || m in c
  {
  }

  /** The report holds the member of each snapshot element and nothing else. */
  lemma InMembers(q: Query, m: Member)
    ensures m in Members(q) <==>
      || (m.id in q.snapshot.consumers && m == ConsumerMember(q, m.id))
      || (m.id in q.snapshot.identities && m == IdentityMember(q, m.id))
      || (m.id in q.snapshot.instances && m == InstanceMember(q, m.id))
  {
    InConsumers(q, m);
    InIdentities(q, m);
    InInstances(q, m);
    InThree(ConsumerMembers(q, AscendingIds(q.snapshot.consumers)),
            IdentityMembers(q, AscendingIds(q.snapshot.identities)),
            InstanceMembers(q, AscendingIds(q.snapshot.instances)), m);
  }

  ghost predicate InstancesSettled(q: Query) {
    forall i :: i in q.snapshot.instances ==> Settled(InstanceMember(q, i).verdict)
  }

  ghost predicate IdentitiesSettled(q: Query) {
    forall i :: i in q.snapshot.identities ==> Settled(IdentityMember(q, i).verdict)
  }

  ghost predicate ConsumersSettled(q: Query) {
    forall c :: c in q.snapshot.consumers ==> Settled(ConsumerMember(q, c).verdict)
  }

  lemma InstancesUnblocked(q: Query)
    ensures InstancesSettled(q) <==>
      forall i :: i in q.snapshot.instances ==> i in q.retired || Fetched(q, Through(i), q.target)
  {
    forall i | i in q.snapshot.instances
      ensures Settled(InstanceMember(q, i).verdict) <==> (i in q.retired || Fetched(q, Through(i), q.target))
    {
      InstanceVerdict(q, i);
    }
  }

  lemma IdentitiesUnblocked(q: Query)
    requires InstancesSettled(q)
    ensures IdentitiesSettled(q) <==>
      forall i :: i in q.snapshot.identities ==> HasInstance(q, i) || Fetched(q, Directly(i), q.target)
  {
    forall i | i in q.snapshot.identities
      ensures Settled(IdentityMember(q, i).verdict) <==> (HasInstance(q, i) || Fetched(q, Directly(i), q.target))
    {
      if HasInstance(q, i) { IdentityExact(q, i); } else { DirectExact(q, i); }
    }
  }

  lemma ConsumersUnblocked(q: Query)
    requires IdentitiesSettled(q)
    ensures ConsumersSettled(q) <==> forall c :: c in q.snapshot.consumers ==> HasIdentity(q, c)
  {
    forall c | c in q.snapshot.consumers
      ensures Settled(ConsumerMember(q, c).verdict) <==> HasIdentity(q, c)
    {
      ConsumerExact(q, c);
    }
  }

  lemma UnblockedByParts(q: Query)
    ensures Unblocked(Members(q)) <==> InstancesSettled(q) && IdentitiesSettled(q) && ConsumersSettled(q)
  {
    forall i | i in q.snapshot.instances ensures InstanceMember(q, i) in Members(q) {
      InMembers(q, InstanceMember(q, i));
    }
    forall i | i in q.snapshot.identities ensures IdentityMember(q, i) in Members(q) {
      InMembers(q, IdentityMember(q, i));
    }
    forall c | c in q.snapshot.consumers ensures ConsumerMember(q, c) in Members(q) {
      InMembers(q, ConsumerMember(q, c));
    }
    forall m | m in Members(q)
      ensures
        || (m.id in q.snapshot.consumers && m == ConsumerMember(q, m.id))
        || (m.id in q.snapshot.identities && m == IdentityMember(q, m.id))
        || (m.id in q.snapshot.instances && m == InstanceMember(q, m.id))
    {
      InMembers(q, m);
    }
  }

  /**
    The gate is exact: the report blocks nothing if and only if every active instance is retired
    or last fetched the target in the window, every identity without instances did so itself, and
    every declared consumer has an identity.
   */
  lemma GateExact(q: Query)
    ensures Unblocked(Members(q)) <==> Adopted(q)
  {
    UnblockedByParts(q);
    InstancesUnblocked(q);
    if InstancesSettled(q) {
      IdentitiesUnblocked(q);
      if IdentitiesSettled(q) { ConsumersUnblocked(q); }
    }
  }

  // ---------------------------------------------------------------- shape of the report

  lemma RanksOf(q: Query, cs: seq<Id>, ids: seq<Id>, ins: seq<Id>)
    ensures forall m :: m in ConsumerMembers(q, cs) ==> m.kind == Consumer
    ensures forall m :: m in IdentityMembers(q, ids) ==> m.kind == Identity
    ensures forall m :: m in InstanceMembers(q, ins) ==> m.kind == Instance
  {
  }

  lemma EachInOrder(q: Query, ids: seq<Id>)
    requires StrictlyAscending(ids)
    ensures StrictlyInOrder(ConsumerMembers(q, ids), Before)
    ensures StrictlyInOrder(IdentityMembers(q, ids), Before)
    ensures StrictlyInOrder(InstanceMembers(q, ids), Before)
  {
  }

  /** Strictly ordered by kind and identifier: one member per snapshot element, no other. */
  lemma OneMemberEach(q: Query)
    ensures StrictlyInOrder(Members(q), Before)
    ensures |Members(q)| == |q.snapshot.consumers| + |q.snapshot.identities| + |q.snapshot.instances|
  {
    var cs := AscendingIds(q.snapshot.consumers);
    var ids := AscendingIds(q.snapshot.identities);
    var ins := AscendingIds(q.snapshot.instances);
    var a, b, c := ConsumerMembers(q, cs), IdentityMembers(q, ids), InstanceMembers(q, ins);
    RanksOf(q, cs, ids, ins);
    EachInOrder(q, cs);
    EachInOrder(q, ids);
    EachInOrder(q, ins);
    ConcatInOrder(a, b, Before);
    ConcatInOrder(a + b, c, Before);
  }

  // ---------------------------------------------------------------- lookback

  function Undated(m: Member): Member { m.(lookbackExceeded := false) }

  function AllUndated(members: seq<Member>): seq<Member> {
    seq(|members|, k requires 0 <= k < |members| => Undated(members[k]))
  }

  lemma SameReads(q: Query, r: Query)
    requires r == q.(lookback := r.lookback, now := r.now)
    ensures InWindow(q) == InWindow(r)
    ensures forall i :: ReadsOfInstance(q, i) == ReadsOfInstance(r, i)
    ensures forall i :: DirectReads(q, i) == DirectReads(r, i)
  {
    SelectCongruent(q.observations,
                    (o: Observation) => q.cutover < o.sequence <= q.cutoff,
                    (o: Observation) => r.cutover < o.sequence <= r.cutoff);
  }

  lemma SameLinks(q: Query, r: Query, id: Id)
    requires r == q.(lookback := r.lookback, now := r.now)
    ensures InstancesOf(q, id) == InstancesOf(r, id)
    ensures IdentitiesOf(q, id) == IdentitiesOf(r, id)
  {
    SelectCongruent(AscendingIds(q.snapshot.instances),
                    (i: Id) => i in q.identityOf && q.identityOf[i] == id,
                    (i: Id) => i in r.identityOf && r.identityOf[i] == id);
    SelectCongruent(AscendingIds(q.snapshot.identities),
                    (i: Id) => i in q.consumerOf && q.consumerOf[i] == id,
                    (i: Id) => i in r.consumerOf && r.consumerOf[i] == id);
  }

  lemma {:induction false} SameSummaries(a: seq<Member>, b: seq<Member>)
    requires |a| == |b|
    requires forall k :: 0 <= k < |a| ==> Undated(a[k]) == Undated(b[k])
    ensures LastTime(a) == LastTime(b) && FirstFetched(a) == FirstFetched(b)
  {
    if a != [] {
      assert Undated(a[0]) == Undated(b[0]);
      SameSummaries(a[1..], b[1..]);
    }
  }

  lemma SameVerdicts(a: seq<Member>, b: seq<Member>)
    requires |a| == |b|
    requires forall k :: 0 <= k < |a| ==> Undated(a[k]) == Undated(b[k])
    ensures Verdicts(a) == Verdicts(b)
  {
    forall k | 0 <= k < |a|
      ensures a[k].verdict == b[k].verdict && a[k].verdict in Verdicts(a) && b[k].verdict in Verdicts(b)
    {
      assert Undated(a[k]).verdict == Undated(b[k]).verdict;
      VerdictOf(a, k);
      VerdictOf(b, k);
    }
  }

  lemma SameInstance(q: Query, r: Query, id: Id)
    requires r == q.(lookback := r.lookback, now := r.now)
    ensures Undated(InstanceMember(q, id)) == Undated(InstanceMember(r, id))
  {
    SameReads(q, r);
  }

  lemma SameIdentity(q: Query, r: Query, id: Id)
    requires r == q.(lookback := r.lookback, now := r.now)
    ensures Undated(IdentityMember(q, id)) == Undated(IdentityMember(r, id))
  {
    SameReads(q, r);
    SameLinks(q, r, id);
    var ids := InstancesOf(q, id);
    var a, b := InstanceMembers(q, ids), InstanceMembers(r, ids);
    forall k | 0 <= k < |ids| ensures Undated(a[k]) == Undated(b[k]) { SameInstance(q, r, ids[k]); }
    SameSummaries(a, b);
    SameVerdicts(a, b);
  }

  lemma SameConsumer(q: Query, r: Query, id: Id)
    requires r == q.(lookback := r.lookback, now := r.now)
    ensures ConsumerMember(q, id) == ConsumerMember(r, id)
  {
    SameLinks(q, r, id);
    var ids := IdentitiesOf(q, id);
    var a, b := IdentityMembers(q, ids), IdentityMembers(r, ids);
    forall k | 0 <= k < |ids| ensures Undated(a[k]) == Undated(b[k]) { SameIdentity(q, r, ids[k]); }
    SameVerdicts(a, b);
  }

  lemma UndatedConcat(a: seq<Member>, b: seq<Member>, a': seq<Member>, b': seq<Member>)
    requires AllUndated(a) == AllUndated(a') && AllUndated(b) == AllUndated(b')
    ensures AllUndated(a + b) == AllUndated(a' + b')
  {
    assert AllUndated(a + b) == AllUndated(a) + AllUndated(b);
    assert AllUndated(a' + b') == AllUndated(a') + AllUndated(b');
  }

  lemma SameConsumers(q: Query, r: Query, ids: seq<Id>)
    requires r == q.(lookback := r.lookback, now := r.now)
    ensures AllUndated(ConsumerMembers(q, ids)) == AllUndated(ConsumerMembers(r, ids))
  {
    forall k | 0 <= k < |ids|
      ensures AllUndated(ConsumerMembers(q, ids))[k] == AllUndated(ConsumerMembers(r, ids))[k]
    {
      SameConsumer(q, r, ids[k]);
    }
  }

  lemma SameIdentities(q: Query, r: Query, ids: seq<Id>)
    requires r == q.(lookback := r.lookback, now := r.now)
    ensures AllUndated(IdentityMembers(q, ids)) == AllUndated(IdentityMembers(r, ids))
  {
    forall k | 0 <= k < |ids|
      ensures AllUndated(IdentityMembers(q, ids))[k] == AllUndated(IdentityMembers(r, ids))[k]
    {
      SameIdentity(q, r, ids[k]);
    }
  }

  lemma SameInstances(q: Query, r: Query, ids: seq<Id>)
    requires r == q.(lookback := r.lookback, now := r.now)
    ensures AllUndated(InstanceMembers(q, ids)) == AllUndated(InstanceMembers(r, ids))
  {
    forall k | 0 <= k < |ids|
      ensures AllUndated(InstanceMembers(q, ids))[k] == AllUndated(InstanceMembers(r, ids))[k]
    {
      SameInstance(q, r, ids[k]);
    }
  }

  /**
    The lookback window and the current time only annotate: two reports that differ in nothing
    else agree on members, order, verdicts, fetched versions and read times.
   */
  lemma LookbackOnlyAnnotates(q: Query, r: Query)
    requires r == q.(lookback := r.lookback, now := r.now)
    ensures AllUndated(Members(q)) == AllUndated(Members(r))
  {
    var cs := AscendingIds(q.snapshot.consumers);
    var ids := AscendingIds(q.snapshot.identities);
    var ins := AscendingIds(q.snapshot.instances);
    SameConsumers(q, r, cs);
    SameIdentities(q, r, ids);
    SameInstances(q, r, ins);
    UndatedConcat(ConsumerMembers(q, cs), IdentityMembers(q, ids), ConsumerMembers(r, cs), IdentityMembers(r, ids));
    UndatedConcat(ConsumerMembers(q, cs) + IdentityMembers(q, ids), InstanceMembers(q, ins),
                  ConsumerMembers(r, cs) + IdentityMembers(r, ids), InstanceMembers(r, ins));
  }

  // ---------------------------------------------------------------- the classifying loops

  /** `members.iter().find(..)` */
  function FindMember(members: seq<Member>, kind: Kind, id: Id): (r: Option<Member>)
    ensures r.Some? ==> r.value in members && r.value.kind == kind && r.value.id == id
    ensures r.None? ==> forall m :: m in members ==> m.kind != kind || m.id != id
  {
    if members == [] then None
    else if members[0].kind == kind && members[0].id == id then Some(members[0])
    else FindMember(members[1..], kind, id)
  }

  ghost predicate Holds(members: seq<Member>, q: Query, kind: Kind, ids: set<Id>) {
    && (forall i :: i in ids ==> (if kind == Instance then InstanceMember(q, i) else IdentityMember(q, i)) in members)
    && (forall m :: m in members && m.kind == kind ==>
          m == (if kind == Instance then InstanceMember(q, m.id) else IdentityMember(q, m.id)))
  }

  lemma LatterAssociates(a: Option<u64>, b: Option<u64>, c: Option<u64>)
    ensures Latter(Latter(a, b), c) == Latter(a, Latter(b, c))
  {
  }

  lemma VerdictsGrow(members: seq<Member>, n: nat)
    requires n < |members|
    ensures Verdicts(members[..n + 1]) == Verdicts(members[..n]) + {members[n].verdict}
  {
    assert members[..n + 1] == members[..n] + [members[n]];
  }

  /** Collects what the identity rollup needs from the members found so far. */
  method GatherInstances(q: Query, members: seq<Member>, ids: seq<Id>)
    returns (classes: set<Class>, last: Option<u64>, fetched: Option<u64>)
    requires Holds(members, q, Instance, q.snapshot.instances)
    requires forall i :: i in ids ==> i in q.snapshot.instances
    ensures classes == Verdicts(InstanceMembers(q, ids))
    ensures last == LastTime(InstanceMembers(q, ids))
    ensures fetched == FirstFetched(InstanceMembers(q, ids))
  {
    ghost var all := InstanceMembers(q, ids);
    classes, last, fetched := {}, None, None;
    for n := 0 to |ids|
      invariant classes == Verdicts(all[..n])
      invariant Latter(last, LastTime(all[n..])) == LastTime(all)
      invariant (if fetched.Some? then fetched else FirstFetched(all[n..])) == FirstFetched(all)
    {
      var found := FindMember(members, Instance, ids[n]);
      assert ids[n] in q.snapshot.instances;
      assert found == Some(all[n]);
      VerdictsGrow(all, n);
      LatterAssociates(last, all[n].lastRead, LastTime(all[n + 1..]));
      assert all[n..][0] == all[n] && all[n..][1..] == all[n + 1..];
      classes := classes + {found.value.verdict};
      last := Latter(last, found.value.lastRead);
      if fetched.None? { fetched := found.value.fetched; }
    }
    assert all[..|ids|] == all;
  }

  method GatherIdentities(q: Query, members: seq<Member>, ids: seq<Id>) returns (classes: set<Class>)
    requires Holds(members, q, Identity, q.snapshot.identities)
    requires forall i :: i in ids ==> i in q.snapshot.identities
    ensures classes == Verdicts(IdentityMembers(q, ids))
  {
    ghost var all := IdentityMembers(q, ids);
    classes := {};
    for n := 0 to |ids|
      invariant classes == Verdicts(all[..n])
    {
      var found := FindMember(members, Identity, ids[n]);
      assert ids[n] in q.snapshot.identities;
      assert found == Some(all[n]);
      VerdictsGrow(all, n);
      classes := classes + {found.value.verdict};
    }
    assert all[..|ids|] == all;
  }

  method ClassifyInstances(q: Query, ids: seq<Id>) returns (members: seq<Member>)
    ensures members == InstanceMembers(q, ids)
  {
    members := [];
    for n := 0 to |ids|
      invariant members == InstanceMembers(q, ids[..n])
    {
      var latest := Latest(ReadsOfInstance(q, ids[n]));
      var verdict := ClassOf(latest, q.target);
      if ids[n] in q.retired && verdict != OnCurrent {
        verdict := RetiredWithoutProof;
      }
      members := members
        + [Member(Instance, ids[n], verdict, FetchedOf(latest), TimeOf(latest),
                  LookbackExceeded(TimeOf(latest), q.lookback, q.now))];
    }
    assert ids[..|ids|] == ids;
  }

  lemma HoldsInstances(q: Query, ids: seq<Id>)
    ensures Holds(InstanceMembers(q, AscendingIds(q.snapshot.instances)) + IdentityMembers(q, ids),
                  q, Instance, q.snapshot.instances)
  {
    var members := InstanceMembers(q, AscendingIds(q.snapshot.instances));
    forall i | i in q.snapshot.instances ensures InstanceMember(q, i) in members {
      InInstances(q, InstanceMember(q, i));
    }
    forall m | m in members ensures m == InstanceMember(q, m.id) {
      InInstances(q, m);
    }
    RanksOf(q, [], ids, []);
  }

  lemma HoldsIdentities(q: Query, ids: seq<Id>)
    ensures Holds(InstanceMembers(q, AscendingIds(q.snapshot.instances))
                  + IdentityMembers(q, AscendingIds(q.snapshot.identities))
                  + ConsumerMembers(q, ids), q, Identity, q.snapshot.identities)
  {
    var members := IdentityMembers(q, AscendingIds(q.snapshot.identities));
    forall i | i in q.snapshot.identities ensures IdentityMember(q, i) in members {
      InIdentities(q, IdentityMember(q, i));
    }
    forall m | m in members ensures m == IdentityMember(q, m.id) {
      InIdentities(q, m);
    }
    RanksOf(q, ids, [], AscendingIds(q.snapshot.instances));
  }

  lemma OneMoreIdentity(q: Query, ids: seq<Id>, n: nat)
    requires n < |ids|
    ensures IdentityMembers(q, ids[..n + 1]) == IdentityMembers(q, ids[..n]) + [IdentityMember(q, ids[n])]
  {
  }

  lemma OneMoreConsumer(q: Query, ids: seq<Id>, n: nat)
    requires n < |ids|
    ensures ConsumerMembers(q, ids[..n + 1]) == ConsumerMembers(q, ids[..n]) + [ConsumerMember(q, ids[n])]
  {
  }

  method ClassifyIdentity(q: Query, members: seq<Member>, id: Id) returns (member: Member)
    requires Holds(members, q, Instance, q.snapshot.instances)
    ensures member == IdentityMember(q, id)
  {
    var instances := InstancesOf(q, id);
    if instances == [] {
      var latest := Latest(DirectReads(q, id));
      var verdict := if latest.None? then NoInstanceObservation else ClassOf(latest, q.target);
      return Member(Identity, id, verdict, FetchedOf(latest), TimeOf(latest),
                    LookbackExceeded(TimeOf(latest), q.lookback, q.now));
    }
    var classes, last, fetched := GatherInstances(q, members, instances);
    return Member(Identity, id, InstanceRollup(classes), fetched, last,
                  LookbackExceeded(last, q.lookback, q.now));
  }

  method ClassifyIdentities(q: Query, instances: seq<Member>, ids: seq<Id>) returns (members: seq<Member>)
    requires instances == InstanceMembers(q, AscendingIds(q.snapshot.instances))
    ensures members == instances + IdentityMembers(q, ids)
  {
    var added: seq<Member> := [];
    for n := 0 to |ids|
      invariant added == IdentityMembers(q, ids[..n])
    {
      HoldsInstances(q, ids[..n]);
      var member := ClassifyIdentity(q, instances + added, ids[n]);
      OneMoreIdentity(q, ids, n);
      added := added + [member];
    }
    assert ids[..|ids|] == ids;
    members := instances + added;
  }

  method ClassifyConsumer(q: Query, members: seq<Member>, id: Id) returns (member: Member)
    requires Holds(members, q, Identity, q.snapshot.identities)
    ensures member == ConsumerMember(q, id)
  {
    var mine := IdentitiesOf(q, id);
    if mine == [] { return Member(Consumer, id, SilentSinceWrite, None, None, false); }
    var classes := GatherIdentities(q, members, mine);
    return Member(Consumer, id, IdentityRollup(classes), None, None, false);
  }

  method ClassifyConsumers(q: Query, upper: seq<Member>, ids: seq<Id>) returns (members: seq<Member>)
    requires upper == InstanceMembers(q, AscendingIds(q.snapshot.instances))
                      + IdentityMembers(q, AscendingIds(q.snapshot.identities))
    ensures members == upper + ConsumerMembers(q, ids)
  {
    var added: seq<Member> := [];
    for n := 0 to |ids|
      invariant added == ConsumerMembers(q, ids[..n])
    {
      HoldsIdentities(q, ids[..n]);
      var member := ClassifyConsumer(q, upper + added, ids[n]);
      OneMoreConsumer(q, ids, n);
      added := added + [member];
    }
    assert ids[..|ids|] == ids;
    members := upper + added;
  }

  lemma Rearranged(a: seq<Member>, b: seq<Member>, c: seq<Member>)
    ensures multiset(a + b + c) == multiset(c + b + a)
  {
  }

  /** `classify_adoption`: three loops over one growing list, then a sort. */
  method ClassifyAdoption(q: Query) returns (r: Result<seq<Member>, ()>)
    ensures r == if q.cutoff < q.cutover then Err(()) else Ok(Members(q))
  {
    if q.cutoff < q.cutover { return Err(()); }
    var instances := ClassifyInstances(q, AscendingIds(q.snapshot.instances));
    var upper := ClassifyIdentities(q, instances, AscendingIds(q.snapshot.identities));
    var members := ClassifyConsumers(q, upper, AscendingIds(q.snapshot.consumers));
    BeforeIsOrder();
    OneMemberEach(q);
    Rearranged(instances, IdentityMembers(q, AscendingIds(q.snapshot.identities)),
               ConsumerMembers(q, AscendingIds(q.snapshot.consumers)));
    SortFinds(members, Members(q), Before);
    return Ok(Sort(members, Before));
  }
}
