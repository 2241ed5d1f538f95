/**
  Post-cutover adoption: which instances, identities and consumers have fetched the target
  version, from the audited reads strictly after the cutover and up to the cutoff.
 */
module Adoption {
  import opened Prelude
  import opened Sequences

  datatype Class = OnCurrent | OnPrior | SilentSinceWrite | NoInstanceObservation | RetiredWithoutProof

  /** The source names kinds by strings; this is their order. */
  datatype Kind = Consumer | Identity | Instance

  datatype Observation = Observation(
    sequence: u64, identity: Id, instance: Option<Id>, version: u64, effective: u64)

  datatype Member = Member(
    kind: Kind, id: Id, verdict: Class, fetched: Option<u64>, lastRead: Option<u64>, lookbackExceeded: bool)

  datatype Snapshot = Snapshot(consumers: set<Id>, identities: set<Id>, instances: set<Id>)

  datatype Query = Query(
    snapshot: Snapshot,
    target: u64,
    cutover: u64,
    cutoff: u64,
    observations: seq<Observation>,
    retired: set<Id>,
    lookback: Option<u64>,
    now: u64,
    identityOf: map<Id, Id>,
    consumerOf: map<Id, Id>)

  // ---------------------------------------------------------------- reads

  function InWindow(q: Query): (r: seq<Observation>) {
    Select(q.observations, (o: Observation) => q.cutover < o.sequence <= q.cutoff)
  }

  function ReadsOfInstance(q: Query, instance: Id): seq<Observation> {
    Select(InWindow(q), (o: Observation) => o.instance == Some(instance))
  }

  function DirectReads(q: Query, identity: Id): seq<Observation> {
    Select(InWindow(q), (o: Observation) => o.identity == identity && o.instance == None)
  }

  /** `max_by_key`: the greatest sequence number, the last one among equals. */
  function Latest(seen: seq<Observation>): (r: Option<Observation>)
    ensures r.None? <==> seen == []
    ensures r.Some? ==> r.value in seen
  {
    if seen == [] then None
    else
      var last := seen[|seen| - 1];
      var before := Latest(seen[..|seen| - 1]);
      if before.Some? && last.sequence < before.value.sequence then before else Some(last)
  }

  ghost predicate IsLatestAt(seen: seq<Observation>, i: int) {
    && 0 <= i < |seen|
    && (forall j :: 0 <= j < i ==> seen[j].sequence <= seen[i].sequence)
    && (forall j :: i < j < |seen| ==> seen[j].sequence < seen[i].sequence)
  }

  lemma LatestExtends(seen: seq<Observation>, i: int)
    requires seen != [] && IsLatestAt(seen[..|seen| - 1], i)
    ensures IsLatestAt(seen, if seen[|seen| - 1].sequence < seen[i].sequence then i else |seen| - 1)
  {
    var n := |seen| - 1;
    assert forall j :: 0 <= j < n ==> seen[..n][j] == seen[j];
    assert forall j :: 0 <= j < n ==> seen[j].sequence <= seen[i].sequence;
  }

  /** The pick is the greatest in sequence and, among equals, the last. */
  lemma {:induction false} LatestIsLatest(seen: seq<Observation>)
    requires seen != []
    ensures exists i :: IsLatestAt(seen, i) && Latest(seen) == Some(seen[i])
  {
    var n := |seen| - 1;
    if n == 0 {
      assert IsLatestAt(seen, 0);
    } else {
      LatestIsLatest(seen[..n]);
      var i :| IsLatestAt(seen[..n], i) && Latest(seen[..n]) == Some(seen[..n][i]);
      LatestExtends(seen, i);
    }
  }

  function ClassOf(latest: Option<Observation>, target: u64): Class {
    if latest.None? then SilentSinceWrite
    else if latest.value.version == target then OnCurrent
    else OnPrior
  }

  function FetchedOf(latest: Option<Observation>): Option<u64> {
    if latest.None? then None else Some(latest.value.version)
  }

  function TimeOf(latest: Option<Observation>): Option<u64> {
    if latest.None? then None else Some(latest.value.effective)
  }

  function LookbackExceeded(last: Option<u64>, lookback: Option<u64>, now: u64): bool {
    last.Some? && lookback.Some? && SaturatingSub(now, last.value) > lookback.value
  }

  // ---------------------------------------------------------------- members

  function InstanceMember(q: Query, id: Id): Member {
    var latest := Latest(ReadsOfInstance(q, id));
    var verdict := ClassOf(latest, q.target);
    Member(Instance, id,
           if id in q.retired && verdict != OnCurrent then RetiredWithoutProof else verdict,
           FetchedOf(latest), TimeOf(latest), LookbackExceeded(TimeOf(latest), q.lookback, q.now))
  }

  /** The instances of an identity, in order. */
  function InstancesOf(q: Query, identity: Id): seq<Id> {
    Select(AscendingIds(q.snapshot.instances), (i: Id) => i in q.identityOf && q.identityOf[i] == identity)
  }

  function IdentitiesOf(q: Query, consumer: Id): seq<Id> {
    Select(AscendingIds(q.snapshot.identities), (i: Id) => i in q.consumerOf && q.consumerOf[i] == consumer)
  }

  function Verdicts(members: seq<Member>): set<Class> {
    set m | m in members :: m.verdict
  }

  function InstanceRollup(classes: set<Class>): Class {
    if |classes| == 1 then SoleClass(classes)
    else if OnPrior in classes then OnPrior
    else if SilentSinceWrite in classes then SilentSinceWrite
    else if RetiredWithoutProof in classes then RetiredWithoutProof
    else OnCurrent
  }

  /** The only element of a singleton. */
  function SoleClass(classes: set<Class>): (c: Class)
    requires |classes| == 1
    ensures c in classes
  {
    SoleElement(classes);
    var c :| c in classes;
    c
  }

  lemma SoleElement(classes: set<Class>)
    requires |classes| == 1
    ensures exists c :: c in classes
    ensures forall c, d :: c in classes && d in classes ==> c == d
  {
    var c :| c in classes;
    assert |classes - {c}| == 0;
    assert forall d :: d in classes ==> d == c || d in classes - {c};
  }

  function IdentityRollup(classes: set<Class>): Class {
    if OnPrior in classes then OnPrior
    else if SilentSinceWrite in classes || NoInstanceObservation in classes then SilentSinceWrite
    else if RetiredWithoutProof in classes then RetiredWithoutProof
    else OnCurrent
  }

  function Latter(a: Option<u64>, b: Option<u64>): Option<u64> {
    if a.None? then b else if b.None? then a else Some(Max(a.value, b.value))
  }

  /** The greatest read time among some members. */
  function LastTime(members: seq<Member>): Option<u64> {
    if members == [] then None else Latter(members[0].lastRead, LastTime(members[1..]))
  }

  /** The first fetched version among some members. */
  function FirstFetched(members: seq<Member>): Option<u64> {
    if members == [] then None
    else if members[0].fetched.Some? then members[0].fetched
    else FirstFetched(members[1..])
  }

  function InstanceMembers(q: Query, ids: seq<Id>): (r: seq<Member>) {
    seq(|ids|, k requires 0 <= k < |ids| => InstanceMember(q, ids[k]))
  }

  function IdentityMember(q: Query, id: Id): Member {
    var instances := InstancesOf(q, id);
    if instances == [] then
      var latest := Latest(DirectReads(q, id));
      Member(Identity, id,
             if latest.None? then NoInstanceObservation else ClassOf(latest, q.target),
             FetchedOf(latest), TimeOf(latest), LookbackExceeded(TimeOf(latest), q.lookback, q.now))
    else
      var members := InstanceMembers(q, instances);
      var last := LastTime(members);
      Member(Identity, id, InstanceRollup(Verdicts(members)), FirstFetched(members),
             last, LookbackExceeded(last, q.lookback, q.now))
  }

  function IdentityMembers(q: Query, ids: seq<Id>): (r: seq<Member>) {
    seq(|ids|, k requires 0 <= k < |ids| => IdentityMember(q, ids[k]))
  }

  function ConsumerMember(q: Query, id: Id): Member {
    var identities := IdentitiesOf(q, id);
    Member(Consumer, id,
           if identities == [] then SilentSinceWrite
           else IdentityRollup(Verdicts(IdentityMembers(q, identities))),
           None, None, false)
  }

  function ConsumerMembers(q: Query, ids: seq<Id>): (r: seq<Member>) {
    seq(|ids|, k requires 0 <= k < |ids| => ConsumerMember(q, ids[k]))
  }

  /** The whole report: consumers, identities, instances, each in identifier order. */
  function Members(q: Query): seq<Member> {
    ConsumerMembers(q, AscendingIds(q.snapshot.consumers))
    + IdentityMembers(q, AscendingIds(q.snapshot.identities))
    + InstanceMembers(q, AscendingIds(q.snapshot.instances))
  }
}
