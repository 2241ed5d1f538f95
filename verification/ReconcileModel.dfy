/**
  Reconciliation of declared, authorized and observed consumers of one resource.

  Whether an identity's grants allow reading the resource is the set `allowed`.
 */
module ReconcileModel {
  import opened Prelude
  import opened Text
  import opened RowKeys
  import opened Sequences

  datatype Lifecycle = Absent | Declared | Migrated | Retired

  /** The registry states a declaration can be in. */
  type Registered = l: Lifecycle | !l.Absent? witness Declared

  datatype Declaration = Declaration(
    consumer: Id, instance: Option<Id>, resource: Bytes, identity: Option<Id>, lifecycle: Registered)

  datatype Read = Read(
    identity: Id, instance: Option<Id>, resource: Bytes, at: u64, version: u64, authenticated: bool)

  datatype Account = Account(id: Id, active: bool)

  datatype Snapshot = Snapshot(
    cutoff: u64, now: u64, lookback: u64,
    declaredVerified: bool, authorizationVerified: bool, auditVerified: bool,
    declarations: seq<Declaration>, accounts: seq<Account>, allowed: set<Id>, events: seq<Read>)

  datatype Authorization = Authorized | Unauthorized | IdentityMissing

  datatype Flag =
    | DeclaredUnmigrated | DeclaredUnauthorized | AuthorizedUndeclared | MigratedUnobserved
    | ObservedUndeclared | ReconciledObserved | RetiredHistorical

  datatype Row = Row(
    key: Bytes, consumer: Option<Id>, instance: Option<Id>, identity: Option<Id>, lifecycle: Lifecycle,
    authorization: Authorization, observed: bool, lastRead: Option<u64>, version: Option<u64>, flags: set<Flag>)

  datatype Page = Page(
    cutoff: u64, declaredCount: nat, authorizedCount: nat, observedCount: nat, rows: seq<Row>, next: Option<Bytes>)

  datatype ReconcileError = Invalid | SourceFailure | ObservationIntegrity | Limit

  const MAX_ROWS: nat := 10_000

  /** What was read by one identity through one instance. */
  type ReadKey = (Id, Option<Id>)

  type Observations = map<ReadKey, Read>

  // ---------------------------------------------------------------- sources

  predicate Relevant(s: Snapshot, resource: Bytes, e: Read) {
    e.resource == resource && e.at >= SaturatingSub(s.now, s.lookback)
  }

  predicate Sound(s: Snapshot, e: Read) {
    e.authenticated && e.identity != 0 && e.version != 0 && e.at <= s.now
  }

  predicate Older(a: Read, b: Read) {
    a.at < b.at || (a.at == b.at && a.version < b.version)
  }

  function Noted(observed: Observations, e: Read): Observations {
    var key := (e.identity, e.instance);
    if key !in observed || Older(observed[key], e) then observed[key := e] else observed
  }

  /** The latest relevant read under each key. */
  function Observed(s: Snapshot, resource: Bytes, events: seq<Read>): Observations {
    if events == [] then map[]
    else
      var before := Observed(s, resource, events[..|events| - 1]);
      var e := events[|events| - 1];
      if Relevant(s, resource, e) then Noted(before, e) else before
  }

  function DeclaredFor(declarations: seq<Declaration>, resource: Bytes): seq<Declaration> {
    if declarations == [] then []
    else
      var rest := DeclaredFor(declarations[1..], resource);
      if declarations[0].resource == resource then [declarations[0]] + rest else rest
  }

  datatype Facts = Facts(known: set<Id>, authorized: set<Id>, observed: Observations, declarations: seq<Declaration>)

  function FactsOf(s: Snapshot, resource: Bytes): Facts {
    Facts(set a | a in s.accounts :: a.id,
          set a | a in s.accounts && a.active && a.id in s.allowed :: a.id,
          Observed(s, resource, s.events),
          DeclaredFor(s.declarations, resource))
  }

  /** A mount and at least one segment, none of them empty. */
  predicate Addressable(resource: Bytes) {
    var parts := Split(resource, SLASH);
    |parts| >= 2 && [] !in parts
  }

  // ---------------------------------------------------------------- rows

  function Flags(lifecycle: Lifecycle, authorization: Authorization, observed: bool): set<Flag> {
    (if lifecycle.Declared? then {DeclaredUnmigrated} else {})
    + (if (lifecycle.Declared? || lifecycle.Migrated?) && !authorization.Authorized? then {DeclaredUnauthorized} else {})
    + (if lifecycle.Absent? && authorization.Authorized? then {AuthorizedUndeclared} else {})
    + (if lifecycle.Migrated? && authorization.Authorized? && !observed then {MigratedUnobserved} else {})
    + (if lifecycle.Absent? && observed then {ObservedUndeclared} else {})
    + (if lifecycle.Migrated? && authorization.Authorized? && observed then {ReconciledObserved} else {})
    + (if lifecycle.Retired? then {RetiredHistorical} else {})
  }

  function BuildRow(consumer: Option<Id>, instance: Option<Id>, identity: Option<Id>, lifecycle: Lifecycle,
                    authorization: Authorization, event: Option<Read>): Row
  {
    Row(Key(consumer, instance, identity), consumer, instance, identity, lifecycle, authorization, event.Some?,
        if event.Some? then Some(event.value.at) else None,
        if event.Some? then Some(event.value.version) else None,
        Flags(lifecycle, authorization, event.Some?))
  }

  function AuthorizationOf(f: Facts, identity: Id): Authorization {
    if identity !in f.known then IdentityMissing
    else if identity in f.authorized then Authorized else Unauthorized
  }

  function Lookup(observed: Observations, k: ReadKey): Option<Read> {
    if k in observed then Some(observed[k]) else None
  }

  function DeclaredRow(f: Facts, d: Declaration): Row {
    match d.identity
    case None => BuildRow(Some(d.consumer), d.instance, None, d.lifecycle, IdentityMissing, None)
    case Some(id) =>
      var own := Lookup(f.observed, (id, d.instance));
      BuildRow(Some(d.consumer), d.instance, Some(id), d.lifecycle, AuthorizationOf(f, id),
               if own.Some? then own else Lookup(f.observed, (id, None)))
  }

  function DeclaredRows(f: Facts, declarations: seq<Declaration>): (rows: seq<Row>)
    ensures |rows| == |declarations|
  {
    if declarations == [] then [] else [DeclaredRow(f, declarations[0])] + DeclaredRows(f, declarations[1..])
  }

  predicate HasActive(f: Facts, identity: Id) {
    exists d :: d in f.declarations && d.identity == Some(identity) && !d.lifecycle.Retired?
  }

  function Through(identity: Id, instances: seq<Id>): seq<ReadKey> {
    if instances == [] then [] else [(identity, Some(instances[0]))] + Through(identity, instances[1..])
  }

  function InstancesOf(observed: Observations, identity: Id): set<Id> {
    set k | k in observed && k.0 == identity && k.1.Some? :: k.1.value
  }

  /** The keys of one identity in map order: none first, then instances ascending. */
  function KeysOf(observed: Observations, identity: Id): seq<ReadKey> {
    (if (identity, None) in observed then [(identity, None)] else [])
    + Through(identity, AscendingIds(InstancesOf(observed, identity)))
  }

  function KeysOfAll(observed: Observations, identities: seq<Id>): seq<ReadKey> {
    if identities == [] then [] else KeysOf(observed, identities[0]) + KeysOfAll(observed, identities[1..])
  }

  function Readers(observed: Observations): set<Id> { set k | k in observed :: k.0 }

  /** The most recent read under the keys, the last one of several. */
  function Latest(observed: Observations, keys: seq<ReadKey>): Option<Read>
    requires forall k :: k in keys ==> k in observed
  {
    if keys == [] then None
    else
      var before := Latest(observed, keys[..|keys| - 1]);
      var e := observed[keys[|keys| - 1]];
      if before.Some? && before.value.at > e.at then before else Some(e)
  }

  lemma KeysOfObserved(observed: Observations, identity: Id)
    ensures forall k :: k in KeysOf(observed, identity) <==> k in observed && k.0 == identity
  {
    ThroughHolds(identity, AscendingIds(InstancesOf(observed, identity)));
    forall k | k in observed && k.0 == identity
      ensures k in KeysOf(observed, identity)
    {
      if k.1.Some? {
        assert k.1.value in InstancesOf(observed, identity);
        assert k == (identity, Some(k.1.value));
      } else {
        assert k == (identity, None);
      }
    }
  }

  lemma {:induction false} ThroughHolds(identity: Id, instances: seq<Id>)
    ensures forall k :: k in Through(identity, instances)
              <==> k.0 == identity && k.1.Some? && k.1.value in instances
  {
    if instances != [] {
      ThroughHolds(identity, instances[1..]);
      forall k: ReadKey
        ensures k in Through(identity, instances) <==> k.0 == identity && k.1.Some? && k.1.value in instances
      {
        assert k == (identity, Some(instances[0])) <==> k.0 == identity && k.1 == Some(instances[0]);
      }
    }
  }

  function AuthorizedRow(f: Facts, identity: Id): Row {
    KeysOfObserved(f.observed, identity);
    var event := Latest(f.observed, KeysOf(f.observed, identity));
    BuildRow(None, if event.Some? then event.value.instance else None, Some(identity), Absent, Authorized, event)
  }

  function AddAuthorized(f: Facts, rows: seq<Row>, identities: seq<Id>): seq<Row>
    decreases |identities|
  {
    if identities == [] then rows
    else
      AddAuthorized(f, if HasActive(f, identities[0]) then rows else rows + [AuthorizedRow(f, identities[0])],
                    identities[1..])
  }

  predicate Covered(f: Facts, k: ReadKey) {
    exists d :: d in f.declarations && d.identity == Some(k.0) && !d.lifecycle.Retired?
                && (d.instance == k.1 || d.instance.None?)
  }

  predicate HasUndeclared(rows: seq<Row>, k: ReadKey) {
    exists r :: r in rows && r.consumer.None? && r.identity == Some(k.0) && r.instance == k.1
  }

  function ObservedRow(f: Facts, k: ReadKey): Row
    requires k in f.observed
  {
    BuildRow(None, k.1, Some(k.0), Absent, AuthorizationOf(f, k.0), Some(f.observed[k]))
  }

  function AddObserved(f: Facts, rows: seq<Row>, keys: seq<ReadKey>): seq<Row>
    requires forall k :: k in keys ==> k in f.observed
    decreases |keys|
  {
    if keys == [] then rows
    else
      assert keys[0] in keys;
      AddObserved(f, if Covered(f, keys[0]) || HasUndeclared(rows, keys[0]) then rows
                     else rows + [ObservedRow(f, keys[0])],
                  keys[1..])
  }

  lemma {:induction false} KeysOfAllObserved(observed: Observations, identities: seq<Id>)
    ensures forall k :: k in KeysOfAll(observed, identities) <==> k in observed && k.0 in identities
  {
    if identities != [] {
      KeysOfObserved(observed, identities[0]);
      KeysOfAllObserved(observed, identities[1..]);
    }
  }

  /** The keys of the map in order. */
  function ObservedKeys(observed: Observations): (keys: seq<ReadKey>)
    ensures forall k :: k in keys <==> k in observed
  {
    var readers := AscendingIds(Readers(observed));
    KeysOfAllObserved(observed, readers);
    assert forall k :: k in observed ==> k.0 in Readers(observed);
    KeysOfAll(observed, readers)
  }

  function AllRows(f: Facts): seq<Row> {
    AddObserved(f, AddAuthorized(f, DeclaredRows(f, f.declarations), AscendingIds(f.authorized)),
                ObservedKeys(f.observed))
  }

  // ---------------------------------------------------------------- sorting and paging

  function RowBefore(): (Row, Row) -> bool { (a: Row, b: Row) => Before(a.key, b.key) }

  /** Keep the first of each run of equal keys. */
  function Dedup(rows: seq<Row>): (kept: seq<Row>)
    ensures rows != [] ==> kept != []
  {
    if rows == [] then []
    else
      var last := rows[|rows| - 1];
      var before := Dedup(rows[..|rows| - 1]);
      if before != [] && before[|before| - 1].key == last.key then before else before + [last]
  }

  function Tidy(rows: seq<Row>): seq<Row> { Dedup(Sort(rows, RowBefore())) }

  function Eligible(rows: seq<Row>, cursor: Option<Bytes>): seq<Row> {
    if rows == [] then []
    else
      var rest := Eligible(rows[1..], cursor);
      if cursor.None? || Before(cursor.value, rows[0].key) then [rows[0]] + rest else rest
  }

  function PageOf(rows: seq<Row>, cursor: Option<Bytes>, limit: nat): (seq<Row>, Option<Bytes>)
    requires limit > 0
  {
    var eligible := Eligible(rows, cursor);
    if |eligible| <= limit then (eligible, None) else (eligible[..limit], Some(eligible[limit - 1].key))
  }

  predicate DistinctAccounts(accounts: seq<Account>) {
    forall i, j :: 0 <= i < j < |accounts| ==> accounts[i].id != accounts[j].id
  }

  /** Why a snapshot cannot be reconciled, before any row is built. */
  function Refusal(s: Snapshot, resource: Bytes, limit: nat): Option<ReconcileError> {
    if s.cutoff == 0 || s.now == 0 || s.lookback == 0 || resource == [] || limit == 0 || limit > MAX_ROWS
    then Some(Invalid)
    else if !(s.declaredVerified && s.authorizationVerified && s.auditVerified) then Some(SourceFailure)
    else if exists e :: e in s.events && Relevant(s, resource, e) && !Sound(s, e) then Some(ObservationIntegrity)
    else if !DistinctAccounts(s.accounts) then Some(SourceFailure)
    else if !Addressable(resource) then Some(Invalid)
    else None
  }

  function Reconcile(s: Snapshot, resource: Bytes, cursor: Option<Bytes>, limit: nat): Result<Page, ReconcileError> {
    var refusal := Refusal(s, resource, limit);
    if refusal.Some? then Err(refusal.value)
    else
      var f := FactsOf(s, resource);
      var rows := Tidy(AllRows(f));
      if |rows| > MAX_ROWS then Err(Limit)
      else
        var (page, next) := PageOf(rows, cursor, limit);
        Ok(Page(s.cutoff, |f.declarations|, |f.authorized|, |f.observed|, page, next))
  }
}
