/**
  The versioned KV store as a value: one function per critical section of `KvService`.

  Each function takes the catalog as it is when the lock is taken and gives the catalog as it is
  when the lock is released, with the result. Authorization decisions are the `allowed`
  parameters; a secret is its JSON encoding (never shorter than `{}`) with the verdict of the
  shape check.
 */
module KvModel {
  import opened Prelude
  import opened Text
  import opened Endpoints

  const MAX_SECRET_ENCODED_BYTES := 512 * 1024
  const MAX_VERSION_BATCH := 64
  const MAX_VERSIONS := 1024
  const DEFAULT_MAX_VERSIONS := 10

  type VersionLimit = n: nat | 1 <= n <= 1024 witness 1

  type Payload = s: Bytes | |s| >= 2 witness [0x7B, 0x7D]

  datatype Secret = Secret(encoded: Payload, bounded: bool)

  datatype VersionState = Live | SoftDeleted | Destroyed

  datatype VersionValue = VersionValue(
    encoded: Bytes, created: u64, state: VersionState, deletion: Option<u64>)

  datatype Entry = Entry(
    generation: u64,
    current: u64,
    versions: map<u64, VersionValue>,
    casRequired: Option<bool>,
    maxVersions: Option<VersionLimit>,
    protectedVersion: Option<u64>,
    protectionKnown: bool,
    retentionDeferred: bool,
    customMetadata: map<Bytes, Bytes>)

  datatype Operation =
    | ReadOp | WriteOp | MetadataWriteOp | SoftDeleteOp | UndeleteOp | DestroyOp
    | RotationCutoverOp | RotationRollbackOp | PurgeOp

  datatype AuditOutcome = Succeeded | Denied | Failed

  datatype AuditReason =
    | PermissionDeniedReason | CasConflictReason | NotFoundReason | ResourceMismatchReason
    | ReasonRequiredReason | UnknownProtectionReason | ProtectedReason | StaleReason
    | ConfirmationReason | Stated(text: Bytes)

  datatype Event = Event(
    identity: Id, path: Bytes, operation: Operation, outcome: AuditOutcome,
    version: Option<u64>, reason: Option<AuditReason>)

  datatype Catalog = Catalog(
    casRequired: bool,
    maxVersions: VersionLimit,
    now: u64,
    entries: map<Bytes, Entry>,
    audit: seq<Event>,
    failNextRead: bool,
    failNextPurge: bool)

  datatype KvError =
    | Invalid | UnsupportedMount | PermissionDenied | CasConflict | NotFound
    | VersionUnavailable(version: u64, deletionTime: u64, destroyed: bool)
    | UnsupportedField | BoundExceeded | ResourceMismatch | ReasonRequired
    | ConfirmationRequired | StaleCeremony | RotationProtected | UnknownRotationProtection
    | Internal

  datatype Written = Written(version: u64, created: u64)
  datatype ReadOut = ReadOut(encoded: Bytes, version: u64, created: u64)
  datatype Preflight = Preflight(generation: u64, count: nat)
  datatype Snapshot = Snapshot(current: u64, protection: Option<u64>)

  datatype Action = SoftDeleteAction | UndeleteAction | DestroyAction

  datatype MetadataUpdate = MetadataUpdate(
    casRequired: Option<bool>,
    maxVersions: Option<u16>,
    deleteVersionAfterSupported: bool,
    customMetadata: Option<map<Bytes, Bytes>>,
    customBounded: bool)

  /** The hash over target, counts and reason, taken to be collision free. */
  datatype Confirmation = Confirmation(resource: Resource, generation: u64, count: u64, reason: Bytes)

  datatype PurgeRequest = PurgeRequest(
    resource: Resource,
    expectedGeneration: u64,
    expectedCount: u64,
    reason: Bytes,
    confirmation: Option<Confirmation>)

  // ---------------------------------------------------------------- entries

  function NewEntry(): Entry {
    Entry(1, 0, map[], None, None, None, true, false, map[])
  }

  function NewCatalog(casRequired: bool, now: u64): Catalog {
    Catalog(casRequired, DEFAULT_MAX_VERSIONS, now, map[], [], false, false)
  }

  /** What pruning may drop: neither the protected nor the current version. */
  function Candidates(e: Entry): set<u64> {
    set v | v in e.versions && Some(v) != e.protectedVersion && v != e.current
  }

  /** Retention: drop the oldest candidate until the limit is met or none is left. */
  function Prune(e: Entry, max: nat): (r: Entry)
    decreases |e.versions|
  {
    if |e.versions| <= max then e.(retentionDeferred := false)
    else if Candidates(e) == {} then e.(retentionDeferred := true)
    else
      var oldest := Least(Candidates(e));
      var rest := e.versions - {oldest};
      assert rest.Keys == e.versions.Keys - {oldest};
      assert |rest| == |rest.Keys|;
      Prune(e.(versions := rest), max)
  }

  /** The generation bump that closes every mutation; `false` when it overflows. */
  function Bump(e: Entry): (Entry, bool) {
    if e.generation == U64_MAX then (e, false) else (e.(generation := e.generation + 1), true)
  }

  /**
    Appending a version. The version counter moves before the generation check, so an entry whose
    generation is exhausted is left with a current version it does not hold.
   */
  function Append(e: Entry, encoded: Bytes, created: u64): (Entry, Option<u64>) {
    if e.current == U64_MAX then (e, None)
    else
      var version: u64 := e.current + 1;
      var (bumped, ok) := Bump(e.(current := version));
      if !ok then (bumped, None)
      else
        (bumped.(versions := bumped.versions[version := VersionValue(encoded, created, Live, None)]),
         Some(version))
  }

  function Limit(c: Catalog, e: Entry): nat {
    if e.maxVersions.Some? then e.maxVersions.value else c.maxVersions
  }

  /** A plain write to an entry: append, then apply the retention limit. */
  function AppendAndPrune(c: Catalog, e: Entry, encoded: Bytes): (Entry, Option<u64>) {
    var (grown, version) := Append(e, encoded, c.now);
    (if version.Some? then Prune(grown, Limit(c, grown)) else grown, version)
  }

  /** Lifting the protection of an entry, then applying the retention limit. */
  function Unprotect(c: Catalog, e: Entry): (Entry, bool) {
    var (bumped, ok) := Bump(e.(protectedVersion := None));
    (if ok then Prune(bumped, Limit(c, bumped)) else bumped, ok)
  }

  /** The entry a path names, or the blank one its first use creates. */
  function EntryAt(c: Catalog, path: Bytes): Entry {
    if path in c.entries then c.entries[path] else NewEntry()
  }

  function Changed(action: Action, value: VersionValue, now: u64): VersionValue {
    match action
    case SoftDeleteAction => value.(state := SoftDeleted, deletion := Some(now))
    case UndeleteAction =>
      if value.state == SoftDeleted then value.(state := Live, deletion := None) else value
    case DestroyAction => value.(encoded := [], state := Destroyed, deletion := None)
  }

  function ChangeAll(
    versions: map<u64, VersionValue>, batch: seq<u64>, action: Action, now: u64)
    : (r: map<u64, VersionValue>)
  {
    map v | v in versions :: if v in batch then Changed(action, versions[v], now) else versions[v]
  }

  function Unavailable(version: u64, value: VersionValue): KvError {
    VersionUnavailable(
      version,
      if value.deletion.Some? then value.deletion.value else 0,
      value.state == Destroyed)
  }

  // ---------------------------------------------------------------- shared checks

  function CheckEndpoint(endpoint: Endpoint, kind: EndpointKind): Option<KvError> {
    if endpoint.resource.mount != SECRET_MOUNT then Some(UnsupportedMount)
    else if endpoint.kind != kind then Some(Invalid)
    else None
  }

  predicate Repeats(batch: seq<u64>) {
    exists i, j :: 0 <= i < j < |batch| && batch[i] == batch[j]
  }

  predicate AnyMissing(e: Entry, batch: seq<u64>) {
    exists v :: v in batch && v !in e.versions
  }

  predicate AnyDestroyed(e: Entry, batch: seq<u64>) {
    exists v :: v in batch && v in e.versions && e.versions[v].state == Destroyed
  }

  function CheckVersions(batch: seq<u64>): Option<KvError> {
    if |batch| > MAX_VERSION_BATCH then Some(BoundExceeded)
    else if batch == [] then Some(Invalid)
    else if Repeats(batch) || 0 in batch then Some(Invalid)
    else None
  }

  function Logged(c: Catalog, event: Event): Catalog {
    c.(audit := c.audit + [event])
  }

  function Put(c: Catalog, path: Bytes, e: Entry): Catalog {
    c.(entries := c.entries[path := e])
  }

  function ActionKind(action: Action): EndpointKind {
    match action
    case SoftDeleteAction => Delete
    case UndeleteAction => Undelete
    case DestroyAction => Destroy
  }

  function ActionOp(action: Action): Operation {
    match action
    case SoftDeleteAction => SoftDeleteOp
    case UndeleteAction => UndeleteOp
    case DestroyAction => DestroyOp
  }

  // ---------------------------------------------------------------- data plane

  function CasConflicts(c: Catalog, path: Bytes, cas: Option<u64>): bool {
    match cas
    case None =>
      if path in c.entries && c.entries[path].casRequired.Some?
      then c.entries[path].casRequired.value
      else c.casRequired
    case Some(expected) =>
      if expected == 0 then path in c.entries
      else expected != (if path in c.entries then c.entries[path].current else 0)
  }

  function Write(
    c: Catalog, identity: Id, endpoint: Endpoint, allowed: bool, secret: Secret, cas: Option<u64>)
    : (Catalog, Result<Written, KvError>)
  {
    var refused := CheckEndpoint(endpoint, Data);
    var path := LogicalPath(endpoint.resource);
    if refused.Some? then (c, Err(refused.value))
    else if !secret.bounded || |secret.encoded| > MAX_SECRET_ENCODED_BYTES then (c, Err(BoundExceeded))
    else if !allowed then
      (Logged(c, Event(identity, path, WriteOp, Denied, None, Some(PermissionDeniedReason))),
       Err(PermissionDenied))
    else if CasConflicts(c, path, cas) then
      (Logged(c, Event(identity, path, WriteOp, Failed, None, Some(CasConflictReason))),
       Err(CasConflict))
    else
      var (f, version) := AppendAndPrune(c, EntryAt(c, path), secret.encoded);
      if version.None? then (Put(c, path, f), Err(Internal))
      else
        (Logged(Put(c, path, f), Event(identity, path, WriteOp, Succeeded, version, None)),
         Ok(Written(version.value, c.now)))
  }

  function Read(c: Catalog, identity: Id, endpoint: Endpoint, allowed: bool)
    : (Catalog, Result<ReadOut, KvError>)
  {
    var refused := CheckEndpoint(endpoint, Data);
    var path := LogicalPath(endpoint.resource);
    if refused.Some? then (c, Err(refused.value))
    else if !allowed then
      (Logged(c, Event(identity, path, ReadOp, Denied, None, Some(PermissionDeniedReason))),
       Err(PermissionDenied))
    else if path !in c.entries then
      (Logged(c, Event(identity, path, ReadOp, Failed, None, Some(NotFoundReason))), Err(NotFound))
    else
      var e := c.entries[path];
      var version := if endpoint.version.Some? then endpoint.version.value else e.current;
      var missing := Event(identity, path, ReadOp, Failed, Some(version), Some(NotFoundReason));
      if version !in e.versions then (Logged(c, missing), Err(NotFound))
      else
        var value := e.versions[version];
        if value.state != Live then (Logged(c, missing), Err(Unavailable(version, value)))
        else if c.failNextRead then (c.(failNextRead := false), Err(Internal))
        else if value.encoded == [] then (c, Err(Internal))
        else
          (Logged(c, Event(identity, path, ReadOp, Succeeded, Some(version), None)),
           Ok(ReadOut(value.encoded, version, value.created)))
  }

  /** One success event for each version of a batch, in order. */
  function BatchEvents(identity: Id, path: Bytes, operation: Operation, batch: seq<u64>): seq<Event> {
    seq(|batch|, i requires 0 <= i < |batch| => Event(identity, path, operation, Succeeded, Some(batch[i]), None))
  }

  function MutateLocked(
    c: Catalog, identity: Id, path: Bytes, batch: seq<u64>, action: Action)
    : (Catalog, Result<(), KvError>)
  {
    if path !in c.entries then (c, Err(NotFound))
    else
      var e := c.entries[path];
      if AnyMissing(e, batch) then (c, Err(NotFound))
      else if action == SoftDeleteAction && AnyDestroyed(e, batch) then (c, Err(Invalid))
      else
        var (bumped, ok) := Bump(e.(versions := ChangeAll(e.versions, batch, action, c.now)));
        if !ok then (Put(c, path, bumped), Err(Internal))
        else
          (Put(c, path, bumped).(audit := c.audit + BatchEvents(identity, path, ActionOp(action), batch)), Ok(()))
  }

  function MutateVersions(
    c: Catalog, identity: Id, endpoint: Endpoint, allowed: bool, batch: seq<u64>, action: Action)
    : (Catalog, Result<(), KvError>)
  {
    var refused := CheckEndpoint(endpoint, ActionKind(action));
    var malformed := CheckVersions(batch);
    var path := LogicalPath(endpoint.resource);
    if refused.Some? then (c, Err(refused.value))
    else if malformed.Some? then (c, Err(malformed.value))
    else if !allowed then
      (Logged(c, Event(identity, path, ActionOp(action), Denied, None, Some(PermissionDeniedReason))),
       Err(PermissionDenied))
    else MutateLocked(c, identity, path, batch, action)
  }

  function SoftDeleteLatest(c: Catalog, identity: Id, endpoint: Endpoint, allowed: bool)
    : (Catalog, Result<(), KvError>)
  {
    var refused := CheckEndpoint(endpoint, Data);
    var path := LogicalPath(endpoint.resource);
    if refused.Some? then (c, Err(refused.value))
    else if !allowed then
      (Logged(c, Event(identity, path, SoftDeleteOp, Denied, None, Some(PermissionDeniedReason))),
       Err(PermissionDenied))
    else if path !in c.entries then (c, Err(NotFound))
    else MutateLocked(c, identity, path, [c.entries[path].current], SoftDeleteAction)
  }

  function Updated(e: Entry, update: MetadataUpdate): Entry
    requires update.maxVersions.Some? ==> update.maxVersions.value <= MAX_VERSIONS
  {
    e.(casRequired := if update.casRequired.Some? then update.casRequired else e.casRequired,
       maxVersions :=
         if update.maxVersions.None? then e.maxVersions
         else if update.maxVersions.value == 0 then None
         else Some(update.maxVersions.value),
       customMetadata :=
         if update.customMetadata.Some? then update.customMetadata.value else e.customMetadata)
  }

  function UpdateMetadata(
    c: Catalog, identity: Id, endpoint: Endpoint, allowed: bool, update: MetadataUpdate)
    : (Catalog, Result<(), KvError>)
  {
    var refused := CheckEndpoint(endpoint, Metadata);
    var path := LogicalPath(endpoint.resource);
    if update.customMetadata.Some? && !update.customBounded then (c, Err(BoundExceeded))
    else if refused.Some? then (c, Err(refused.value))
    else if !allowed then
      (Logged(c, Event(identity, path, WriteOp, Denied, None, Some(PermissionDeniedReason))),
       Err(PermissionDenied))
    else if !update.deleteVersionAfterSupported then (c, Err(UnsupportedField))
    else if update.maxVersions.Some? && update.maxVersions.value > MAX_VERSIONS then (c, Err(Invalid))
    else
      var (bumped, ok) := Bump(Updated(EntryAt(c, path), update));
      if !ok then (Put(c, path, bumped), Err(Internal))
      else
        (Logged(Put(c, path, bumped), Event(identity, path, MetadataWriteOp, Succeeded, None, None)),
         Ok(()))
  }

  function PurgePreflight(c: Catalog, identity: Id, resource: Resource, allowed: bool)
    : (Catalog, Result<Preflight, KvError>)
  {
    var path := LogicalPath(resource);
    if resource.mount == MANAGEMENT_MOUNT then (c, Err(Invalid))
    else if !allowed then
      (Logged(c, Event(identity, path, PurgeOp, Denied, None, Some(PermissionDeniedReason))),
       Err(PermissionDenied))
    else if path !in c.entries then (c, Err(NotFound))
    else
      var e := c.entries[path];
      if !e.protectionKnown then (c, Err(UnknownRotationProtection))
      else if e.protectedVersion.Some? then (c, Err(RotationProtected))
      else (c, Ok(Preflight(e.generation, |e.versions|)))
  }

  predicate ReasonOk(reason: Bytes) {
    reason != [] && |reason| <= 1024 && !HasControl(reason)
  }

  /** Why a purge is turned down, with what the log says about it. */
  datatype Refusal = Refusal(error: KvError, outcome: AuditOutcome, reason: Option<AuditReason>)

  function PurgeRefusal(c: Catalog, target: Resource, request: PurgeRequest, allowed: bool): Option<Refusal> {
    var path := LogicalPath(target);
    if request.resource != target then Some(Refusal(ResourceMismatch, Failed, Some(ResourceMismatchReason)))
    else if !ReasonOk(request.reason) then Some(Refusal(ReasonRequired, Failed, Some(ReasonRequiredReason)))
    else if target.mount == MANAGEMENT_MOUNT then Some(Refusal(Invalid, Failed, None))
    else if !allowed then Some(Refusal(PermissionDenied, Denied, Some(PermissionDeniedReason)))
    else if path !in c.entries then Some(Refusal(NotFound, Failed, Some(NotFoundReason)))
    else
      var e := c.entries[path];
      if !e.protectionKnown then
        Some(Refusal(UnknownRotationProtection, Failed, Some(UnknownProtectionReason)))
      else if e.protectedVersion.Some? then Some(Refusal(RotationProtected, Failed, Some(ProtectedReason)))
      else if e.generation != request.expectedGeneration || |e.versions| != request.expectedCount then
        Some(Refusal(StaleCeremony, Failed, Some(StaleReason)))
      else if request.confirmation
              != Some(Confirmation(request.resource, request.expectedGeneration,
                                   request.expectedCount, request.reason)) then
        Some(Refusal(ConfirmationRequired, Failed, Some(ConfirmationReason)))
      else None
  }

  function Purge(
    c: Catalog, identity: Id, target: Resource, request: PurgeRequest, allowed: bool)
    : (Catalog, Result<Preflight, KvError>)
  {
    var path := LogicalPath(target);
    match PurgeRefusal(c, target, request, allowed)
    case Some(Refusal(error, outcome, reason)) =>
      (if reason.None? then c else Logged(c, Event(identity, path, PurgeOp, outcome, None, reason)),
       Err(error))
    case None =>
      if c.failNextPurge then (c.(failNextPurge := false), Err(Internal))
      else
        (Logged(c, Event(identity, path, PurgeOp, Succeeded, None, Some(Stated(request.reason))))
         .(entries := c.entries - {path}),
         Ok(Preflight(c.entries[path].generation, |c.entries[path].versions|)))
  }

  // ---------------------------------------------------------------- rotation primitives

  function RotationSnapshot(c: Catalog, endpoint: Endpoint): Result<Snapshot, KvError> {
    var refused := CheckEndpoint(endpoint, Data);
    var path := LogicalPath(endpoint.resource);
    if refused.Some? then Err(refused.value)
    else if path !in c.entries then Err(NotFound)
    else
      var e := c.entries[path];
      if e.current !in e.versions then Err(NotFound)
      else
        var value := e.versions[e.current];
        if value.state != Live || value.encoded == [] then Err(Unavailable(e.current, value))
        else Ok(Snapshot(e.current, e.protectedVersion))
  }

  function Protect(c: Catalog, endpoint: Endpoint, expected: u64): (Catalog, Result<(), KvError>) {
    var refused := CheckEndpoint(endpoint, Data);
    var path := LogicalPath(endpoint.resource);
    if refused.Some? then (c, Err(refused.value))
    else if path !in c.entries then (c, Err(NotFound))
    else
      var e := c.entries[path];
      if e.current != expected then (c, Err(CasConflict))
      else if expected !in e.versions then (c, Err(NotFound))
      else
        var value := e.versions[expected];
        if value.state != Live || value.encoded == [] then (c, Err(Unavailable(expected, value)))
        else
          var (bumped, ok) := Bump(e.(protectedVersion := Some(expected), protectionKnown := true));
          (Put(c, path, bumped), if ok then Ok(()) else Err(Internal))
  }

  function Release(c: Catalog, endpoint: Endpoint, expected: u64): (Catalog, Result<(), KvError>) {
    var refused := CheckEndpoint(endpoint, Data);
    var path := LogicalPath(endpoint.resource);
    if refused.Some? then (c, Err(refused.value))
    else if path !in c.entries then (c, Err(NotFound))
    else
      var e := c.entries[path];
      if e.protectedVersion != Some(expected) then (c, Err(CasConflict))
      else
        var (f, ok) := Unprotect(c, e);
        (Put(c, path, f), if ok then Ok(()) else Err(Internal))
  }

  /** The first lock of a rollback: read the protected bytes. */
  function CopyProtected(c: Catalog, endpoint: Endpoint, expected: u64, protectedVersion: u64)
    : Result<Bytes, KvError>
  {
    var refused := CheckEndpoint(endpoint, Data);
    var path := LogicalPath(endpoint.resource);
    if refused.Some? then Err(refused.value)
    else if path !in c.entries then Err(NotFound)
    else
      var e := c.entries[path];
      if e.current != expected || e.protectedVersion != Some(protectedVersion) then Err(CasConflict)
      else if protectedVersion !in e.versions then Err(NotFound)
      else
        var value := e.versions[protectedVersion];
        if value.state == Destroyed || value.encoded == [] then Err(Unavailable(protectedVersion, value))
        else Ok(value.encoded)
  }

  /** The second lock of a rollback, and the only KV lock of a cutover. */
  function RotationWrite(
    c: Catalog, identity: Id, endpoint: Endpoint, encoded: Bytes, expected: u64, operation: Operation)
    : (Catalog, Result<Written, KvError>)
    requires operation == RotationCutoverOp || operation == RotationRollbackOp
  {
    var path := LogicalPath(endpoint.resource);
    if path !in c.entries then (c, Err(NotFound))
    else
      var e := c.entries[path];
      if e.current != expected || e.protectedVersion.None? then (c, Err(CasConflict))
      else
        var (grown, version) := Append(e, encoded, c.now);
        if version.None? then (Put(c, path, grown), Err(Internal))
        else
          (Logged(Put(c, path, grown), Event(identity, path, operation, Succeeded, version, None)),
           Ok(Written(version.value, c.now)))
  }

  function RotationCutover(c: Catalog, identity: Id, endpoint: Endpoint, secret: Secret, expected: u64)
    : (Catalog, Result<Written, KvError>)
  {
    var refused := CheckEndpoint(endpoint, Data);
    if refused.Some? then (c, Err(refused.value))
    else if !secret.bounded || |secret.encoded| > MAX_SECRET_ENCODED_BYTES then (c, Err(BoundExceeded))
    else RotationWrite(c, identity, endpoint, secret.encoded, expected, RotationCutoverOp)
  }

  // ---------------------------------------------------------------- steps

  /** Every critical section that can change the catalog, as one step. */
  datatype Step =
    | Configure(casRequired: bool, maxVersions: VersionLimit, now: u64, failNextRead: bool, failNextPurge: bool)
    | DoWrite(identity: Id, endpoint: Endpoint, allowed: bool, secret: Secret, cas: Option<u64>)
    | DoRead(identity: Id, endpoint: Endpoint, allowed: bool)
    | DoMutate(identity: Id, endpoint: Endpoint, allowed: bool, batch: seq<u64>, action: Action)
    | DoSoftDeleteLatest(identity: Id, endpoint: Endpoint, allowed: bool)
    | DoUpdateMetadata(identity: Id, endpoint: Endpoint, allowed: bool, update: MetadataUpdate)
    | DoPreflight(identity: Id, resource: Resource, allowed: bool)
    | DoPurge(identity: Id, resource: Resource, request: PurgeRequest, allowed: bool)
    | DoProtect(endpoint: Endpoint, expected: u64)
    | DoRelease(endpoint: Endpoint, expected: u64)
    | DoCutoverWrite(identity: Id, endpoint: Endpoint, encoded: Content, expected: u64)
    | DoRollbackWrite(identity: Id, endpoint: Endpoint, encoded: Content, expected: u64)

  type Content = s: Bytes | s != [] witness [0]

  predicate DataPlane(step: Step) {
    !step.DoProtect? && !step.DoRelease? && !step.DoCutoverWrite? && !step.DoRollbackWrite?
  }

  /** What may run at any lock boundary: data-plane calls, mount settings and fault seams. */
  type DataStep = s: Step | DataPlane(s) witness Configure(false, 1, 0, false, false)

  datatype Reply =
    | DidNothing
    | DidWrite(written: Result<Written, KvError>)
    | DidRead(read: Result<ReadOut, KvError>)
    | DidMutate(mutated: Result<(), KvError>)
    | DidPreflight(preflight: Result<Preflight, KvError>)
    | DidPurge(purged: Result<Preflight, KvError>)

  function Apply(c: Catalog, step: Step): (Catalog, Reply) {
    match step
    case Configure(cas, max, now, failRead, failPurge) =>
      (c.(casRequired := cas, maxVersions := max, now := now,
          failNextRead := failRead, failNextPurge := failPurge), DidNothing)
    case DoWrite(identity, endpoint, allowed, secret, cas) =>
      var (d, r) := Write(c, identity, endpoint, allowed, secret, cas);
      (d, DidWrite(r))
    case DoRead(identity, endpoint, allowed) =>
      var (d, r) := Read(c, identity, endpoint, allowed);
      (d, DidRead(r))
    case DoMutate(identity, endpoint, allowed, batch, action) =>
      var (d, r) := MutateVersions(c, identity, endpoint, allowed, batch, action);
      (d, DidMutate(r))
    case DoSoftDeleteLatest(identity, endpoint, allowed) =>
      var (d, r) := SoftDeleteLatest(c, identity, endpoint, allowed);
      (d, DidMutate(r))
    case DoUpdateMetadata(identity, endpoint, allowed, update) =>
      var (d, r) := UpdateMetadata(c, identity, endpoint, allowed, update);
      (d, DidMutate(r))
    case DoPreflight(identity, resource, allowed) =>
      var (d, r) := PurgePreflight(c, identity, resource, allowed);
      (d, DidPreflight(r))
    case DoPurge(identity, resource, request, allowed) =>
      var (d, r) := Purge(c, identity, resource, request, allowed);
      (d, DidPurge(r))
    case DoProtect(endpoint, expected) =>
      var (d, r) := Protect(c, endpoint, expected);
      (d, DidMutate(r))
    case DoRelease(endpoint, expected) =>
      var (d, r) := Release(c, endpoint, expected);
      (d, DidMutate(r))
    case DoCutoverWrite(identity, endpoint, encoded, expected) =>
      var (d, r) := RotationWrite(c, identity, endpoint, encoded, expected, RotationCutoverOp);
      (d, DidWrite(r))
    case DoRollbackWrite(identity, endpoint, encoded, expected) =>
      var (d, r) := RotationWrite(c, identity, endpoint, encoded, expected, RotationRollbackOp);
      (d, DidWrite(r))
  }

  /** The catalog after a whole run. */
  function Run(c: Catalog, steps: seq<Step>): Catalog
    decreases |steps|
  {
    if steps == [] then c else Run(Apply(c, steps[0]).0, steps[1..])
  }
}
