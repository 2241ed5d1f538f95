/** When each call on the KV store succeeds, with what answer, and what it leaves behind. */
module KvAnswers {
  import opened Prelude
  import opened Text
  import opened Endpoints
  import opened KvModel
  import opened KvInvariant
  import KvHistory
  import KvRetention

  predicate Placed(endpoint: Endpoint, kind: EndpointKind) {
    endpoint.resource.mount == SECRET_MOUNT && endpoint.kind == kind
  }

  predicate Fits(secret: Secret) { secret.bounded && |secret.encoded| <= 512 * 1024 }

  /** No entry but the one at `path` differs, and that one is `e`. */
  ghost predicate Leaves(c: Catalog, d: Catalog, path: Bytes, e: Entry) {
    && d == c.(entries := d.entries, audit := d.audit)
    && d.entries.Keys == c.entries.Keys + {path} && d.entries[path] == e
    && forall p :: p in c.entries && p != path ==> d.entries[p] == c.entries[p]
  }

  // ---------------------------------------------------------------- reads

  /**
    A read answers `out` exactly when it is allowed, no fault is armed, and the version asked for,
    or the current one when none is, is held and live with those very bytes and that creation time.
   */
  lemma ReadExact(c: Catalog, identity: Id, endpoint: Endpoint, allowed: bool, out: ReadOut)
    ensures var path := LogicalPath(endpoint.resource);
      Read(c, identity, endpoint, allowed).1 == Ok(out) <==>
        && Placed(endpoint, Data) && allowed && !c.failNextRead && path in c.entries
        && (endpoint.version == Some(out.version)
            || (endpoint.version == None && out.version == c.entries[path].current))
        && out.version in c.entries[path].versions
        && var value := c.entries[path].versions[out.version];
        && value.state == Live && value.encoded == out.encoded != [] && value.created == out.created
  {
  }

  /** What a read that is allowed and well placed is told when the version is not to be had. */
  lemma ReadRefusedExactly(c: Catalog, identity: Id, endpoint: Endpoint, version: u64)
    requires Placed(endpoint, Data)
    requires var path := LogicalPath(endpoint.resource);
      endpoint.version == Some(version)
      || (endpoint.version == None && (path in c.entries ==> version == c.entries[path].current))
    ensures var path := LogicalPath(endpoint.resource);
      var answer := Read(c, identity, endpoint, true).1;
      && (answer == Err(NotFound) <==> path !in c.entries || version !in c.entries[path].versions)
      && (forall deleted: u64, destroyed: bool :: answer == Err(VersionUnavailable(version, deleted, destroyed)) <==>
            && path in c.entries && version in c.entries[path].versions
            && var value := c.entries[path].versions[version];
            && value.state != Live && (destroyed <==> value.state == Destroyed)
            && (value.deletion == Some(deleted) || (value.deletion == None && deleted == 0)))
      && (answer.Err? ==> answer.error == NotFound || answer.error.VersionUnavailable? || answer.error == Internal)
  {
  }

  /** A read changes no entry. What it discloses is logged first, and so is a denial or a miss. */
  lemma ReadLogs(c: Catalog, identity: Id, endpoint: Endpoint, allowed: bool)
    ensures var (d, answer) := Read(c, identity, endpoint, allowed);
      var path := LogicalPath(endpoint.resource);
      && d.entries == c.entries
      && (answer.Ok? ==> d.audit == c.audit + [Event(identity, path, ReadOp, Succeeded, Some(answer.value.version), None)])
      && (Placed(endpoint, Data) && !allowed ==>
            && answer == Err(PermissionDenied)
            && d.audit == c.audit + [Event(identity, path, ReadOp, Denied, None, Some(PermissionDeniedReason))])
      && (!Placed(endpoint, Data) ==> answer.Err? && d == c)
  {
  }

  /** A miss is logged under the version asked for, when there is an entry to ask. */
  lemma MissedReadLogs(c: Catalog, identity: Id, endpoint: Endpoint)
    requires Placed(endpoint, Data)
    requires var answer := Read(c, identity, endpoint, true).1; answer.Err? && answer.error != Internal
    ensures var (d, path) := (Read(c, identity, endpoint, true).0, LogicalPath(endpoint.resource));
      && |d.audit| == |c.audit| + 1 && d.audit[..|c.audit|] == c.audit
      && var event := d.audit[|c.audit|];
      && event == Event(identity, path, ReadOp, Failed, event.version, Some(NotFoundReason))
      && (event.version == None <==> path !in c.entries)
      && (path in c.entries && endpoint.version.Some? ==> event.version == endpoint.version)
      && (path in c.entries && endpoint.version.None? ==> event.version == Some(c.entries[path].current))
  {
  }

  /**
    A version that was written is read back, whatever ran in between without a purge of the path,
    exactly when it is still held and live; and then with the bytes and time it was written with.
   */
  lemma WrittenIsReadExactly(
    c: Catalog, write: Step, between: seq<Step>, identity: Id, endpoint: Endpoint, allowed: bool)
    requires AllWellFormed(c) && write.DoWrite? && Apply(c, write).1.written.Ok?
    requires Placed(endpoint, Data) && endpoint.resource == write.endpoint.resource
    requires endpoint.version == Some(Apply(c, write).1.written.value.version)
    requires KvHistory.Unpurged(Apply(c, write).0, between, LogicalPath(write.endpoint.resource))
    ensures var d := Run(Apply(c, write).0, between);
      var path := LogicalPath(endpoint.resource);
      var version := endpoint.version.value;
      && path in d.entries
      && (Read(d, identity, endpoint, allowed).1 == Ok(ReadOut(write.secret.encoded, version, c.now)) <==>
            && allowed && !d.failNextRead
            && version in d.entries[path].versions && d.entries[path].versions[version].state == Live)
  {
    var path := LogicalPath(write.endpoint.resource);
    var d, f := Apply(c, write).0, Run(Apply(c, write).0, between);
    var version := endpoint.version.value;
    KvHistory.WriteStores(c, write);
    StepKeepsInvariant(c, write);
    KvHistory.RunEvolves(d, between, path);
    assert version in f.entries[path].versions ==>
      Survives(d.entries[path].versions[version], f.entries[path].versions[version]);
    ReadExact(f, identity, endpoint, allowed, ReadOut(write.secret.encoded, version, c.now));
  }

  // ---------------------------------------------------------------- writes

  /** The write may go ahead as far as the check-and-set number is concerned. */
  ghost predicate CasFits(c: Catalog, path: Bytes, cas: Option<u64>) {
    && (cas == None ==> if path in c.entries && c.entries[path].casRequired.Some?
                        then c.entries[path].casRequired == Some(false) else !c.casRequired)
    && (cas == Some(0) ==> path !in c.entries)
    && (cas.Some? && cas.value > 0 ==> path in c.entries && c.entries[path].current == cas.value)
  }

  /** A write succeeds exactly when it fits, is allowed, meets its cas, and the counters have room. */
  lemma WriteExact(c: Catalog, identity: Id, endpoint: Endpoint, allowed: bool, secret: Secret, cas: Option<u64>,
                   out: Written)
    ensures var path := LogicalPath(endpoint.resource);
      Write(c, identity, endpoint, allowed, secret, cas).1 == Ok(out) <==>
        && Placed(endpoint, Data) && Fits(secret) && allowed && CasFits(c, path, cas) && out.created == c.now
        && (if path in c.entries
            then c.entries[path].generation < U64_MAX && out.version == c.entries[path].current + 1
            else out.version == 1)
  {
  }

  /** A path's entry, or the one its first use makes. */
  function Standing(c: Catalog, path: Bytes): Entry {
    if path in c.entries then c.entries[path] else Entry(1, 0, map[], None, None, None, true, false, map[])
  }

  /** The entry with one more version of these bytes, and one more generation. */
  function Grown(e: Entry, encoded: Bytes, now: u64): Entry
    requires e.current < U64_MAX && e.generation < U64_MAX
  {
    e.(current := e.current + 1, generation := e.generation + 1,
       versions := e.versions[e.current + 1 := VersionValue(encoded, now, Live, None)])
  }

  lemma GrowthIsPruned(c: Catalog, e: Entry, encoded: Bytes, f: Entry)
    requires e.current < U64_MAX && e.generation < U64_MAX && f == AppendAndPrune(c, e, encoded).0
    ensures KvRetention.IsPruned(Grown(e, encoded, c.now),
                                 if e.maxVersions.Some? then e.maxVersions.value else c.maxVersions, f)
  {
    var grown := Grown(e, encoded, c.now);
    assert Append(e, encoded, c.now).0 == grown;
    KvRetention.PruneMeets(grown, Limit(c, grown));
  }

  lemma WriteShape(c: Catalog, identity: Id, endpoint: Endpoint, allowed: bool, secret: Secret, cas: Option<u64>)
    requires Write(c, identity, endpoint, allowed, secret, cas).1.Ok?
    ensures var (d, r) := Write(c, identity, endpoint, allowed, secret, cas);
      var path := LogicalPath(endpoint.resource);
      var e := Standing(c, path);
      && e.current < U64_MAX && e.generation < U64_MAX
      && d == c.(entries := c.entries[path := AppendAndPrune(c, e, secret.encoded).0],
                 audit := c.audit + [Event(identity, path, WriteOp, Succeeded, Some(r.value.version), None)])
  {
  }

  /** What a successful write leaves: one more version, then the retention rule, and one event. */
  lemma WriteLeaves(c: Catalog, identity: Id, endpoint: Endpoint, allowed: bool, secret: Secret, cas: Option<u64>)
    requires Write(c, identity, endpoint, allowed, secret, cas).1.Ok?
    ensures var (d, r) := Write(c, identity, endpoint, allowed, secret, cas);
      var path := LogicalPath(endpoint.resource);
      var e := Standing(c, path);
      && e.current < U64_MAX && e.generation < U64_MAX && path in d.entries && Leaves(c, d, path, d.entries[path])
      && KvRetention.IsPruned(Grown(e, secret.encoded, c.now),
                              if e.maxVersions.Some? then e.maxVersions.value else c.maxVersions, d.entries[path])
      && d.audit == c.audit + [Event(identity, path, WriteOp, Succeeded, Some(r.value.version), None)]
  {
    var e := Standing(c, LogicalPath(endpoint.resource));
    WriteShape(c, identity, endpoint, allowed, secret, cas);
    GrowthIsPruned(c, e, secret.encoded, AppendAndPrune(c, e, secret.encoded).0);
  }

  /** A write that is refused leaves all entries alone, unless only a counter stopped it. */
  lemma WriteRefusedExactly(c: Catalog, identity: Id, endpoint: Endpoint, allowed: bool, secret: Secret, cas: Option<u64>)
    ensures var (d, r) := Write(c, identity, endpoint, allowed, secret, cas);
      var path := LogicalPath(endpoint.resource);
      && (r == Err(BoundExceeded) <==> Placed(endpoint, Data) && !Fits(secret))
      && (r == Err(PermissionDenied) <==> Placed(endpoint, Data) && Fits(secret) && !allowed)
      && (r == Err(CasConflict) <==> Placed(endpoint, Data) && Fits(secret) && allowed && !CasFits(c, path, cas))
      && (r == Err(PermissionDenied) ==>
            d == c.(audit := c.audit + [Event(identity, path, WriteOp, Denied, None, Some(PermissionDeniedReason))]))
      && (r == Err(CasConflict) ==>
            d == c.(audit := c.audit + [Event(identity, path, WriteOp, Failed, None, Some(CasConflictReason))]))
      && (r.Err? && d.entries != c.entries ==> path in c.entries && c.entries[path].generation == U64_MAX)
      && (!Placed(endpoint, Data) || !Fits(secret) ==> d == c)
  {
    var path := LogicalPath(endpoint.resource);
    if path in c.entries && c.entries[path].current == U64_MAX {
      assert c.entries == c.entries[path := c.entries[path]];
    }
  }

  // ---------------------------------------------------------------- deletes, undeletes and destroys

  predicate ProperBatch(batch: seq<u64>) {
    && 1 <= |batch| <= 64
    && (forall i :: 0 <= i < |batch| ==> batch[i] != 0)
    && (forall i, j :: 0 <= i < j < |batch| ==> batch[i] != batch[j])
  }

  function KindOf(action: Action): EndpointKind {
    match action
    case SoftDeleteAction => Delete
    case UndeleteAction => Undelete
    case DestroyAction => Destroy
  }

  function OperationOf(action: Action): Operation {
    match action
    case SoftDeleteAction => SoftDeleteOp
    case UndeleteAction => UndeleteOp
    case DestroyAction => DestroyOp
  }

  /** Every named version is held and may undergo the action. */
  ghost predicate Admissible(e: Entry, batch: seq<u64>, action: Action) {
    forall i :: 0 <= i < |batch| ==>
      batch[i] in e.versions && (action == SoftDeleteAction ==> e.versions[batch[i]].state != Destroyed)
  }

  /** `b` is what the action makes of `a`. */
  ghost predicate Undergoes(a: VersionValue, b: VersionValue, action: Action, now: u64) {
    && b.created == a.created
    && (action == SoftDeleteAction ==> b.encoded == a.encoded && b.state == SoftDeleted && b.deletion == Some(now))
    && (action == UndeleteAction ==>
          if a.state == SoftDeleted then b.encoded == a.encoded && b.state == Live && b.deletion == None else b == a)
    && (action == DestroyAction ==> b.encoded == [] && b.state == Destroyed && b.deletion == None)
  }

  lemma BatchMeaning(batch: seq<u64>)
    ensures CheckVersions(batch).None? <==> ProperBatch(batch)
  {
  }

  lemma AdmissibleMeaning(e: Entry, batch: seq<u64>, action: Action)
    ensures Admissible(e, batch, action) <==>
      !AnyMissing(e, batch) && (action == SoftDeleteAction ==> !AnyDestroyed(e, batch))
  {
  }

  /** A batch of versions is deleted, undeleted or destroyed exactly when all of them can be. */
  lemma MutateExact(c: Catalog, identity: Id, endpoint: Endpoint, allowed: bool, batch: seq<u64>, action: Action)
    ensures var path := LogicalPath(endpoint.resource);
      MutateVersions(c, identity, endpoint, allowed, batch, action).1.Ok? <==>
        && Placed(endpoint, KindOf(action)) && ProperBatch(batch) && allowed && path in c.entries
        && Admissible(c.entries[path], batch, action) && c.entries[path].generation < U64_MAX
  {
    BatchMeaning(batch);
    var path := LogicalPath(endpoint.resource);
    if path in c.entries { AdmissibleMeaning(c.entries[path], batch, action); }
  }

  /** The entry after the versions of the batch, and no others, have undergone the action. */
  ghost predicate Undergone(e: Entry, f: Entry, batch: seq<u64>, action: Action, now: u64) {
    && e.generation < U64_MAX && f == e.(generation := e.generation + 1, versions := f.versions)
    && f.versions.Keys == e.versions.Keys
    && forall v :: v in e.versions ==>
         if v in batch then Undergoes(e.versions[v], f.versions[v], action, now) else f.versions[v] == e.versions[v]
  }

  /** One success event for each version, in the order of the batch. */
  ghost predicate LogsEach(before: seq<Event>, after: seq<Event>, identity: Id, path: Bytes, op: Operation, batch: seq<u64>) {
    && |after| == |before| + |batch| && after[..|before|] == before
    && forall i :: 0 <= i < |batch| ==> after[|before| + i] == Event(identity, path, op, Succeeded, Some(batch[i]), None)
  }

  lemma LockedLeaves(c: Catalog, identity: Id, path: Bytes, batch: seq<u64>, action: Action)
    requires MutateLocked(c, identity, path, batch, action).1.Ok?
    ensures var d := MutateLocked(c, identity, path, batch, action).0;
      && path in c.entries && path in d.entries && Leaves(c, d, path, d.entries[path])
      && Undergone(c.entries[path], d.entries[path], batch, action, c.now)
      && LogsEach(c.audit, d.audit, identity, path, OperationOf(action), batch)
  {
  }

  lemma MutateLeaves(c: Catalog, identity: Id, endpoint: Endpoint, allowed: bool, batch: seq<u64>, action: Action)
    requires MutateVersions(c, identity, endpoint, allowed, batch, action).1.Ok?
    ensures var d := MutateVersions(c, identity, endpoint, allowed, batch, action).0;
      var path := LogicalPath(endpoint.resource);
      && path in c.entries && path in d.entries && Leaves(c, d, path, d.entries[path])
      && Undergone(c.entries[path], d.entries[path], batch, action, c.now)
      && LogsEach(c.audit, d.audit, identity, path, OperationOf(action), batch)
  {
    LockedLeaves(c, identity, LogicalPath(endpoint.resource), batch, action);
  }

  /** Deleting the latest is deleting the current version, under a data endpoint. */
  lemma SoftDeleteLatestExact(c: Catalog, identity: Id, endpoint: Endpoint, allowed: bool)
    ensures var path := LogicalPath(endpoint.resource);
      SoftDeleteLatest(c, identity, endpoint, allowed).1.Ok? <==>
        && Placed(endpoint, Data) && allowed && path in c.entries && c.entries[path].generation < U64_MAX
        && c.entries[path].current in c.entries[path].versions
        && c.entries[path].versions[c.entries[path].current].state != Destroyed
    ensures var (d, r) := SoftDeleteLatest(c, identity, endpoint, allowed);
      var path := LogicalPath(endpoint.resource);
      r.Ok? ==>
        && path in c.entries && path in d.entries && Leaves(c, d, path, d.entries[path])
        && Undergone(c.entries[path], d.entries[path], [c.entries[path].current], SoftDeleteAction, c.now)
        && LogsEach(c.audit, d.audit, identity, path, SoftDeleteOp, [c.entries[path].current])
  {
    var path := LogicalPath(endpoint.resource);
    if Placed(endpoint, Data) && allowed && path in c.entries {
      var batch := [c.entries[path].current];
      assert batch[0] in batch;
      AdmissibleMeaning(c.entries[path], batch, SoftDeleteAction);
      if MutateLocked(c, identity, path, batch, SoftDeleteAction).1.Ok? {
        LockedLeaves(c, identity, path, batch, SoftDeleteAction);
      }
    }
  }

  // ---------------------------------------------------------------- metadata

  lemma MetadataExact(c: Catalog, identity: Id, endpoint: Endpoint, allowed: bool, update: MetadataUpdate)
    ensures var path := LogicalPath(endpoint.resource);
      UpdateMetadata(c, identity, endpoint, allowed, update).1.Ok? <==>
        && Placed(endpoint, Metadata) && allowed && update.deleteVersionAfterSupported
        && (update.customMetadata.Some? ==> update.customBounded)
        && (update.maxVersions.Some? ==> update.maxVersions.value <= 1024)
        && (path in c.entries ==> c.entries[path].generation < U64_MAX)
  {
  }

  /** Only what the update names is set; a limit of zero falls back to the mount's. */
  lemma MetadataLeaves(c: Catalog, identity: Id, endpoint: Endpoint, allowed: bool, update: MetadataUpdate)
    requires UpdateMetadata(c, identity, endpoint, allowed, update).1.Ok?
    ensures var d := UpdateMetadata(c, identity, endpoint, allowed, update).0;
      var path := LogicalPath(endpoint.resource);
      var e := Standing(c, path);
      && path in d.entries && Leaves(c, d, path, d.entries[path]) && e.generation < U64_MAX
      && var f := d.entries[path];
      && f == e.(generation := e.generation + 1, casRequired := f.casRequired, maxVersions := f.maxVersions,
                 customMetadata := f.customMetadata)
      && f.casRequired == (if update.casRequired == None then e.casRequired else update.casRequired)
      && (update.maxVersions == None ==> f.maxVersions == e.maxVersions)
      && (update.maxVersions == Some(0) ==> f.maxVersions == None)
      && (update.maxVersions.Some? && update.maxVersions.value > 0 ==> f.maxVersions == Some(update.maxVersions.value))
      && (update.customMetadata == None ==> f.customMetadata == e.customMetadata)
      && (update.customMetadata.Some? ==> f.customMetadata == update.customMetadata.value)
      && d.audit == c.audit + [Event(identity, path, MetadataWriteOp, Succeeded, None, None)]
  {
  }

  // ---------------------------------------------------------------- the purge ceremony

  lemma PreflightExact(c: Catalog, identity: Id, resource: Resource, allowed: bool, out: Preflight)
    ensures var path := LogicalPath(resource);
      PurgePreflight(c, identity, resource, allowed).1 == Ok(out) <==>
        && resource.mount != MANAGEMENT_MOUNT && allowed && path in c.entries
        && c.entries[path].protectionKnown && c.entries[path].protectedVersion == None
        && out.generation == c.entries[path].generation && out.count == |c.entries[path].versions|
  {
  }

  /**
    A purge goes through exactly when its request names the target, gives a reason, is allowed,
    carries the numbers of an unprotected entry, and is confirmed for just that target, those
    numbers and that reason; and no log fault is armed.
   */
  lemma PurgeExact(c: Catalog, identity: Id, target: Resource, request: PurgeRequest, allowed: bool)
    ensures var path := LogicalPath(target);
      Purge(c, identity, target, request, allowed).1.Ok? <==>
        && request.resource == target && 1 <= |request.reason| <= 1024 && !HasControl(request.reason)
        && target.mount != MANAGEMENT_MOUNT && allowed
        && path in c.entries && c.entries[path].protectionKnown && c.entries[path].protectedVersion == None
        && request.expectedGeneration == c.entries[path].generation
        && request.expectedCount == |c.entries[path].versions|
        && request.confirmation.Some?
        && request.confirmation.value.resource == target && request.confirmation.value.reason == request.reason
        && request.confirmation.value.generation == request.expectedGeneration
        && request.confirmation.value.count == request.expectedCount
        && !c.failNextPurge
  {
  }

  /** What a purge leaves: the path gone and the stated reason logged, or nothing removed at all. */
  lemma PurgeLeaves(c: Catalog, identity: Id, target: Resource, request: PurgeRequest, allowed: bool)
    ensures var (d, r) := Purge(c, identity, target, request, allowed);
      var path := LogicalPath(target);
      && (r.Ok? ==>
            && path in c.entries && path !in d.entries && d.entries.Keys == c.entries.Keys - {path}
            && (forall p :: p in d.entries ==> d.entries[p] == c.entries[p])
            && r.value == Preflight(c.entries[path].generation, |c.entries[path].versions|)
            && d.audit == c.audit + [Event(identity, path, PurgeOp, Succeeded, None, Some(Stated(request.reason)))])
      && (r.Err? ==> d.entries == c.entries)
  {
  }

  /** What the log says of a purge turned down, by the answer its caller gets. */
  function Stating(error: KvError): Option<AuditReason> {
    match error
    case ResourceMismatch => Some(ResourceMismatchReason)
    case ReasonRequired => Some(ReasonRequiredReason)
    case PermissionDenied => Some(PermissionDeniedReason)
    case NotFound => Some(NotFoundReason)
    case UnknownRotationProtection => Some(UnknownProtectionReason)
    case RotationProtected => Some(ProtectedReason)
    case StaleCeremony => Some(StaleReason)
    case ConfirmationRequired => Some(ConfirmationReason)
    case _ => None
  }

  /** The first obstacle, in the order of the ceremony, is the one answered and logged. */
  lemma PurgeRefusedExactly(c: Catalog, identity: Id, target: Resource, request: PurgeRequest, allowed: bool)
    requires Purge(c, identity, target, request, allowed).1.Err?
    ensures var (d, r) := Purge(c, identity, target, request, allowed);
      var path := LogicalPath(target);
      && (r.error == ResourceMismatch <==> request.resource != target)
      && (r.error == ReasonRequired <==>
            request.resource == target && (request.reason == [] || |request.reason| > 1024 || HasControl(request.reason)))
      && (r.error == NotFound ==> path !in c.entries)
      && (r.error == UnknownRotationProtection ==> path in c.entries && !c.entries[path].protectionKnown)
      && (r.error == RotationProtected ==> path in c.entries && c.entries[path].protectedVersion.Some?)
      && (r.error == StaleCeremony ==>
            path in c.entries && (c.entries[path].generation != request.expectedGeneration
                                  || |c.entries[path].versions| != request.expectedCount))
      && (Stating(r.error).Some? ==>
            d == c.(audit := c.audit + [Event(identity, path, PurgeOp,
                                              if r.error == PermissionDenied then Denied else Failed, None,
                                              Stating(r.error))]))
      && (Stating(r.error).None? ==> d.audit == c.audit)
  {
  }

  /** The operation a denied call is logged under. */
  function DeniedAs(step: Step): Operation
    requires DataPlane(step) && !step.Configure?
  {
    match step
    case DoRead(_, _, _) => ReadOp
    case DoMutate(_, _, _, _, action) => OperationOf(action)
    case DoSoftDeleteLatest(_, _, _) => SoftDeleteOp
    case DoPreflight(_, _, _) => PurgeOp
    case DoPurge(_, _, _, _) => PurgeOp
    case _ => WriteOp
  }

  predicate IsDenied(reply: Reply) {
    match reply
    case DidNothing => false
    case DidWrite(r) => r == Err(PermissionDenied)
    case DidRead(r) => r == Err(PermissionDenied)
    case DidMutate(r) => r == Err(PermissionDenied)
    case DidPreflight(r) => r == Err(PermissionDenied)
    case DidPurge(r) => r == Err(PermissionDenied)
  }

  /** Only calls that are not allowed are denied, and all a denial does is log itself. */
  lemma DenialsAreLogged(c: Catalog, step: Step)
    requires DataPlane(step) && !step.Configure? && IsDenied(Apply(c, step).1)
    ensures !step.allowed
    ensures var path := LogicalPath(if step.DoPreflight? || step.DoPurge? then step.resource else step.endpoint.resource);
      Apply(c, step).0 == c.(audit := c.audit + [Event(step.identity, path, DeniedAs(step), Denied, None,
                                                       Some(PermissionDeniedReason))])
  {
  }

  lemma PreflightRefusedExactly(c: Catalog, identity: Id, resource: Resource, allowed: bool)
    ensures var r := PurgePreflight(c, identity, resource, allowed).1;
      var path := LogicalPath(resource);
      && (r == Err(Invalid) <==> resource.mount == MANAGEMENT_MOUNT)
      && (r == Err(PermissionDenied) <==> resource.mount != MANAGEMENT_MOUNT && !allowed)
      && (r == Err(NotFound) <==> resource.mount != MANAGEMENT_MOUNT && allowed && path !in c.entries)
      && (r == Err(UnknownRotationProtection) <==>
            resource.mount != MANAGEMENT_MOUNT && allowed && path in c.entries && !c.entries[path].protectionKnown)
      && (allowed ==> PurgePreflight(c, identity, resource, allowed).0 == c)
  {
  }

  /** An armed fault fails one call that would have gone through, and is spent by it. */
  lemma FaultsFireOnce(c: Catalog, identity: Id, endpoint: Endpoint, target: Resource, request: PurgeRequest)
    requires c.failNextRead && c.failNextPurge
    ensures Read(c.(failNextRead := false), identity, endpoint, true).1.Ok? ==>
      Read(c, identity, endpoint, true) == (c.(failNextRead := false), Err(Internal))
    ensures Purge(c.(failNextPurge := false), identity, target, request, true).1.Ok? ==>
      Purge(c, identity, target, request, true) == (c.(failNextPurge := false), Err(Internal))
  {
  }

  /** A new store is empty and keeps ten versions; a setting step sets what it names and nothing else. */
  lemma SettingsExact(c: Catalog, cas: bool, max: VersionLimit, now: u64, failRead: bool, failPurge: bool)
    ensures var n := NewCatalog(cas, now);
      && n.entries == map[] && n.audit == [] && n.casRequired == cas && n.now == now && n.maxVersions == 10
      && !n.failNextRead && !n.failNextPurge
    ensures var d := Apply(c, Configure(cas, max, now, failRead, failPurge)).0;
      && d.entries == c.entries && d.audit == c.audit && d.casRequired == cas && d.maxVersions == max && d.now == now
      && d.failNextRead == failRead && d.failNextPurge == failPurge
  {
  }

  // ---------------------------------------------------------------- rotation primitives

  /** The version is held, live and not empty. */
  predicate Usable(e: Entry, version: u64) {
    version in e.versions && e.versions[version].state == Live && e.versions[version].encoded != []
  }

  lemma SnapshotExact(c: Catalog, endpoint: Endpoint, out: Snapshot)
    ensures var path := LogicalPath(endpoint.resource);
      RotationSnapshot(c, endpoint) == Ok(out) <==>
        && Placed(endpoint, Data) && path in c.entries && Usable(c.entries[path], c.entries[path].current)
        && out.current == c.entries[path].current && out.protection == c.entries[path].protectedVersion
  {
  }

  lemma ProtectExact(c: Catalog, endpoint: Endpoint, expected: u64)
    ensures var path := LogicalPath(endpoint.resource);
      Protect(c, endpoint, expected).1.Ok? <==>
        && Placed(endpoint, Data) && path in c.entries && c.entries[path].current == expected
        && Usable(c.entries[path], expected) && c.entries[path].generation < U64_MAX
    ensures var (d, r) := Protect(c, endpoint, expected);
      var path := LogicalPath(endpoint.resource);
      r.Ok? ==>
        && path in c.entries && c.entries[path].generation < U64_MAX
        && Leaves(c, d, path, c.entries[path].(generation := c.entries[path].generation + 1,
                                               protectedVersion := Some(expected), protectionKnown := true))
        && d.audit == c.audit
  {
  }

  lemma ReleaseExact(c: Catalog, endpoint: Endpoint, expected: u64)
    ensures var path := LogicalPath(endpoint.resource);
      Release(c, endpoint, expected).1.Ok? <==>
        && Placed(endpoint, Data) && path in c.entries && c.entries[path].protectedVersion == Some(expected)
        && c.entries[path].generation < U64_MAX
  {
  }

  /** Releasing lifts the protection and lets the retention rule have what it held back. */
  lemma ReleaseLeaves(c: Catalog, endpoint: Endpoint, expected: u64)
    requires Release(c, endpoint, expected).1.Ok?
    ensures var d := Release(c, endpoint, expected).0;
      var path := LogicalPath(endpoint.resource);
      && path in c.entries && c.entries[path].generation < U64_MAX && path in d.entries
      && Leaves(c, d, path, d.entries[path]) && d.audit == c.audit
      && var e := c.entries[path];
      && KvRetention.IsPruned(e.(generation := e.generation + 1, protectedVersion := None),
                              if e.maxVersions.Some? then e.maxVersions.value else c.maxVersions, d.entries[path])
  {
    var e := c.entries[LogicalPath(endpoint.resource)];
    var free := e.(generation := e.generation + 1, protectedVersion := None);
    KvRetention.PruneMeets(free, Limit(c, free));
  }

  lemma CopyExact(c: Catalog, endpoint: Endpoint, expected: u64, protection: u64, out: Bytes)
    ensures var path := LogicalPath(endpoint.resource);
      CopyProtected(c, endpoint, expected, protection) == Ok(out) <==>
        && Placed(endpoint, Data) && path in c.entries && c.entries[path].current == expected
        && c.entries[path].protectedVersion == Some(protection) && protection in c.entries[path].versions
        && c.entries[path].versions[protection].state != Destroyed
        && c.entries[path].versions[protection].encoded == out != []
  {
  }

  /** How a version that is there but cannot be used is reported. */
  ghost predicate ReportsUnusable(error: KvError, version: u64, value: VersionValue) {
    && error.VersionUnavailable? && error.version == version && (error.destroyed <==> value.state == Destroyed)
    && error.deletionTime == (if value.deletion.Some? then value.deletion.value else 0)
  }

  /** What the primitives answer when the entry, its current version or its protection is not as expected. */
  lemma PrimitivesRefuse(c: Catalog, endpoint: Endpoint, expected: u64, kept: u64)
    requires Placed(endpoint, Data)
    ensures var path := LogicalPath(endpoint.resource);
      path !in c.entries ==>
        && RotationSnapshot(c, endpoint) == Err(NotFound) && Protect(c, endpoint, expected).1 == Err(NotFound)
        && Release(c, endpoint, kept).1 == Err(NotFound) && CopyProtected(c, endpoint, expected, kept) == Err(NotFound)
    ensures var path := LogicalPath(endpoint.resource);
      path in c.entries ==>
        var e := c.entries[path];
        && (e.current !in e.versions ==> RotationSnapshot(c, endpoint) == Err(NotFound))
        && (e.current in e.versions && !Usable(e, e.current) ==>
              RotationSnapshot(c, endpoint).Err?
              && ReportsUnusable(RotationSnapshot(c, endpoint).error, e.current, e.versions[e.current]))
        && (e.current != expected ==> Protect(c, endpoint, expected).1 == Err(CasConflict))
        && (e.current == expected && expected in e.versions && !Usable(e, expected) ==>
              Protect(c, endpoint, expected).1.Err?
              && ReportsUnusable(Protect(c, endpoint, expected).1.error, expected, e.versions[expected]))
        && (e.protectedVersion != Some(kept) ==>
              Release(c, endpoint, kept).1 == Err(CasConflict) && CopyProtected(c, endpoint, expected, kept) == Err(CasConflict))
        && (e.current == expected && e.protectedVersion == Some(kept) && kept in e.versions
            && (e.versions[kept].state == Destroyed || e.versions[kept].encoded == []) ==>
              CopyProtected(c, endpoint, expected, kept).Err?
              && ReportsUnusable(CopyProtected(c, endpoint, expected, kept).error, kept, e.versions[kept]))
  {
  }

  /** The entry can take a rotation's version after `expected`. */
  ghost predicate Takes(c: Catalog, path: Bytes, expected: u64) {
    && path in c.entries && c.entries[path].current == expected < U64_MAX
    && c.entries[path].protectedVersion.Some? && c.entries[path].generation < U64_MAX
  }

  lemma RotationWriteExact(
    c: Catalog, identity: Id, endpoint: Endpoint, encoded: Bytes, expected: u64, operation: Operation)
    requires operation == RotationCutoverOp || operation == RotationRollbackOp
    ensures var (d, r) := RotationWrite(c, identity, endpoint, encoded, expected, operation);
      var path := LogicalPath(endpoint.resource);
      && (r.Ok? <==> Takes(c, path, expected))
      && (r.Ok? ==>
            && r.value == Written(expected + 1, c.now)
            && Leaves(c, d, path, Grown(c.entries[path], encoded, c.now))
            && d.audit == c.audit + [Event(identity, path, operation, Succeeded, Some(expected + 1), None)])
  {
  }

  /**
    A cutover stores the replacement, and nothing else, under the version after the expected one,
    exactly when it fits and the entry is at the expected version, protected and has room.
   */
  lemma CutoverExact(c: Catalog, identity: Id, endpoint: Endpoint, secret: Secret, expected: u64)
    ensures var (d, r) := RotationCutover(c, identity, endpoint, secret, expected);
      var path := LogicalPath(endpoint.resource);
      && (r.Ok? <==> Placed(endpoint, Data) && Fits(secret) && Takes(c, path, expected))
      && (r.Ok? ==>
            && r.value == Written(expected + 1, c.now)
            && Leaves(c, d, path, Grown(c.entries[path], secret.encoded, c.now))
            && d.audit == c.audit + [Event(identity, path, RotationCutoverOp, Succeeded, Some(expected + 1), None)])
  {
    RotationWriteExact(c, identity, endpoint, secret.encoded, expected, RotationCutoverOp);
  }
}
