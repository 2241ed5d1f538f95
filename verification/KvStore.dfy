/** `KvCatalog` as the object it is: fields changed in place, one method per critical section. */
module KvStore {
  import opened Prelude
  import opened Text
  import opened Endpoints
  import M = KvModel
  import KvRetention

  class KvCatalog {
    var casRequired: bool
    var maxVersions: M.VersionLimit
    var now: u64
    var entries: map<Bytes, M.Entry>
    var audit: seq<M.Event>
    var failNextRead: bool
    var failNextPurge: bool

    ghost function Model(): M.Catalog
      reads this
    {
      M.Catalog(casRequired, maxVersions, now, entries, audit, failNextRead, failNextPurge)
    }

    constructor (casRequired: bool, now: u64)
      ensures Model() == M.NewCatalog(casRequired, now)
    {
      this.casRequired := casRequired;
      this.maxVersions := M.DEFAULT_MAX_VERSIONS;
      this.now := now;
      this.entries := map[];
      this.audit := [];
      this.failNextRead := false;
      this.failNextPurge := false;
    }

    method Configure(casRequired: bool, maxVersions: M.VersionLimit, now: u64,
                     failNextRead: bool, failNextPurge: bool)
      modifies this
      ensures Model() == M.Apply(old(Model()),
                                 M.Configure(casRequired, maxVersions, now, failNextRead, failNextPurge)).0
    {
      this.casRequired := casRequired;
      this.maxVersions := maxVersions;
      this.now := now;
      this.failNextRead := failNextRead;
      this.failNextPurge := failNextPurge;
    }

    method Log(event: M.Event)
      modifies this`audit
      ensures audit == old(audit) + [event]
    {
      audit := audit + [event];
    }

    /** The removing loop of the source. */
    method Prune(path: Bytes)
      requires path in entries
      modifies this`entries
      ensures entries == old(entries)[path :=
        M.Prune(old(entries)[path], M.Limit(old(Model()), old(entries)[path]))]
    {
      var entry := entries[path];
      var max := if entry.maxVersions.Some? then entry.maxVersions.value else maxVersions;
      KvRetention.PruneIgnoresMark(entry, false, max);
      entry := entry.(retentionDeferred := false);
      while |entry.versions| > max
        invariant entry.protectedVersion == entries[path].protectedVersion
        invariant !entry.retentionDeferred
        invariant M.Prune(entry, max) == M.Prune(entries[path], max)
        decreases |entry.versions|
      {
        var candidates := set v | v in entry.versions && Some(v) != entry.protectedVersion && v != entry.current;
        assert candidates == M.Candidates(entry);
        if candidates == {} {
          entry := entry.(retentionDeferred := true);
          break;
        }
        var oldest := Least(candidates);
        ghost var before := entry.versions;
        entry := entry.(versions := entry.versions - {oldest});
        assert entry.versions.Keys == before.Keys - {oldest};
        assert |entry.versions| == |entry.versions.Keys| && |before| == |before.Keys|;
      }
      entries := entries[path := entry];
    }

    method Write(identity: Id, endpoint: Endpoint, allowed: bool, secret: M.Secret, cas: Option<u64>)
      returns (r: Result<M.Written, M.KvError>)
      modifies this
      ensures (Model(), r) == M.Write(old(Model()), identity, endpoint, allowed, secret, cas)
    {
      if endpoint.resource.mount != SECRET_MOUNT { return Err(M.UnsupportedMount); }
      if endpoint.kind != Data { return Err(M.Invalid); }
      if !secret.bounded { return Err(M.BoundExceeded); }
      if |secret.encoded| > M.MAX_SECRET_ENCODED_BYTES { return Err(M.BoundExceeded); }
      var path := LogicalPath(endpoint.resource);
      if !allowed {
        Log(M.Event(identity, path, M.WriteOp, M.Denied, None, Some(M.PermissionDeniedReason)));
        return Err(M.PermissionDenied);
      }
      var conflict := CasConflicts(path, cas);
      if conflict {
        Log(M.Event(identity, path, M.WriteOp, M.Failed, None, Some(M.CasConflictReason)));
        return Err(M.CasConflict);
      }
      var version := PutVersion(path, secret.encoded);
      if version.None? { return Err(M.Internal); }
      Log(M.Event(identity, path, M.WriteOp, M.Succeeded, version, None));
      return Ok(M.Written(version.value, now));
    }

    method CasConflicts(path: Bytes, cas: Option<u64>) returns (conflict: bool)
      ensures conflict == M.CasConflicts(Model(), path, cas)
    {
      var current := if path in entries then entries[path].current else 0;
      match cas
      case None =>
        conflict := if path in entries && entries[path].casRequired.Some?
                    then entries[path].casRequired.value else casRequired;
      case Some(expected) =>
        conflict := if expected == 0 then path in entries else expected != current;
    }

    /** A new version of an entry that is there or is made, then the retention limit. */
    method PutVersion(path: Bytes, encoded: Bytes) returns (version: Option<u64>)
      modifies this`entries
      ensures var (f, v) := M.AppendAndPrune(old(Model()), M.EntryAt(old(Model()), path), encoded);
        entries == old(entries)[path := f] && version == v
    {
      if path !in entries {
        entries := entries[path := M.NewEntry()];
      }
      version := AppendVersion(path, encoded);
      if version.Some? {
        Prune(path);
      }
      assert entries == old(entries)[path := entries[path]];
    }

    /** Version counter first, then the generation, then the table. */
    method AppendVersion(path: Bytes, encoded: Bytes) returns (version: Option<u64>)
      requires path in entries
      modifies this`entries
      ensures entries == old(entries)[path := M.Append(old(entries)[path], encoded, now).0]
      ensures version == M.Append(old(entries)[path], encoded, now).1
    {
      var entry := entries[path];
      if entry.current == U64_MAX {
        assert entries == entries[path := entry];
        return None;
      }
      var next: u64 := entry.current + 1;
      entry := entry.(current := next);
      entries := entries[path := entry];
      if entry.generation == U64_MAX { return None; }
      entry := entry.(generation := entry.generation + 1);
      entry := entry.(versions := entry.versions[next := M.VersionValue(encoded, now, M.Live, None)]);
      entries := entries[path := entry];
      return Some(next);
    }

    method Read(identity: Id, endpoint: Endpoint, allowed: bool)
      returns (r: Result<M.ReadOut, M.KvError>)
      modifies this
      ensures (Model(), r) == M.Read(old(Model()), identity, endpoint, allowed)
    {
      if endpoint.resource.mount != SECRET_MOUNT { return Err(M.UnsupportedMount); }
      if endpoint.kind != Data { return Err(M.Invalid); }
      var path := LogicalPath(endpoint.resource);
      if !allowed {
        Log(M.Event(identity, path, M.ReadOp, M.Denied, None, Some(M.PermissionDeniedReason)));
        return Err(M.PermissionDenied);
      }
      if path !in entries {
        Log(M.Event(identity, path, M.ReadOp, M.Failed, None, Some(M.NotFoundReason)));
        return Err(M.NotFound);
      }
      var entry := entries[path];
      var version := if endpoint.version.Some? then endpoint.version.value else entry.current;
      if version !in entry.versions {
        Log(M.Event(identity, path, M.ReadOp, M.Failed, Some(version), Some(M.NotFoundReason)));
        return Err(M.NotFound);
      }
      var value := entry.versions[version];
      if value.state != M.Live {
        Log(M.Event(identity, path, M.ReadOp, M.Failed, Some(version), Some(M.NotFoundReason)));
        return Err(M.Unavailable(version, value));
      }
      if failNextRead {
        failNextRead := false;
        return Err(M.Internal);
      }
      if value.encoded == [] { return Err(M.Internal); }
      Log(M.Event(identity, path, M.ReadOp, M.Succeeded, Some(version), None));
      return Ok(M.ReadOut(value.encoded, version, value.created));
    }

    method MutateLocked(identity: Id, path: Bytes, batch: seq<u64>, action: M.Action)
      returns (r: Result<(), M.KvError>)
      modifies this
      ensures (Model(), r) == M.MutateLocked(old(Model()), identity, path, batch, action)
    {
      if path !in entries { return Err(M.NotFound); }
      var entry := entries[path];
      if exists v :: v in batch && v !in entry.versions { return Err(M.NotFound); }
      if action == M.SoftDeleteAction
         && exists v :: v in batch && v in entry.versions && entry.versions[v].state == M.Destroyed {
        return Err(M.Invalid);
      }
      var versions := ChangeBatch(entry.versions, batch, action, now);
      entry := entry.(versions := versions);
      entries := entries[path := entry];
      if entry.generation == U64_MAX { return Err(M.Internal); }
      entries := entries[path := entry.(generation := entry.generation + 1)];
      assert entries == old(entries)[path := entries[path]];
      LogBatch(identity, path, batch, M.ActionOp(action));
      return Ok(());
    }

    /** Applying the action to the named versions one at a time. */
    static method ChangeBatch(
      before: map<u64, M.VersionValue>, batch: seq<u64>, action: M.Action, now: u64)
      returns (versions: map<u64, M.VersionValue>)
      requires forall v :: v in batch ==> v in before
      ensures versions == M.ChangeAll(before, batch, action, now)
    {
      versions := before;
      for i := 0 to |batch|
        invariant versions == M.ChangeAll(before, batch[..i], action, now)
      {
        assert batch[i] in batch;
        ChangeOneMore(before, batch, i, action, now);
        versions := versions[batch[i] := M.Changed(action, versions[batch[i]], now)];
      }
      assert batch[..|batch|] == batch;
    }

    method LogBatch(identity: Id, path: Bytes, batch: seq<u64>, operation: M.Operation)
      modifies this`audit
      ensures audit == old(audit) + M.BatchEvents(identity, path, operation, batch)
    {
      for i := 0 to |batch|
        invariant audit == old(audit) + M.BatchEvents(identity, path, operation, batch[..i])
      {
        Log(M.Event(identity, path, operation, M.Succeeded, Some(batch[i]), None));
        assert M.BatchEvents(identity, path, operation, batch[..i + 1])
            == M.BatchEvents(identity, path, operation, batch[..i])
               + [M.Event(identity, path, operation, M.Succeeded, Some(batch[i]), None)];
      }
      assert batch[..|batch|] == batch;
    }

    method MutateVersions(identity: Id, endpoint: Endpoint, allowed: bool, batch: seq<u64>, action: M.Action)
      returns (r: Result<(), M.KvError>)
      modifies this
      ensures (Model(), r) == M.MutateVersions(old(Model()), identity, endpoint, allowed, batch, action)
    {
      if endpoint.resource.mount != SECRET_MOUNT { return Err(M.UnsupportedMount); }
      if endpoint.kind != M.ActionKind(action) { return Err(M.Invalid); }
      if |batch| > M.MAX_VERSION_BATCH { return Err(M.BoundExceeded); }
      if batch == [] { return Err(M.Invalid); }
      if M.Repeats(batch) || 0 in batch { return Err(M.Invalid); }
      var path := LogicalPath(endpoint.resource);
      if !allowed {
        Log(M.Event(identity, path, M.ActionOp(action), M.Denied, None, Some(M.PermissionDeniedReason)));
        return Err(M.PermissionDenied);
      }
      r := MutateLocked(identity, path, batch, action);
    }

    method SoftDeleteLatest(identity: Id, endpoint: Endpoint, allowed: bool)
      returns (r: Result<(), M.KvError>)
      modifies this
      ensures (Model(), r) == M.SoftDeleteLatest(old(Model()), identity, endpoint, allowed)
    {
      if endpoint.resource.mount != SECRET_MOUNT { return Err(M.UnsupportedMount); }
      if endpoint.kind != Data { return Err(M.Invalid); }
      var path := LogicalPath(endpoint.resource);
      if !allowed {
        Log(M.Event(identity, path, M.SoftDeleteOp, M.Denied, None, Some(M.PermissionDeniedReason)));
        return Err(M.PermissionDenied);
      }
      if path !in entries { return Err(M.NotFound); }
      r := MutateLocked(identity, path, [entries[path].current], M.SoftDeleteAction);
    }

    method UpdateMetadata(identity: Id, endpoint: Endpoint, allowed: bool, update: M.MetadataUpdate)
      returns (r: Result<(), M.KvError>)
      modifies this
      ensures (Model(), r) == M.UpdateMetadata(old(Model()), identity, endpoint, allowed, update)
    {
      if update.customMetadata.Some? && !update.customBounded { return Err(M.BoundExceeded); }
      if endpoint.resource.mount != SECRET_MOUNT { return Err(M.UnsupportedMount); }
      if endpoint.kind != Metadata { return Err(M.Invalid); }
      var path := LogicalPath(endpoint.resource);
      if !allowed {
        Log(M.Event(identity, path, M.WriteOp, M.Denied, None, Some(M.PermissionDeniedReason)));
        return Err(M.PermissionDenied);
      }
      if !update.deleteVersionAfterSupported { return Err(M.UnsupportedField); }
      if update.maxVersions.Some? && update.maxVersions.value > M.MAX_VERSIONS { return Err(M.Invalid); }
      var entry := if path in entries then entries[path] else M.NewEntry();
      if update.casRequired.Some? {
        entry := entry.(casRequired := update.casRequired);
      }
      if update.maxVersions.Some? {
        entry := entry.(maxVersions :=
          if update.maxVersions.value == 0 then None else Some(update.maxVersions.value));
      }
      if update.customMetadata.Some? {
        entry := entry.(customMetadata := update.customMetadata.value);
      }
      entries := entries[path := entry];
      if entry.generation == U64_MAX { return Err(M.Internal); }
      entries := entries[path := entry.(generation := entry.generation + 1)];
      assert entries == old(entries)[path := entries[path]];
      Log(M.Event(identity, path, M.MetadataWriteOp, M.Succeeded, None, None));
      return Ok(());
    }

    method PurgePreflight(identity: Id, resource: Resource, allowed: bool)
      returns (r: Result<M.Preflight, M.KvError>)
      modifies this
      ensures (Model(), r) == M.PurgePreflight(old(Model()), identity, resource, allowed)
    {
      if resource.mount == MANAGEMENT_MOUNT { return Err(M.Invalid); }
      var path := LogicalPath(resource);
      if !allowed {
        Log(M.Event(identity, path, M.PurgeOp, M.Denied, None, Some(M.PermissionDeniedReason)));
        return Err(M.PermissionDenied);
      }
      if path !in entries { return Err(M.NotFound); }
      var entry := entries[path];
      if !entry.protectionKnown { return Err(M.UnknownRotationProtection); }
      if entry.protectedVersion.Some? { return Err(M.RotationProtected); }
      return Ok(M.Preflight(entry.generation, |entry.versions|));
    }

    method PurgeFailure(identity: Id, path: Bytes, reason: M.AuditReason)
      modifies this`audit
      ensures audit == old(audit) + [M.Event(identity, path, M.PurgeOp, M.Failed, None, Some(reason))]
    {
      Log(M.Event(identity, path, M.PurgeOp, M.Failed, None, Some(reason)));
    }

    method Purge(identity: Id, target: Resource, request: M.PurgeRequest, allowed: bool)
      returns (r: Result<M.Preflight, M.KvError>)
      modifies this
      ensures (Model(), r) == M.Purge(old(Model()), identity, target, request, allowed)
    {
      var path := LogicalPath(target);
      if request.resource != target {
        PurgeFailure(identity, path, M.ResourceMismatchReason);
        return Err(M.ResourceMismatch);
      }
      if request.reason == [] || |request.reason| > 1024 || HasControl(request.reason) {
        PurgeFailure(identity, path, M.ReasonRequiredReason);
        return Err(M.ReasonRequired);
      }
      if target.mount == MANAGEMENT_MOUNT { return Err(M.Invalid); }
      if !allowed {
        Log(M.Event(identity, path, M.PurgeOp, M.Denied, None, Some(M.PermissionDeniedReason)));
        return Err(M.PermissionDenied);
      }
      if path !in entries {
        PurgeFailure(identity, path, M.NotFoundReason);
        return Err(M.NotFound);
      }
      var entry := entries[path];
      if !entry.protectionKnown {
        PurgeFailure(identity, path, M.UnknownProtectionReason);
        return Err(M.UnknownRotationProtection);
      }
      if entry.protectedVersion.Some? {
        PurgeFailure(identity, path, M.ProtectedReason);
        return Err(M.RotationProtected);
      }
      var count := |entry.versions|;
      if entry.generation != request.expectedGeneration || count != request.expectedCount {
        PurgeFailure(identity, path, M.StaleReason);
        return Err(M.StaleCeremony);
      }
      var expected := M.Confirmation(request.resource, request.expectedGeneration,
                                     request.expectedCount, request.reason);
      if request.confirmation != Some(expected) {
        PurgeFailure(identity, path, M.ConfirmationReason);
        return Err(M.ConfirmationRequired);
      }
      if failNextPurge {
        failNextPurge := false;
        return Err(M.Internal);
      }
      Log(M.Event(identity, path, M.PurgeOp, M.Succeeded, None, Some(M.Stated(request.reason))));
      entries := entries - {path};
      return Ok(M.Preflight(entry.generation, count));
    }

    method RotationSnapshot(endpoint: Endpoint) returns (r: Result<M.Snapshot, M.KvError>)
      ensures r == M.RotationSnapshot(Model(), endpoint)
    {
      if endpoint.resource.mount != SECRET_MOUNT { return Err(M.UnsupportedMount); }
      if endpoint.kind != Data { return Err(M.Invalid); }
      var path := LogicalPath(endpoint.resource);
      if path !in entries { return Err(M.NotFound); }
      var entry := entries[path];
      if entry.current !in entry.versions { return Err(M.NotFound); }
      var value := entry.versions[entry.current];
      if value.state != M.Live || value.encoded == [] { return Err(M.Unavailable(entry.current, value)); }
      return Ok(M.Snapshot(entry.current, entry.protectedVersion));
    }

    /** One method for both directions, as in the source. */
    method SetProtection(endpoint: Endpoint, expected: u64, protect: bool)
      returns (r: Result<(), M.KvError>)
      modifies this
      ensures protect ==> (Model(), r) == M.Protect(old(Model()), endpoint, expected)
      ensures !protect ==> (Model(), r) == M.Release(old(Model()), endpoint, expected)
    {
      if endpoint.resource.mount != SECRET_MOUNT { return Err(M.UnsupportedMount); }
      if endpoint.kind != Data { return Err(M.Invalid); }
      var path := LogicalPath(endpoint.resource);
      if path !in entries { return Err(M.NotFound); }
      var entry := entries[path];
      if protect {
        if entry.current != expected { return Err(M.CasConflict); }
        if expected !in entry.versions { return Err(M.NotFound); }
        var value := entry.versions[expected];
        if value.state != M.Live || value.encoded == [] { return Err(M.Unavailable(expected, value)); }
        entry := entry.(protectedVersion := Some(expected), protectionKnown := true);
        entries := entries[path := entry];
        if entry.generation == U64_MAX { return Err(M.Internal); }
        entries := entries[path := entry.(generation := entry.generation + 1)];
        assert entries == old(entries)[path := entries[path]];
        return Ok(());
      }
      if entry.protectedVersion != Some(expected) { return Err(M.CasConflict); }
      entry := entry.(protectedVersion := None);
      entries := entries[path := entry];
      if entry.generation == U64_MAX { return Err(M.Internal); }
      entries := entries[path := entry.(generation := entry.generation + 1)];
      Prune(path);
      assert entries == old(entries)[path := entries[path]];
      return Ok(());
    }

    method CopyProtected(endpoint: Endpoint, expected: u64, protectedVersion: u64)
      returns (r: Result<Bytes, M.KvError>)
      ensures r == M.CopyProtected(Model(), endpoint, expected, protectedVersion)
    {
      if endpoint.resource.mount != SECRET_MOUNT { return Err(M.UnsupportedMount); }
      if endpoint.kind != Data { return Err(M.Invalid); }
      var path := LogicalPath(endpoint.resource);
      if path !in entries { return Err(M.NotFound); }
      var entry := entries[path];
      if entry.current != expected || entry.protectedVersion != Some(protectedVersion) {
        return Err(M.CasConflict);
      }
      if protectedVersion !in entry.versions { return Err(M.NotFound); }
      var value := entry.versions[protectedVersion];
      if value.state == M.Destroyed || value.encoded == [] {
        return Err(M.Unavailable(protectedVersion, value));
      }
      return Ok(value.encoded);
    }

    method RotationWrite(identity: Id, endpoint: Endpoint, encoded: Bytes, expected: u64, operation: M.Operation)
      returns (r: Result<M.Written, M.KvError>)
      requires operation == M.RotationCutoverOp || operation == M.RotationRollbackOp
      modifies this
      ensures (Model(), r) == M.RotationWrite(old(Model()), identity, endpoint, encoded, expected, operation)
    {
      var path := LogicalPath(endpoint.resource);
      if path !in entries { return Err(M.NotFound); }
      var entry := entries[path];
      if entry.current != expected || entry.protectedVersion.None? { return Err(M.CasConflict); }
      var version := AppendVersion(path, encoded);
      if version.None? { return Err(M.Internal); }
      Log(M.Event(identity, path, operation, M.Succeeded, version, None));
      return Ok(M.Written(version.value, now));
    }

    method RotationCutover(identity: Id, endpoint: Endpoint, secret: M.Secret, expected: u64)
      returns (r: Result<M.Written, M.KvError>)
      modifies this
      ensures (Model(), r) == M.RotationCutover(old(Model()), identity, endpoint, secret, expected)
    {
      if endpoint.resource.mount != SECRET_MOUNT { return Err(M.UnsupportedMount); }
      if endpoint.kind != Data { return Err(M.Invalid); }
      if !secret.bounded { return Err(M.BoundExceeded); }
      if |secret.encoded| > M.MAX_SECRET_ENCODED_BYTES { return Err(M.BoundExceeded); }
      r := RotationWrite(identity, endpoint, secret.encoded, expected, M.RotationCutoverOp);
    }

    /** One call of the data plane. */
    method Perform(step: M.DataStep) returns (reply: M.Reply)
      modifies this
      ensures (Model(), reply) == M.Apply(old(Model()), step)
    {
      match step {
        case Configure(cas, max, time, failRead, failPurge) =>
          Configure(cas, max, time, failRead, failPurge);
          reply := M.DidNothing;
        case DoWrite(identity, endpoint, allowed, secret, cas) =>
          var r := Write(identity, endpoint, allowed, secret, cas);
          reply := M.DidWrite(r);
        case DoRead(identity, endpoint, allowed) =>
          var r := Read(identity, endpoint, allowed);
          reply := M.DidRead(r);
        case DoMutate(identity, endpoint, allowed, batch, action) =>
          var r := MutateVersions(identity, endpoint, allowed, batch, action);
          reply := M.DidMutate(r);
        case DoSoftDeleteLatest(identity, endpoint, allowed) =>
          var r := SoftDeleteLatest(identity, endpoint, allowed);
          reply := M.DidMutate(r);
        case DoUpdateMetadata(identity, endpoint, allowed, update) =>
          var r := UpdateMetadata(identity, endpoint, allowed, update);
          reply := M.DidMutate(r);
        case DoPreflight(identity, resource, allowed) =>
          var r := PurgePreflight(identity, resource, allowed);
          reply := M.DidPreflight(r);
        case DoPurge(identity, resource, request, allowed) =>
          var r := Purge(identity, resource, request, allowed);
          reply := M.DidPurge(r);
      }
    }

    /** Whatever other callers do while the lock is free. */
    method Meanwhile(others: seq<M.DataStep>)
      modifies this
      ensures Model() == M.Run(old(Model()), others)
    {
      for i := 0 to |others|
        invariant M.Run(Model(), others[i..]) == M.Run(old(Model()), others)
      {
        ghost var before := Model();
        var reply := Perform(others[i]);
        assert others[i..][0] == others[i] && others[i..][1..] == others[i + 1..];
      }
    }
  }

  lemma ChangeOneMore(
    versions: map<u64, M.VersionValue>, batch: seq<u64>, i: nat, action: M.Action, now: u64)
    requires i < |batch| && batch[i] in versions
    ensures var done := M.ChangeAll(versions, batch[..i], action, now);
      done[batch[i] := M.Changed(action, done[batch[i]], now)]
      == M.ChangeAll(versions, batch[..i + 1], action, now)
  {
    assert batch[..i + 1] == batch[..i] + [batch[i]];
  }
}
