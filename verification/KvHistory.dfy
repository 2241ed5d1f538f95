/** Properties of whole runs of the KV store, with rotation primitives interleaved anywhere. */
module KvHistory {
  import opened Prelude
  import opened Text
  import opened Endpoints
  import opened KvModel
  import opened KvInvariant
  import KvRetention

  /** No step of the run purges the path. */
  ghost predicate Unpurged(c: Catalog, steps: seq<Step>, path: Bytes)
    decreases |steps|
  {
    steps != [] ==>
      !Purges(c, steps[0], path) && Unpurged(Apply(c, steps[0]).0, steps[1..], path)
  }

  lemma {:induction false} RunWellFormed(c: Catalog, steps: seq<Step>)
    requires AllWellFormed(c)
    ensures AllWellFormed(Run(c, steps))
    decreases |steps|
  {
    if steps != [] {
      StepKeepsInvariant(c, steps[0]);
      RunWellFormed(Apply(c, steps[0]).0, steps[1..]);
    }
  }

  /** In every run from an empty store each entry stays well formed. */
  lemma ReachableWellFormed(casRequired: bool, now: u64, steps: seq<Step>)
    ensures AllWellFormed(Run(NewCatalog(casRequired, now), steps))
  {
    RunWellFormed(NewCatalog(casRequired, now), steps);
  }

  /** Until it is purged, an entry only evolves. */
  lemma {:induction false} RunEvolves(c: Catalog, steps: seq<Step>, path: Bytes)
    requires AllWellFormed(c) && path in c.entries && Unpurged(c, steps, path)
    ensures path in Run(c, steps).entries
    ensures Evolves(c.entries[path], Run(c, steps).entries[path])
    decreases |steps|
  {
    if steps == [] {
      EvolvesReflexive(c.entries[path]);
    } else {
      var d := Apply(c, steps[0]).0;
      StepKeepsInvariant(c, steps[0]);
      RunEvolves(d, steps[1..], path);
      EvolvesTransitive(c.entries[path], d.entries[path], Run(c, steps).entries[path]);
    }
  }

  // ---------------------------------------------------------------- compare-and-set

  lemma WriteOk(c: Catalog, step: Step)
    requires AllWellFormed(c) && step.DoWrite? && Apply(c, step).1.written.Ok?
    ensures var path := LogicalPath(step.endpoint.resource);
      var d := Apply(c, step).0;
      && path in d.entries
      && d.entries[path].current == Apply(c, step).1.written.value.version == EntryAt(c, path).current + 1
      && (step.cas.Some? ==> d.entries[path].current == step.cas.value + 1)
  {
    var path := LogicalPath(step.endpoint.resource);
    AppendAndPruneKeeps(c, EntryAt(c, path), step.secret.encoded);
  }

  lemma StaleCasRefused(c: Catalog, step: Step)
    requires step.DoWrite? && step.cas.Some?
    requires var path := LogicalPath(step.endpoint.resource);
      path in c.entries && c.entries[path].current > step.cas.value
    ensures Apply(c, step).1.written.Err?
  {
    assert CasConflicts(c, LogicalPath(step.endpoint.resource), step.cas);
  }

  /**
    Between purges of a path at most one write carrying a given cas succeeds, and it creates the
    version after it: whatever runs between two such writes, the second is refused.
   */
  lemma CasWinsOnce(c: Catalog, first: Step, between: seq<Step>, second: Step)
    requires AllWellFormed(c)
    requires first.DoWrite? && second.DoWrite?
    requires first.cas.Some? && second.cas == first.cas
    requires LogicalPath(second.endpoint.resource) == LogicalPath(first.endpoint.resource)
    requires Apply(c, first).1.written.Ok?
    requires Unpurged(Apply(c, first).0, between, LogicalPath(first.endpoint.resource))
    ensures Apply(c, first).1.written.value.version == first.cas.value + 1
    ensures Apply(Run(Apply(c, first).0, between), second).1.written.Err?
  {
    var path := LogicalPath(first.endpoint.resource);
    var d := Apply(c, first).0;
    WriteOk(c, first);
    StepKeepsInvariant(c, first);
    RunEvolves(d, between, path);
    var f := Run(d, between);
    StaleCasRefused(f, second);
  }

  // ---------------------------------------------------------------- reads

  lemma ReadOkFacts(c: Catalog, step: Step)
    requires step.DoRead? && Apply(c, step).1.read.Ok?
    ensures var path := LogicalPath(step.endpoint.resource);
      var out := Apply(c, step).1.read.value;
      && path in c.entries && out.version in c.entries[path].versions
      && c.entries[path].versions[out.version].state == Live
      && c.entries[path].versions[out.version].encoded == out.encoded
      && c.entries[path].versions[out.version].created == out.created
      && Apply(c, step).0.entries == c.entries
  {
  }

  /** Two successful reads of one version return the same bytes and creation time. */
  lemma ReadsAgree(c: Catalog, first: Step, between: seq<Step>, second: Step)
    requires AllWellFormed(c)
    requires first.DoRead? && second.DoRead?
    requires LogicalPath(second.endpoint.resource) == LogicalPath(first.endpoint.resource)
    requires Apply(c, first).1.read.Ok?
    requires Unpurged(Apply(c, first).0, between, LogicalPath(first.endpoint.resource))
    requires var f := Run(Apply(c, first).0, between);
      Apply(f, second).1.read.Ok?
      && Apply(f, second).1.read.value.version == Apply(c, first).1.read.value.version
    ensures Apply(Run(Apply(c, first).0, between), second).1.read == Apply(c, first).1.read
  {
    var path := LogicalPath(first.endpoint.resource);
    var d := Apply(c, first).0;
    var f := Run(d, between);
    var version := Apply(c, first).1.read.value.version;
    ReadOkFacts(c, first);
    ReadOkFacts(f, second);
    StepKeepsInvariant(c, first);
    RunEvolves(d, between, path);
    assert WellFormed(c.entries[path]);
    assert Survives(d.entries[path].versions[version], f.entries[path].versions[version]);
  }

  /** A destroyed version is never readable again. */
  lemma DestroyedStaysUnreadable(c: Catalog, path: Bytes, version: u64, between: seq<Step>, read: Step)
    requires AllWellFormed(c)
    requires path in c.entries && version in c.entries[path].versions
    requires c.entries[path].versions[version].state == Destroyed
    requires Unpurged(c, between, path)
    requires read.DoRead? && LogicalPath(read.endpoint.resource) == path
    ensures var r := Apply(Run(c, between), read).1.read;
      r.Ok? ==> r.value.version != version
  {
    RunEvolves(c, between, path);
    var f := Run(c, between);
    assert WellFormed(c.entries[path]);
    if Apply(f, read).1.read.Ok? {
      ReadOkFacts(f, read);
      assert version in f.entries[path].versions ==>
          Survives(c.entries[path].versions[version], f.entries[path].versions[version]);
    }
  }

  /** A destroy that succeeds leaves every version it names destroyed, with no bytes. */
  lemma DestroyDestroys(c: Catalog, step: Step, version: u64)
    requires step.DoMutate? && step.action == DestroyAction && Apply(c, step).1.mutated.Ok?
    requires version in step.batch
    ensures var path := LogicalPath(step.endpoint.resource);
      var d := Apply(c, step).0;
      && path in d.entries && version in d.entries[path].versions
      && d.entries[path].versions[version].state == Destroyed
      && d.entries[path].versions[version].encoded == []
  {
  }

  lemma AppendedIsKept(c: Catalog, e: Entry, encoded: Bytes)
    requires WellFormed(e) && encoded != [] && AppendAndPrune(c, e, encoded).1.Some?
    ensures var (f, version) := AppendAndPrune(c, e, encoded);
      && version.value == f.current && f.current in f.versions
      && f.versions[f.current] == VersionValue(encoded, c.now, Live, None)
  {
    var grown := Append(e, encoded, c.now).0;
    AppendKeeps(e, encoded, c.now);
    KvRetention.PruneMeets(grown, Limit(c, grown));
  }

  lemma WriteStores(c: Catalog, step: Step)
    requires AllWellFormed(c) && step.DoWrite? && Apply(c, step).1.written.Ok?
    ensures var path := LogicalPath(step.endpoint.resource);
      var d := Apply(c, step).0;
      var version := Apply(c, step).1.written.value.version;
      && path in d.entries && version == d.entries[path].current && version in d.entries[path].versions
      && d.entries[path].versions[version] == VersionValue(step.secret.encoded, c.now, Live, None)
  {
    AppendedIsKept(c, EntryAt(c, LogicalPath(step.endpoint.resource)), step.secret.encoded);
  }

  /** A version is read back as it was written, whatever ran in between, for as long as it can be read. */
  lemma WriteIsReadBack(c: Catalog, write: Step, between: seq<Step>, read: Step)
    requires AllWellFormed(c)
    requires write.DoWrite? && read.DoRead?
    requires LogicalPath(read.endpoint.resource) == LogicalPath(write.endpoint.resource)
    requires Apply(c, write).1.written.Ok?
    requires Unpurged(Apply(c, write).0, between, LogicalPath(write.endpoint.resource))
    requires var r := Apply(Run(Apply(c, write).0, between), read).1.read;
      r.Ok? && r.value.version == Apply(c, write).1.written.value.version
    ensures var out := Apply(Run(Apply(c, write).0, between), read).1.read.value;
      out.encoded == write.secret.encoded && out.created == c.now
  {
    var path := LogicalPath(write.endpoint.resource);
    var d := Apply(c, write).0;
    var f := Run(d, between);
    var version := Apply(c, write).1.written.value.version;
    WriteStores(c, write);
    StepKeepsInvariant(c, write);
    RunEvolves(d, between, path);
    ReadOkFacts(f, read);
    assert Survives(d.entries[path].versions[version], f.entries[path].versions[version]);
  }

  /** Undeleting the versions of a soft delete restores the table exactly when all of them were live. */
  lemma UndeleteUndoes(versions: map<u64, VersionValue>, batch: seq<u64>, deleted: u64, restored: u64)
    requires forall v :: v in batch ==> v in versions
    ensures ChangeAll(ChangeAll(versions, batch, SoftDeleteAction, deleted), batch, UndeleteAction, restored) == versions
       <==> forall v :: v in batch ==> versions[v].state == Live && versions[v].deletion == None
  {
    var gone := ChangeAll(versions, batch, SoftDeleteAction, deleted);
    var back := ChangeAll(gone, batch, UndeleteAction, restored);
    assert back.Keys == versions.Keys;
    forall v | v in batch
      ensures back[v] == versions[v].(state := Live, deletion := None)
    {
      assert gone[v] == Changed(SoftDeleteAction, versions[v], deleted);
    }
    if forall v :: v in batch ==> versions[v].state == Live && versions[v].deletion == None {
      assert forall v :: v in versions ==> back[v] == versions[v];
    }
  }

  /** A write leaves the current version present exactly when the generation was not used up. */
  lemma AppendKeepsCurrentExactly(e: Entry, encoded: Bytes, created: u64)
    requires WellFormed(e) && encoded != [] && e.current < U64_MAX
    ensures var f := Append(e, encoded, created).0;
      f.current in f.versions <==> e.generation < U64_MAX
  {
  }

  /** The batch is one the mutation would go through with. */
  predicate Mutable(c: Catalog, path: Bytes, batch: seq<u64>, action: Action) {
    && path in c.entries && !AnyMissing(c.entries[path], batch)
    && (action == SoftDeleteAction ==> !AnyDestroyed(c.entries[path], batch))
  }

  /**
    A soft delete, undelete or destroy that answers an error logs nothing. It leaves the store as it
    was exactly when it was not a proper batch on an entry out of generations, or the batch was so
    already; otherwise the versions have changed all the same.
   */
  lemma RefusedMutationExactly(c: Catalog, identity: Id, path: Bytes, batch: seq<u64>, action: Action)
    requires MutateLocked(c, identity, path, batch, action).1.Err?
    ensures MutateLocked(c, identity, path, batch, action).0.audit == c.audit
    ensures MutateLocked(c, identity, path, batch, action).0 == c <==>
      || !Mutable(c, path, batch, action)
      || forall v :: v in batch ==>
           Changed(action, c.entries[path].versions[v], c.now) == c.entries[path].versions[v]
    ensures MutateLocked(c, identity, path, batch, action).1.error == Internal <==> Mutable(c, path, batch, action)
    ensures Mutable(c, path, batch, action) ==> c.entries[path].generation == U64_MAX
  {
    if Mutable(c, path, batch, action) {
      var e, d := c.entries[path], MutateLocked(c, identity, path, batch, action).0;
      var changed := ChangeAll(e.versions, batch, action, c.now);
      assert d.entries == c.entries[path := e.(versions := changed)];
      assert d == c <==> changed == e.versions by {
        if changed == e.versions { assert c.entries[path := e] == c.entries; }
        if d == c { assert d.entries[path] == e; }
      }
      if changed == e.versions {
        forall v | v in batch
          ensures Changed(action, e.versions[v], c.now) == e.versions[v]
        {
          assert v in e.versions && changed[v] == Changed(action, e.versions[v], c.now);
        }
      }
      if forall v :: v in batch ==> Changed(action, e.versions[v], c.now) == e.versions[v] {
        assert forall v :: v in e.versions ==> changed[v] == e.versions[v];
        assert changed == e.versions;
      }
    }
  }

  // ---------------------------------------------------------------- read evidence

  predicate IsReadSuccess(event: Event) {
    event.operation == ReadOp && event.outcome == Succeeded
  }

  /** The read successes of a log, in order. */
  function ReadEvidence(audit: seq<Event>): seq<Event> {
    if audit == [] then []
    else ReadEvidence(audit[..|audit| - 1])
         + (if IsReadSuccess(audit[|audit| - 1]) then [audit[|audit| - 1]] else [])
  }

  /** The evidence a step should leave: one event for a successful read, none otherwise. */
  function Disclosed(c: Catalog, step: Step): seq<Event> {
    var reply := Apply(c, step).1;
    if reply.DidRead? && step.DoRead? && reply.read.Ok?
    then [Event(step.identity, LogicalPath(step.endpoint.resource), ReadOp, Succeeded,
                Some(reply.read.value.version), None)]
    else []
  }

  /** The successful reads of a run, in order. */
  function Disclosures(c: Catalog, steps: seq<Step>): seq<Event>
    decreases |steps|
  {
    if steps == [] then []
    else Disclosed(c, steps[0]) + Disclosures(Apply(c, steps[0]).0, steps[1..])
  }

  lemma {:induction false} EvidenceAppends(audit: seq<Event>, more: seq<Event>)
    ensures ReadEvidence(audit + more) == ReadEvidence(audit) + ReadEvidence(more)
    decreases |more|
  {
    if more == [] {
      assert audit + more == audit;
    } else {
      var n := |more| - 1;
      EvidenceAppends(audit, more[..n]);
      assert (audit + more)[..|audit| + n] == audit + more[..n];
    }
  }

  lemma {:induction false} NoEvidence(events: seq<Event>)
    requires forall i :: 0 <= i < |events| ==> !IsReadSuccess(events[i])
    ensures ReadEvidence(events) == []
  {
    if events != [] {
      NoEvidence(events[..|events| - 1]);
    }
  }

  /** The log grew by at most one event, and that one is not a read success. */
  ghost predicate AppendsSilently(before: seq<Event>, after: seq<Event>) {
    || after == before
    || (|after| == |before| + 1 && after == before + [after[|before|]] && !IsReadSuccess(after[|before|]))
  }

  lemma SilentAppend(before: seq<Event>, after: seq<Event>)
    requires AppendsSilently(before, after)
    ensures ReadEvidence(after) == ReadEvidence(before)
  {
    if after != before {
      EvidenceAppends(before, [after[|before|]]);
      NoEvidence([after[|before|]]);
    }
  }

  ghost predicate AllSilent(events: seq<Event>) {
    forall i :: 0 <= i < |events| ==> !IsReadSuccess(events[i])
  }

  /** The log grew by events none of which is a read success. */
  lemma SilentBatch(before: seq<Event>, after: seq<Event>)
    requires before <= after && AllSilent(after[|before|..])
    ensures ReadEvidence(after) == ReadEvidence(before)
  {
    EvidenceAppends(before, after[|before|..]);
    NoEvidence(after[|before|..]);
    assert before + after[|before|..] == after;
  }

  lemma MutateAppends(c: Catalog, identity: Id, path: Bytes, batch: seq<u64>, action: Action)
    ensures var after := MutateLocked(c, identity, path, batch, action).0.audit;
      after == c.audit || after == c.audit + BatchEvents(identity, path, ActionOp(action), batch)
  {
  }

  lemma MutateSilent(c: Catalog, identity: Id, path: Bytes, batch: seq<u64>, action: Action)
    ensures ReadEvidence(MutateLocked(c, identity, path, batch, action).0.audit) == ReadEvidence(c.audit)
  {
    MutateAppends(c, identity, path, batch, action);
    assert ActionOp(action) != ReadOp;
    SilentBatch(c.audit, MutateLocked(c, identity, path, batch, action).0.audit);
  }

  lemma WriteSilent(
    c: Catalog, identity: Id, endpoint: Endpoint, allowed: bool, secret: Secret, cas: Option<u64>)
    ensures AppendsSilently(c.audit, Write(c, identity, endpoint, allowed, secret, cas).0.audit)
  {
  }

  lemma PurgeSilent(c: Catalog, identity: Id, target: Resource, request: PurgeRequest, allowed: bool)
    ensures AppendsSilently(c.audit, Purge(c, identity, target, request, allowed).0.audit)
  {
  }

  lemma RotationWriteSilent(
    c: Catalog, identity: Id, endpoint: Endpoint, encoded: Bytes, expected: u64, operation: Operation)
    requires operation == RotationCutoverOp || operation == RotationRollbackOp
    ensures AppendsSilently(c.audit, RotationWrite(c, identity, endpoint, encoded, expected, operation).0.audit)
  {
  }

  /** A refused mutation logs at most a denial; any other is its locked part. */
  lemma MutationShape(c: Catalog, identity: Id, endpoint: Endpoint, allowed: bool, batch: seq<u64>, action: Action)
    ensures var d := MutateVersions(c, identity, endpoint, allowed, batch, action).0;
      AppendsSilently(c.audit, d.audit) || d == MutateLocked(c, identity, LogicalPath(endpoint.resource), batch, action).0
  {
  }

  lemma SoftDeleteShape(c: Catalog, identity: Id, endpoint: Endpoint, allowed: bool)
    ensures var d := SoftDeleteLatest(c, identity, endpoint, allowed).0;
      var path := LogicalPath(endpoint.resource);
      || AppendsSilently(c.audit, d.audit)
      || (path in c.entries && d == MutateLocked(c, identity, path, [c.entries[path].current], SoftDeleteAction).0)
  {
  }

  lemma MutateVersionsSilent(c: Catalog, step: Step)
    requires step.DoMutate? || step.DoSoftDeleteLatest?
    ensures ReadEvidence(Apply(c, step).0.audit) == ReadEvidence(c.audit)
  {
    var path := LogicalPath(step.endpoint.resource);
    var d := Apply(c, step).0;
    if step.DoMutate? {
      MutationShape(c, step.identity, step.endpoint, step.allowed, step.batch, step.action);
      MutateSilent(c, step.identity, path, step.batch, step.action);
    } else {
      SoftDeleteShape(c, step.identity, step.endpoint, step.allowed);
      if path in c.entries { MutateSilent(c, step.identity, path, [c.entries[path].current], SoftDeleteAction); }
    }
    if AppendsSilently(c.audit, d.audit) { SilentAppend(c.audit, d.audit); }
  }

  lemma OtherStepsSilent(c: Catalog, step: Step)
    requires !step.DoRead? && !step.DoMutate? && !step.DoSoftDeleteLatest?
    ensures AppendsSilently(c.audit, Apply(c, step).0.audit)
  {
    match step
    case DoWrite(identity, endpoint, allowed, secret, cas) =>
      WriteSilent(c, identity, endpoint, allowed, secret, cas);
    case DoPurge(identity, resource, request, allowed) =>
      PurgeSilent(c, identity, resource, request, allowed);
    case DoCutoverWrite(identity, endpoint, encoded, expected) =>
      RotationWriteSilent(c, identity, endpoint, encoded, expected, RotationCutoverOp);
    case DoRollbackWrite(identity, endpoint, encoded, expected) =>
      RotationWriteSilent(c, identity, endpoint, encoded, expected, RotationRollbackOp);
    case _ =>
  }

  lemma ReadLogs(c: Catalog, identity: Id, endpoint: Endpoint, allowed: bool)
    ensures var (d, r) := Read(c, identity, endpoint, allowed);
      if r.Ok?
      then d.audit == c.audit + [Event(identity, LogicalPath(endpoint.resource), ReadOp, Succeeded,
                                       Some(r.value.version), None)]
      else AppendsSilently(c.audit, d.audit)
  {
  }

  lemma StepEvidence(c: Catalog, step: Step)
    ensures ReadEvidence(Apply(c, step).0.audit) == ReadEvidence(c.audit) + Disclosed(c, step)
  {
    var d := Apply(c, step).0;
    if step.DoRead? {
      ReadLogs(c, step.identity, step.endpoint, step.allowed);
      if Disclosed(c, step) == [] {
        SilentAppend(c.audit, d.audit);
      } else {
        var event := Disclosed(c, step)[0];
        EvidenceAppends(c.audit, [event]);
        assert [event][..0] == [];
      }
    } else if step.DoMutate? || step.DoSoftDeleteLatest? {
      MutateVersionsSilent(c, step);
    } else {
      OtherStepsSilent(c, step);
      SilentAppend(c.audit, d.audit);
    }
  }

  lemma Regroup(whole: seq<Event>, a: seq<Event>, b: seq<Event>, c: seq<Event>)
    requires whole == (a + b) + c
    ensures whole == a + (b + c)
  {
  }

  /** Read successes in the log match the successful reads of the run one for one, in order. */
  lemma {:induction false} ReadsMatchLog(c: Catalog, steps: seq<Step>)
    ensures ReadEvidence(Run(c, steps).audit) == ReadEvidence(c.audit) + Disclosures(c, steps)
    decreases |steps|
  {
    if steps != [] {
      var d := Apply(c, steps[0]).0;
      StepEvidence(c, steps[0]);
      ReadsMatchLog(d, steps[1..]);
      Regroup(ReadEvidence(Run(d, steps[1..]).audit), ReadEvidence(c.audit),
              Disclosed(c, steps[0]), Disclosures(d, steps[1..]));
    }
  }

  // ---------------------------------------------------------------- the purge ceremony

  /**
    A purge that succeeds on the numbers of an earlier preflight removes exactly the entry that
    was preflighted, as long as the path was not purged in between and its generation was not
    exhausted.
   */
  lemma PurgeRemovesWhatWasPreflighted(c: Catalog, preflight: Step, between: seq<Step>, purge: Step)
    requires AllWellFormed(c)
    requires preflight.DoPreflight? && purge.DoPurge? && purge.resource == preflight.resource
    requires Apply(c, preflight).1.preflight.Ok?
    requires var numbers := Apply(c, preflight).1.preflight.value;
      numbers.generation < U64_MAX
      && purge.request.expectedGeneration == numbers.generation
      && purge.request.expectedCount == numbers.count
    requires Unpurged(Apply(c, preflight).0, between, LogicalPath(purge.resource))
    requires Apply(Run(Apply(c, preflight).0, between), purge).1.purged.Ok?
    ensures var path := LogicalPath(purge.resource);
      var f := Run(Apply(c, preflight).0, between);
      && path in f.entries && f.entries[path] == c.entries[path]
      && f.entries[path].protectedVersion == None
      && Apply(f, purge).0.entries == f.entries - {path}
  {
    var path := LogicalPath(purge.resource);
    var d := Apply(c, preflight).0;
    QuietShape(c, preflight);
    StepKeepsInvariant(c, preflight);
    RunEvolves(d, between, path);
    var f := Run(d, between);
    PurgeShape(f, purge.identity, purge.resource, purge.request, purge.allowed);
  }

  lemma RefusedUpdateChanges(c: Catalog, identity: Id, resource: Resource) returns (step: Step)
    requires resource.mount == SECRET_MOUNT && LogicalPath(resource) in c.entries
    requires c.entries[LogicalPath(resource)].generation == U64_MAX
    ensures step.DoUpdateMetadata? && Apply(c, step).1.mutated.Err?
    ensures var path := LogicalPath(resource);
      var e, d := c.entries[path], Apply(c, step).0;
      && path in d.entries && d.entries[path] != e && d.entries[path] == e.(casRequired := d.entries[path].casRequired)
      && d.failNextPurge == c.failNextPurge
  {
    var e := c.entries[LogicalPath(resource)];
    var flipped := if e.casRequired == Some(true) then false else true;
    step := DoUpdateMetadata(identity, Endpoint(Metadata, resource, None), true,
                             MetadataUpdate(Some(flipped), None, true, None, true));
  }

  /**
    The bound is exact. Whenever an unprotected entry has a used-up generation, a metadata write that
    is refused changes it all the same, and a purge on the numbers of an earlier preflight then
    succeeds and removes an entry that is not the one preflighted.
   */
  lemma ExhaustedPreflightIsStale(c: Catalog, identity: Id, resource: Resource, reason: Bytes)
    returns (preflight: Step, change: Step, purge: Step)
    requires resource.mount == SECRET_MOUNT && ReasonOk(reason) && !c.failNextPurge
    requires var path := LogicalPath(resource);
      && path in c.entries && c.entries[path].generation == U64_MAX && |c.entries[path].versions| <= U64_MAX
      && c.entries[path].protectedVersion == None && c.entries[path].protectionKnown
    ensures preflight.DoPreflight? && change.DoUpdateMetadata? && purge.DoPurge?
    ensures preflight.resource == purge.resource == resource
    ensures Apply(c, preflight).1.preflight.Ok? && Apply(c, preflight).0 == c
    ensures var numbers := Apply(c, preflight).1.preflight.value;
      purge.request.expectedGeneration == numbers.generation && purge.request.expectedCount == numbers.count
    ensures var path := LogicalPath(resource);
      var d := Apply(c, change).0;
      && Apply(c, change).1.mutated.Err?
      && path in d.entries && d.entries[path] != c.entries[path]
      && Apply(d, purge).1.purged.Ok? && Apply(d, purge).0.entries == d.entries - {path}
  {
    var count := |c.entries[LogicalPath(resource)].versions|;
    preflight := DoPreflight(identity, resource, true);
    change := RefusedUpdateChanges(c, identity, resource);
    purge := DoPurge(identity, resource,
                     PurgeRequest(resource, U64_MAX, count, reason, Some(Confirmation(resource, U64_MAX, count, reason))),
                     true);
  }
}
