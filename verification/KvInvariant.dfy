/** What every critical section keeps of every entry, and how an entry may evolve. */
module KvInvariant {
  import opened Prelude
  import opened Text
  import opened Endpoints
  import opened KvModel
  import opened KvRetention

  ghost predicate WellFormed(e: Entry) {
    && 1 <= e.generation
    && (forall v :: v in e.versions ==> 1 <= v <= e.current)
    && (e.current != 0 && e.generation < U64_MAX ==> e.current in e.versions)
    && (e.protectedVersion.Some? ==> e.protectedVersion.value in e.versions)
    && (forall v :: v in e.versions ==> (e.versions[v].state == Destroyed <==> e.versions[v].encoded == []))
  }

  ghost predicate AllWellFormed(c: Catalog) {
    forall p :: p in c.entries ==> WellFormed(c.entries[p])
  }

  /** A stored version only ever loses its bytes to a destroy, and never comes back from one. */
  ghost predicate Survives(a: VersionValue, b: VersionValue) {
    && b.created == a.created
    && (b.encoded == a.encoded || b.state == Destroyed)
    && (a.state == Destroyed ==> b.state == Destroyed)
  }

  /** Counters never fall, and every old version still held is the one held before. */
  ghost predicate Tracks(e: Entry, f: Entry) {
    && e.generation <= f.generation
    && e.current <= f.current
    && (forall v :: v in f.versions && v <= e.current ==>
          v in e.versions && Survives(e.versions[v], f.versions[v]))
  }

  /** Tracking, where an unexhausted generation that stands still means nothing changed. */
  ghost predicate Evolves(e: Entry, f: Entry) {
    && Tracks(e, f)
    && (e.generation == f.generation < U64_MAX ==> e == f)
  }

  lemma EvolvesTransitive(e: Entry, f: Entry, g: Entry)
    requires Evolves(e, f) && Evolves(f, g)
    ensures Evolves(e, g)
  {
    forall v | v in g.versions && v <= e.current
      ensures v in e.versions && Survives(e.versions[v], g.versions[v])
    {
      assert v in f.versions && Survives(f.versions[v], g.versions[v]);
    }
  }

  // ---------------------------------------------------------------- entry operations

  lemma PruneKeeps(e: Entry, max: nat)
    requires WellFormed(e)
    ensures var r := Prune(e, max);
      WellFormed(r) && Tracks(e, r)
      && r.generation == e.generation && r.current == e.current
      && r.protectedVersion == e.protectedVersion
  {
    PruneMeets(e, max);
    var r := Prune(e, max);
    assert forall v :: v in e.versions && v !in r.versions ==> v in Candidates(e);
  }

  lemma TracksTransitive(e: Entry, f: Entry, g: Entry)
    requires Tracks(e, f) && Tracks(f, g)
    ensures Tracks(e, g)
  {
    forall v | v in g.versions && v <= e.current
      ensures v in e.versions && Survives(e.versions[v], g.versions[v])
    {
      assert v in f.versions && Survives(f.versions[v], g.versions[v]);
    }
  }

  lemma AppendKeeps(e: Entry, encoded: Bytes, created: u64)
    requires WellFormed(e) && encoded != []
    ensures var (f, version) := Append(e, encoded, created);
      WellFormed(f) && Evolves(e, f) && f.protectedVersion == e.protectedVersion
      && f.generation <= e.generation + 1
      && (version.Some? <==> e.current < U64_MAX && e.generation < U64_MAX)
      && (version.Some? ==> version.value == e.current + 1 == f.current
                            && f.generation == e.generation + 1)
  {
  }

  lemma AppendAndPruneKeeps(c: Catalog, e: Entry, encoded: Bytes)
    requires WellFormed(e) && encoded != []
    ensures var (f, version) := AppendAndPrune(c, e, encoded);
      WellFormed(f) && Evolves(e, f) && f.protectedVersion == e.protectedVersion
      && f.generation <= e.generation + 1
      && (version.Some? <==> e.current < U64_MAX && e.generation < U64_MAX)
      && (version.Some? ==> version.value == e.current + 1 == f.current
                            && f.generation == e.generation + 1)
  {
    AppendKeeps(e, encoded, c.now);
    var (grown, version) := Append(e, encoded, c.now);
    if version.Some? {
      PruneKeeps(grown, Limit(c, grown));
      TracksTransitive(e, grown, Prune(grown, Limit(c, grown)));
    }
  }

  lemma UnprotectKeeps(c: Catalog, e: Entry)
    requires WellFormed(e)
    ensures var (f, ok) := Unprotect(c, e);
      WellFormed(f) && Evolves(e, f) && f.protectedVersion == None && f.current == e.current
      && f.generation <= e.generation + 1 && (ok <==> e.generation < U64_MAX)
  {
    var (bumped, ok) := Bump(e.(protectedVersion := None));
    PruneKeeps(bumped, Limit(c, bumped));
    TracksTransitive(e, bumped, Prune(bumped, Limit(c, bumped)));
  }

  lemma ChangedKeeps(action: Action, value: VersionValue, now: u64)
    requires value.state == Destroyed <==> value.encoded == []
    requires action == SoftDeleteAction ==> value.state != Destroyed
    ensures var changed := Changed(action, value, now);
      (changed.state == Destroyed <==> changed.encoded == []) && Survives(value, changed)
  {
  }

  lemma ChangeKeeps(e: Entry, batch: seq<u64>, action: Action, now: u64)
    requires WellFormed(e)
    requires action == SoftDeleteAction ==> !AnyDestroyed(e, batch)
    ensures var f := Bump(e.(versions := ChangeAll(e.versions, batch, action, now))).0;
      WellFormed(f) && Evolves(e, f) && f.protectedVersion == e.protectedVersion
      && f.generation <= e.generation + 1
  {
    var versions := ChangeAll(e.versions, batch, action, now);
    assert versions.Keys == e.versions.Keys;
    forall v | v in versions
      ensures Survives(e.versions[v], versions[v])
      ensures versions[v].state == Destroyed <==> versions[v].encoded == []
    {
      if v in batch { ChangedKeeps(action, e.versions[v], now); }
    }
  }

  // ---------------------------------------------------------------- one step of the catalog

  /** A step of the catalog removes an entry only by purging it. */
  ghost predicate Purges(c: Catalog, step: Step, path: Bytes) {
    step.DoPurge? && LogicalPath(step.resource) == path && Apply(c, step).1.purged.Ok?
  }

  ghost predicate Follows(c: Catalog, d: Catalog) {
    && AllWellFormed(d)
    && (forall p :: p in c.entries && p in d.entries ==>
          Evolves(c.entries[p], d.entries[p])
          && d.entries[p].generation <= c.entries[p].generation + 1)
    && (forall p :: p in d.entries && p !in c.entries ==> d.entries[p].generation == 2)
  }

  /** Data-plane steps leave every surviving entry's protection alone. */
  ghost predicate SameProtection(c: Catalog, d: Catalog) {
    forall p :: p in c.entries && p in d.entries ==>
      d.entries[p].protectedVersion == c.entries[p].protectedVersion
  }

  /** What a step may make of the one entry it touches. */
  ghost predicate Successor(c: Catalog, path: Bytes, f: Entry) {
    && WellFormed(f)
    && (if path in c.entries
        then Evolves(c.entries[path], f) && f.generation <= c.entries[path].generation + 1
        else f.generation == 2)
  }

  lemma EvolvesReflexive(e: Entry)
    requires WellFormed(e)
    ensures Evolves(e, e)
  {
  }

  lemma PutFollows(c: Catalog, d: Catalog, path: Bytes, f: Entry)
    requires AllWellFormed(c)
    requires Successor(c, path, f)
    requires d.entries == c.entries[path := f]
    ensures Follows(c, d)
    ensures path in c.entries && f.protectedVersion == c.entries[path].protectedVersion ==> SameProtection(c, d)
    ensures path !in c.entries ==> SameProtection(c, d)
  {
    forall p | p in c.entries && p in d.entries
      ensures Evolves(c.entries[p], d.entries[p])
              && d.entries[p].generation <= c.entries[p].generation + 1
    {
      if p != path { EvolvesReflexive(c.entries[p]); }
    }
    forall p | p in d.entries
      ensures WellFormed(d.entries[p])
    {
      if p != path { assert WellFormed(c.entries[p]); }
    }
  }

  /** The effect of every step but a purge. */
  ghost predicate Kept(c: Catalog, d: Catalog) {
    Follows(c, d) && c.entries.Keys <= d.entries.Keys
  }

  lemma SubsetFollows(c: Catalog, d: Catalog)
    requires AllWellFormed(c)
    requires d.entries.Keys <= c.entries.Keys
    requires forall p :: p in d.entries ==> d.entries[p] == c.entries[p]
    ensures Follows(c, d) && SameProtection(c, d)
  {
    forall p | p in c.entries && p in d.entries
      ensures Evolves(c.entries[p], d.entries[p])
    {
      EvolvesReflexive(c.entries[p]);
    }
  }

  lemma Stays(c: Catalog, d: Catalog)
    requires AllWellFormed(c) && d.entries == c.entries
    ensures Kept(c, d) && SameProtection(c, d)
  {
    SubsetFollows(c, d);
  }

  lemma Moves(c: Catalog, d: Catalog, path: Bytes, f: Entry)
    requires AllWellFormed(c) && Successor(c, path, f)
    requires d.entries == c.entries[path := f]
    ensures Kept(c, d)
    ensures f.protectedVersion == EntryAt(c, path).protectedVersion ==> SameProtection(c, d)
  {
    PutFollows(c, d, path, f);
  }

  lemma WriteShape(
    c: Catalog, identity: Id, endpoint: Endpoint, allowed: bool, secret: Secret, cas: Option<u64>)
    ensures var d := Write(c, identity, endpoint, allowed, secret, cas).0;
      var path := LogicalPath(endpoint.resource);
      d.entries == c.entries
      || d.entries == c.entries[path := AppendAndPrune(c, EntryAt(c, path), secret.encoded).0]
  {
  }

  lemma WriteStep(
    c: Catalog, identity: Id, endpoint: Endpoint, allowed: bool, secret: Secret, cas: Option<u64>)
    requires AllWellFormed(c)
    ensures var d := Write(c, identity, endpoint, allowed, secret, cas).0;
      Kept(c, d) && SameProtection(c, d)
  {
    var path := LogicalPath(endpoint.resource);
    var d := Write(c, identity, endpoint, allowed, secret, cas).0;
    var f := AppendAndPrune(c, EntryAt(c, path), secret.encoded).0;
    WriteShape(c, identity, endpoint, allowed, secret, cas);
    if d.entries == c.entries {
      Stays(c, d);
    } else {
      AppendAndPruneKeeps(c, EntryAt(c, path), secret.encoded);
      Moves(c, d, path, f);
    }
  }

  lemma MutateStep(c: Catalog, identity: Id, path: Bytes, batch: seq<u64>, action: Action)
    requires AllWellFormed(c)
    ensures var d := MutateLocked(c, identity, path, batch, action).0;
      Kept(c, d) && SameProtection(c, d)
  {
    var d := MutateLocked(c, identity, path, batch, action).0;
    if d.entries == c.entries {
      Stays(c, d);
    } else {
      var e := c.entries[path];
      ChangeKeeps(e, batch, action, c.now);
      var f := Bump(e.(versions := ChangeAll(e.versions, batch, action, c.now))).0;
      assert d.entries == c.entries[path := f];
      Moves(c, d, path, f);
    }
  }

  lemma MutateVersionsStep(
    c: Catalog, identity: Id, endpoint: Endpoint, allowed: bool, batch: seq<u64>, action: Action)
    requires AllWellFormed(c)
    ensures var d := MutateVersions(c, identity, endpoint, allowed, batch, action).0;
      Kept(c, d) && SameProtection(c, d)
  {
    var d := MutateVersions(c, identity, endpoint, allowed, batch, action).0;
    if d.entries == c.entries {
      Stays(c, d);
    } else {
      assert d == MutateLocked(c, identity, LogicalPath(endpoint.resource), batch, action).0;
      MutateStep(c, identity, LogicalPath(endpoint.resource), batch, action);
    }
  }

  lemma SoftDeleteLatestStep(c: Catalog, identity: Id, endpoint: Endpoint, allowed: bool)
    requires AllWellFormed(c)
    ensures var d := SoftDeleteLatest(c, identity, endpoint, allowed).0;
      Kept(c, d) && SameProtection(c, d)
  {
    var path := LogicalPath(endpoint.resource);
    var d := SoftDeleteLatest(c, identity, endpoint, allowed).0;
    if d.entries == c.entries {
      Stays(c, d);
    } else {
      var batch := [c.entries[path].current];
      assert d == MutateLocked(c, identity, path, batch, SoftDeleteAction).0;
      MutateStep(c, identity, path, batch, SoftDeleteAction);
    }
  }

  lemma UpdatedKeeps(e: Entry, update: MetadataUpdate)
    requires WellFormed(e)
    requires update.maxVersions.Some? ==> update.maxVersions.value <= MAX_VERSIONS
    ensures var f := Bump(Updated(e, update)).0;
      WellFormed(f) && Evolves(e, f) && f.protectedVersion == e.protectedVersion
      && f.generation <= e.generation + 1 && (e.generation == 1 ==> f.generation == 2)
  {
    assert Updated(e, update).versions == e.versions;
  }

  lemma MetadataStep(
    c: Catalog, identity: Id, endpoint: Endpoint, allowed: bool, update: MetadataUpdate)
    requires AllWellFormed(c)
    ensures var d := UpdateMetadata(c, identity, endpoint, allowed, update).0;
      Kept(c, d) && SameProtection(c, d)
  {
    var path := LogicalPath(endpoint.resource);
    var d := UpdateMetadata(c, identity, endpoint, allowed, update).0;
    if d.entries == c.entries {
      Stays(c, d);
    } else {
      UpdatedKeeps(EntryAt(c, path), update);
      var f := Bump(Updated(EntryAt(c, path), update)).0;
      assert d.entries == c.entries[path := f];
      Moves(c, d, path, f);
    }
  }

  lemma ProtectStep(c: Catalog, endpoint: Endpoint, expected: u64)
    requires AllWellFormed(c)
    ensures Kept(c, Protect(c, endpoint, expected).0)
  {
    var path := LogicalPath(endpoint.resource);
    var d := Protect(c, endpoint, expected).0;
    if d.entries == c.entries {
      Stays(c, d);
    } else {
      var f := Bump(c.entries[path].(protectedVersion := Some(expected), protectionKnown := true)).0;
      assert d.entries == c.entries[path := f];
      Moves(c, d, path, f);
    }
  }

  lemma ReleaseStep(c: Catalog, endpoint: Endpoint, expected: u64)
    requires AllWellFormed(c)
    ensures Kept(c, Release(c, endpoint, expected).0)
  {
    var path := LogicalPath(endpoint.resource);
    var d := Release(c, endpoint, expected).0;
    if d.entries == c.entries {
      Stays(c, d);
    } else {
      var f := Unprotect(c, c.entries[path]).0;
      assert d.entries == c.entries[path := f];
      UnprotectKeeps(c, c.entries[path]);
      Moves(c, d, path, f);
    }
  }

  lemma RotationWriteStep(
    c: Catalog, identity: Id, endpoint: Endpoint, encoded: Content, expected: u64, operation: Operation)
    requires AllWellFormed(c)
    requires operation == RotationCutoverOp || operation == RotationRollbackOp
    ensures var d := RotationWrite(c, identity, endpoint, encoded, expected, operation).0;
      Kept(c, d) && SameProtection(c, d)
  {
    var path := LogicalPath(endpoint.resource);
    var d := RotationWrite(c, identity, endpoint, encoded, expected, operation).0;
    if d.entries == c.entries {
      Stays(c, d);
    } else {
      var f := Append(c.entries[path], encoded, c.now).0;
      assert d.entries == c.entries[path := f];
      AppendKeeps(c.entries[path], encoded, c.now);
      Moves(c, d, path, f);
    }
  }

  lemma PurgeShape(c: Catalog, identity: Id, target: Resource, request: PurgeRequest, allowed: bool)
    ensures var (d, r) := Purge(c, identity, target, request, allowed);
      var path := LogicalPath(target);
      && (r.Err? ==> d.entries == c.entries)
      && (r.Ok? ==> path in c.entries && c.entries[path].protectedVersion == None
                    && d.entries == c.entries - {path})
  {
  }

  lemma PurgeStep(c: Catalog, d: Catalog, path: Bytes)
    requires AllWellFormed(c)
    requires path in c.entries && d.entries == c.entries - {path}
    ensures Follows(c, d) && SameProtection(c, d)
  {
    SubsetFollows(c, d);
  }

  lemma QuietShape(c: Catalog, step: Step)
    requires step.Configure? || step.DoRead? || step.DoPreflight?
    ensures Apply(c, step).0.entries == c.entries
  {
  }

  /** Every step but a successful purge. */
  lemma KeepingStep(c: Catalog, step: Step)
    requires AllWellFormed(c) && !step.DoPurge?
    ensures Kept(c, Apply(c, step).0)
    ensures DataPlane(step) ==> SameProtection(c, Apply(c, step).0)
  {
    match step
    case DoWrite(identity, endpoint, allowed, secret, cas) =>
      WriteStep(c, identity, endpoint, allowed, secret, cas);
    case DoMutate(identity, endpoint, allowed, batch, action) =>
      MutateVersionsStep(c, identity, endpoint, allowed, batch, action);
    case DoSoftDeleteLatest(identity, endpoint, allowed) =>
      SoftDeleteLatestStep(c, identity, endpoint, allowed);
    case DoUpdateMetadata(identity, endpoint, allowed, update) =>
      MetadataStep(c, identity, endpoint, allowed, update);
    case DoProtect(endpoint, expected) => ProtectStep(c, endpoint, expected);
    case DoRelease(endpoint, expected) => ReleaseStep(c, endpoint, expected);
    case DoCutoverWrite(identity, endpoint, encoded, expected) =>
      RotationWriteStep(c, identity, endpoint, encoded, expected, RotationCutoverOp);
    case DoRollbackWrite(identity, endpoint, encoded, expected) =>
      RotationWriteStep(c, identity, endpoint, encoded, expected, RotationRollbackOp);
    case _ =>
      QuietShape(c, step);
      Stays(c, Apply(c, step).0);
  }

  ghost predicate StepEffect(c: Catalog, step: Step, d: Catalog) {
    && Follows(c, d)
    && (DataPlane(step) ==> SameProtection(c, d))
    && (forall p :: p in c.entries ==> (p !in d.entries <==> Purges(c, step, p)))
    && (forall p :: p in c.entries && Purges(c, step, p) ==> c.entries[p].protectedVersion == None)
  }

  /**
    The invariant of the store. Every critical section keeps every entry well formed, lets
    entries only evolve, drops one only by a purge, purges only unprotected entries, and, unless
    it is a rotation primitive, moves no protection.
   */
  lemma StepKeepsInvariant(c: Catalog, step: Step)
    requires AllWellFormed(c)
    ensures StepEffect(c, step, Apply(c, step).0)
  {
    var d := Apply(c, step).0;
    if step.DoPurge? {
      PurgeShape(c, step.identity, step.resource, step.request, step.allowed);
      if Apply(c, step).1.purged.Ok? {
        PurgeStep(c, d, LogicalPath(step.resource));
      } else {
        Stays(c, d);
      }
    } else {
      KeepingStep(c, step);
    }
  }
}
