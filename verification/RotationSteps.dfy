/** The critical sections of rotation commands keep the invariant. */
module RotationSteps {
  import opened Prelude
  import opened Text
  import opened Endpoints
  import opened RotationModel
  import opened RotationInvariant
  import Kv = KvModel
  import KI = KvInvariant

  // ---------------------------------------------------------------- read-only sections

  lemma OwnClaim(s: System)
    requires Inv(s) && s.pending.Running? && !s.pending.command.Begin? && !s.pending.pc.AtInstall?
    ensures var r := s.pending.current.value.record;
      && s.pending.current.Some?
      && RowOk(s.pending.command.id, s.pending.current.value)
      && PathOf(r.resource) == LogicalPath(s.pending.endpoint.resource)
      && s.pending.endpoint.kind == Data && s.pending.endpoint.resource.mount == SECRET_MOUNT
      && Held(s.kv, PathOf(r.resource), r.protectedVersion, LastVersion(r))
  {
    var id := s.pending.command.id;
    assert RowOk(id, s.rows[id]) && ClaimHeld(s, id);
  }

  lemma SnapshotForSupersede(s: System, live: u64)
    requires Inv(s) && s.pending.Running? && s.pending.pc.AtSnapshot? && s.pending.command.Supersede?
    ensures Inv(AfterSnapshot(s, live))
  {
    OwnClaim(s);
    if live <= s.pending.current.value.record.targetVersion.value {
      FinishKeeps(s, s.kv, Failed(CasConflict));
    } else {
      GotoKeeps(s, AtRelease(live));
    }
  }

  lemma SnapshotForOthers(s: System, live: u64)
    requires Inv(s) && s.pending.Running? && s.pending.pc.AtSnapshot? && !s.pending.command.Supersede?
    requires Kv.RotationSnapshot(s.kv, s.pending.endpoint).Ok?
    requires live == Kv.RotationSnapshot(s.kv, s.pending.endpoint).value.current
    ensures Inv(AfterSnapshot(s, live))
  {
    GotoKeeps(s, if s.pending.command.Rollback? then AtCopy(live) else AtProtect(live));
  }

  lemma SnapshotSection(s: System)
    requires Inv(s) && s.pending.Running? && s.pending.pc.AtSnapshot?
    ensures Inv(Advance(s))
  {
    var r := Kv.RotationSnapshot(s.kv, s.pending.endpoint);
    if r.Err? {
      FinishKeeps(s, s.kv, Failed(MapKv(r.error)));
    } else if s.pending.command.Supersede? {
      SnapshotForSupersede(s, r.value.current);
    } else {
      SnapshotForOthers(s, r.value.current);
    }
  }

  lemma CopySection(s: System)
    requires Inv(s) && s.pending.Running? && s.pending.pc.AtCopy?
    ensures Inv(Advance(s))
  {
    var live := s.pending.pc.live;
    var r := Kv.CopyProtected(s.kv, s.pending.endpoint, live, s.pending.current.value.record.protectedVersion);
    if r.Err? || r.value == [] {
      FinishKeeps(s, s.kv, Failed(if r.Err? then MapKv(r.error) else Invalid));
    } else {
      CopiedKeeps(s, AtWrite(live, r.value));
    }
  }

  lemma CopiedKeeps(s: System, pc: Pc)
    requires Inv(s) && s.pending.Running? && s.pending.pc.AtCopy? && pc.AtWrite?
    ensures Inv(Goto(s, pc))
  {
    GotoKeeps(s, pc);
  }

  // ---------------------------------------------------------------- sections that change an entry

  lemma OtherCarries(s: System, t: System, path: Bytes, id: Id)
    requires s.pending.Running? && t.pending.Running? && t.pending.command == s.pending.command
    requires s.pending.command.Begin? || s.pending.command.id != id
    requires id in s.rows && RowOk(id, s.rows[id]) && ClaimHeld(s, id) && t.rows == s.rows
    requires PathOf(s.rows[id].record.resource) != path && ChangesOnly(s.kv, t.kv, path)
    requires s.pending.command.Begin? ==> s.pending.command.id !in s.rows
    ensures ClaimHeld(t, id)
  {
    ClaimCarries(s, t, id);
  }

  /** Claims survive a change confined to one path, except perhaps the claim on that path. */
  lemma OthersCarry(s: System, t: System, path: Bytes, own: Option<Id>)
    requires RowsOk(s.rows) && ClaimsHeld(s) && t.rows == s.rows
    requires ChangesOnly(s.kv, t.kv, path)
    requires forall id :: id in s.rows && Some(id) != own && Open(s.rows[id].record.state) ==>
      PathOf(s.rows[id].record.resource) != path
    requires s.pending.Running? && t.pending.Running? && t.pending.command == s.pending.command
    requires own == (if s.pending.command.Begin? then None else Some(s.pending.command.id))
    requires own.Some? ==> own.value in t.rows && ClaimHeld(t, own.value)
    requires own.None? ==> s.pending.command.id !in s.rows
    ensures ClaimsHeld(t)
  {
    forall id | id in t.rows
      ensures ClaimHeld(t, id)
    {
      if Some(id) != own {
        assert RowOk(id, s.rows[id]) && ClaimHeld(s, id);
        if Open(s.rows[id].record.state) { OtherCarries(s, t, path, id); }
      }
    }
  }

  lemma OthersElsewhere(s: System)
    requires Inv(s) && s.pending.Running? && !s.pending.command.Begin? && !s.pending.pc.AtInstall?
    ensures forall id :: id in s.rows && id != s.pending.command.id && Open(s.rows[id].record.state) ==>
      PathOf(s.rows[id].record.resource) != LogicalPath(s.pending.endpoint.resource)
  {
    OwnClaim(s);
    var own := s.pending.command.id;
    forall id | id in s.rows && id != own && Open(s.rows[id].record.state)
      ensures PathOf(s.rows[id].record.resource) != LogicalPath(s.pending.endpoint.resource)
    {
      OtherPath(s.rows, id, own);
    }
  }

  lemma NobodyThere(s: System, resource: Bytes)
    requires RowsOk(s.rows) && !HasOpen(s.rows, resource)
    requires EndpointFor(resource).Some? && EndpointFor(resource).value.resource.mount == SECRET_MOUNT
    ensures forall id :: id in s.rows && Open(s.rows[id].record.state) ==>
      PathOf(s.rows[id].record.resource) != PathOf(resource)
  {
    forall id | id in s.rows && Open(s.rows[id].record.state)
      ensures PathOf(s.rows[id].record.resource) != PathOf(resource)
    {
      assert RowOk(id, s.rows[id]);
      assert s.rows[id].record.resource != resource;
      if PathOf(s.rows[id].record.resource) == PathOf(resource) {
        ResourceFromPath(s.rows[id].record.resource, resource);
      }
    }
  }

  lemma ProtectForBegin(s: System, kv: Kv.Catalog)
    requires Inv(s) && s.pending.Running? && s.pending.pc.AtProtect? && s.pending.command.Begin?
    requires var live := s.pending.pc.live;
      var path := LogicalPath(s.pending.endpoint.resource);
      && KI.AllWellFormed(kv) && ChangesOnly(s.kv, kv, path)
      && s.pending.endpoint.resource.mount == SECRET_MOUNT && live >= 1 && Held(kv, path, live, live)
    ensures Inv(Goto(s.(kv := kv), AtInstall(s.pending.pc.live)))
  {
    var t := Goto(s.(kv := kv), AtInstall(s.pending.pc.live));
    var resource := s.pending.command.resource;
    NobodyThere(s, resource);
    OthersCarry(s, t, LogicalPath(s.pending.endpoint.resource), None);
  }

  lemma ProtectForRefresh(s: System, kv: Kv.Catalog)
    requires Inv(s) && s.pending.Running? && s.pending.pc.AtProtect? && !s.pending.command.Begin?
    requires var live := s.pending.pc.live;
      var path := LogicalPath(s.pending.endpoint.resource);
      && KI.AllWellFormed(kv) && ChangesOnly(s.kv, kv, path)
      && path in s.kv.entries && s.kv.entries[path].current == live >= 1 && Held(kv, path, live, live)
    ensures Inv(Goto(s.(kv := kv), AtInstall(s.pending.pc.live)))
  {
    var t := Goto(s.(kv := kv), AtInstall(s.pending.pc.live));
    OwnClaim(s);
    OthersElsewhere(s);
    OthersCarry(s, t, LogicalPath(s.pending.endpoint.resource), Some(s.pending.command.id));
  }

  /** A begin that fails to count its protection leaves it on an entry no open record counts on. */
  lemma StrandedBegin(s: System, kv: Kv.Catalog, reply: Reply)
    requires Inv(s) && s.pending.Running? && s.pending.pc.AtProtect? && s.pending.command.Begin?
    requires KI.AllWellFormed(kv) && ChangesOnly(s.kv, kv, LogicalPath(s.pending.endpoint.resource))
    requires s.pending.endpoint.resource.mount == SECRET_MOUNT
    ensures Inv(Finish(s.(kv := kv), reply))
  {
    var t := Finish(s.(kv := kv), reply);
    NobodyThere(s, s.pending.command.resource);
    forall id | id in t.rows
      ensures ClaimHeld(t, id)
    {
      assert RowOk(id, s.rows[id]) && ClaimHeld(s, id);
      if Open(s.rows[id].record.state) { ClaimCarries(s, t, id); }
    }
  }

  /** A refresh that fails to count its protection loses nothing if the version was protected already. */
  lemma StrandedRefresh(s: System, kv: Kv.Catalog, reply: Reply)
    requires Inv(s) && s.pending.Running? && s.pending.pc.AtProtect? && !s.pending.command.Begin?
    requires s.pending.pc.live == s.rows[s.pending.command.id].record.protectedVersion
    requires var path := LogicalPath(s.pending.endpoint.resource);
      && KI.AllWellFormed(kv) && ChangesOnly(s.kv, kv, path)
      && Protectable(s.kv, path, s.pending.pc.live) && Held(kv, path, s.pending.pc.live, s.pending.pc.live)
    ensures Inv(Finish(s.(kv := kv), reply))
  {
    OwnClaim(s);
    ChangeIsSteady(s.kv, kv, LogicalPath(s.pending.endpoint.resource));
    FinishKeeps(s, kv, reply);
  }

  lemma ProtectSection(s: System)
    requires Inv(s) && !Loses(s) && s.pending.Running? && s.pending.pc.AtProtect?
    ensures Inv(Advance(s))
  {
    var (kv, r) := Kv.Protect(s.kv, s.pending.endpoint, s.pending.pc.live);
    ProtectEffect(s.kv, s.pending.endpoint, s.pending.pc.live);
    if r.Err? {
      var reply := Failed(MapKv(r.error));
      if kv == s.kv {
        FinishKeeps(s, kv, reply);
      } else if s.pending.command.Begin? {
        StrandedBegin(s, kv, reply);
      } else {
        StrandedRefresh(s, kv, reply);
      }
    } else if s.pending.command.Begin? {
      ProtectForBegin(s, kv);
    } else {
      ProtectForRefresh(s, kv);
    }
  }

  lemma WroteForCutover(s: System, kv: Kv.Catalog, version: u64)
    requires Inv(s) && s.pending.Running? && s.pending.pc.AtWrite? && s.pending.command.CutOver?
    requires version == s.pending.pc.expected + 1
    requires var path := LogicalPath(s.pending.endpoint.resource);
      && KI.AllWellFormed(kv) && ChangesOnly(s.kv, kv, path)
      && Held(kv, path, s.pending.current.value.record.protectedVersion, version)
    ensures Inv(Goto(s.(kv := kv), AtInstall(version)))
  {
    var t := Goto(s.(kv := kv), AtInstall(version));
    OwnClaim(s);
    OthersElsewhere(s);
    OthersCarry(s, t, LogicalPath(s.pending.endpoint.resource), Some(s.pending.command.id));
  }

  lemma WroteForRollback(s: System, kv: Kv.Catalog, version: u64)
    requires Inv(s) && s.pending.Running? && s.pending.pc.AtWrite? && s.pending.command.Rollback?
    requires var path := LogicalPath(s.pending.endpoint.resource);
      && KI.AllWellFormed(kv) && ChangesOnly(s.kv, kv, path)
      && path in s.kv.entries && version == s.kv.entries[path].current + 1
      && Held(kv, path, s.pending.current.value.record.protectedVersion, version)
    ensures Inv(Goto(s.(kv := kv), AtRelease(version)))
  {
    var t := Goto(s.(kv := kv), AtRelease(version));
    OwnClaim(s);
    OthersElsewhere(s);
    OthersCarry(s, t, LogicalPath(s.pending.endpoint.resource), Some(s.pending.command.id));
  }

  lemma CutoverEffect(kv: Kv.Catalog, identity: Id, endpoint: Endpoint, secret: Kv.Secret, expected: u64)
    requires KI.AllWellFormed(kv)
    ensures var (d, r) := Kv.RotationCutover(kv, identity, endpoint, secret, expected);
      Wrote(kv, d, r, LogicalPath(endpoint.resource), expected)
  {
    WriteEffect(kv, identity, endpoint, secret.encoded, expected, Kv.RotationCutoverOp);
  }

  /** Where a write section goes with what its write answers. */
  function AfterWrite(s: System, kv: Kv.Catalog, r: Result<Kv.Written, Kv.KvError>): System
    requires s.pending.Running?
  {
    if r.Err? then Finish(s.(kv := kv), Failed(MapKv(r.error)))
    else Goto(s.(kv := kv), if s.pending.command.CutOver? then AtInstall(r.value.version) else AtRelease(r.value.version))
  }

  lemma CutoverIs(s: System)
    requires Coherent(s.pending) && s.pending.Running? && s.pending.pc.AtWrite? && s.pending.command.CutOver?
    ensures var Running(c, endpoint, current, pc) := s.pending;
      var (kv, r) := Kv.RotationCutover(s.kv, c.caller.identity, endpoint, c.replacement, pc.expected);
      Advance(s) == AfterWrite(s, kv, r)
  {
  }

  lemma RollbackIs(s: System)
    requires Coherent(s.pending) && s.pending.Running? && s.pending.pc.AtWrite? && s.pending.command.Rollback?
    ensures var Running(c, endpoint, current, pc) := s.pending;
      var (kv, r) := Kv.RotationWrite(s.kv, c.caller.identity, endpoint, pc.encoded, pc.expected, Kv.RotationRollbackOp);
      Advance(s) == AfterWrite(s, kv, r)
  {
  }

  lemma WroteKeeps(s: System, kv: Kv.Catalog, r: Result<Kv.Written, Kv.KvError>)
    requires Inv(s) && s.pending.Running? && s.pending.pc.AtWrite?
    requires Wrote(s.kv, kv, r, LogicalPath(s.pending.endpoint.resource), s.pending.pc.expected)
    ensures Inv(AfterWrite(s, kv, r))
  {
    OwnClaim(s);
    if r.Err? {
      FinishKeeps(s, kv, Failed(MapKv(r.error)));
    } else if s.pending.command.CutOver? {
      WroteForCutover(s, kv, r.value.version);
    } else {
      WroteForRollback(s, kv, r.value.version);
    }
  }

  lemma CutoverWriteSection(s: System)
    requires Inv(s) && s.pending.Running? && s.pending.pc.AtWrite? && s.pending.command.CutOver?
    ensures Inv(Advance(s))
  {
    var Running(c, endpoint, current, pc) := s.pending;
    CutoverIs(s);
    CutoverEffect(s.kv, c.caller.identity, endpoint, c.replacement, pc.expected);
    var (kv, r) := Kv.RotationCutover(s.kv, c.caller.identity, endpoint, c.replacement, pc.expected);
    WroteKeeps(s, kv, r);
  }

  lemma RollbackWriteSection(s: System)
    requires Inv(s) && s.pending.Running? && s.pending.pc.AtWrite? && s.pending.command.Rollback?
    ensures Inv(Advance(s))
  {
    var Running(c, endpoint, current, pc) := s.pending;
    RollbackIs(s);
    WriteEffect(s.kv, c.caller.identity, endpoint, pc.encoded, pc.expected, Kv.RotationRollbackOp);
    var (kv, r) := Kv.RotationWrite(s.kv, c.caller.identity, endpoint, pc.encoded, pc.expected, Kv.RotationRollbackOp);
    WroteKeeps(s, kv, r);
  }

  lemma WriteSection(s: System)
    requires Inv(s) && s.pending.Running? && s.pending.pc.AtWrite?
    ensures Inv(Advance(s))
  {
    if s.pending.command.CutOver? { CutoverWriteSection(s); } else { RollbackWriteSection(s); }
  }

  lemma Released(s: System, kv: Kv.Catalog)
    requires Inv(s) && s.pending.Running? && s.pending.pc.AtRelease?
    requires KI.AllWellFormed(kv) && ChangesOnly(s.kv, kv, LogicalPath(s.pending.endpoint.resource))
    ensures Inv(Goto(s.(kv := kv), AtInstall(s.pending.pc.version)))
  {
    var t := Goto(s.(kv := kv), AtInstall(s.pending.pc.version));
    OwnClaim(s);
    OthersElsewhere(s);
    OthersCarry(s, t, LogicalPath(s.pending.endpoint.resource), Some(s.pending.command.id));
  }

  lemma ReleaseIs(s: System)
    requires Coherent(s.pending) && s.pending.Running? && s.pending.pc.AtRelease? && s.pending.current.Some?
    ensures var (kv, r) := Kv.Release(s.kv, s.pending.endpoint, s.pending.current.value.record.protectedVersion);
      Advance(s) == if r.Err? then Finish(s.(kv := kv), Failed(MapKv(r.error)))
                    else Goto(s.(kv := kv), AtInstall(s.pending.pc.version))
  {
  }

  /** What the store is after a release of the record's own protection, and whether it was counted. */
  lemma ReleaseOutcome(s: System) returns (kv: Kv.Catalog, ok: bool, reply: Reply)
    requires Inv(s) && s.pending.Running? && s.pending.pc.AtRelease?
    ensures var path := LogicalPath(s.pending.endpoint.resource);
      && KI.AllWellFormed(kv) && ChangesOnly(s.kv, kv, path)
      && path in kv.entries && kv.entries[path].protectedVersion == None
      && (ok <==> !Exhausted(s.kv, path))
    ensures Advance(s) == if ok then Goto(s.(kv := kv), AtInstall(s.pending.pc.version)) else Finish(s.(kv := kv), reply)
  {
    OwnClaim(s);
    var version := s.pending.current.value.record.protectedVersion;
    ReleaseIs(s);
    ReleaseEffect(s.kv, s.pending.endpoint, version);
    var (d, r) := Kv.Release(s.kv, s.pending.endpoint, version);
    kv, ok := d, r.Ok?;
    reply := if r.Err? then Failed(MapKv(r.error)) else Failed(Invalid);
  }

  /** Releasing fails only where it loses: the claim guarantees the protection it expects. */
  lemma ReleaseSection(s: System)
    requires Inv(s) && !Loses(s) && s.pending.Running? && s.pending.pc.AtRelease?
    ensures Inv(Advance(s)) && Advance(s).pending.Running?
  {
    var kv, ok, reply := ReleaseOutcome(s);
    Released(s, kv);
  }

  // ---------------------------------------------------------------- losing a protection

  /** The claim of an open record has gone, and no command is left to mend it. */
  ghost predicate Uncoupled(t: System, id: Id) {
    && t.pending.Idle? && id in t.rows && Open(t.rows[id].record.state)
    && var r := t.rows[id].record;
    && PathOf(r.resource) in t.kv.entries
    && t.kv.entries[PathOf(r.resource)].protectedVersion != Some(r.protectedVersion)
  }

  lemma ReleaseLoses(s: System)
    requires Inv(s) && Loses(s) && s.pending.pc.AtRelease?
    ensures Advance(s).rows == s.rows && Uncoupled(Advance(s), s.pending.command.id)
  {
    var kv, ok, reply := ReleaseOutcome(s);
    OwnClaim(s);
  }

  lemma RefreshLoses(s: System)
    requires Inv(s) && Loses(s) && s.pending.pc.AtProtect?
    ensures Advance(s).rows == s.rows && Uncoupled(Advance(s), s.pending.command.id)
  {
    OwnClaim(s);
    ProtectShape(s.kv, s.pending.endpoint, s.pending.pc.live);
  }

  lemma UncoupledBreaks(t: System, id: Id)
    requires Uncoupled(t, id)
    ensures !Inv(t)
  {
  }

  // ---------------------------------------------------------------- installing

  /** What a replacement adds to the history continues its spelling and does not lower the version. */
  lemma ReplacementHistory(c: Command, row: Row, version: u64)
    requires !c.Begin? && RowOk(c.id, row) && row.record.state == RequiredState(c)
    requires PcFits(c, row.record, AtInstall(version))
    ensures var h := Replacement(c, Some(row), version).history;
      |h| == |row.record.history| + 1 && WellSpelled(h) && VersionsNeverFall(h)
  {
    var r := row.record;
    var t := Transition(Replacement(c, Some(row), version).state, c.effective, version);
    assert Replacement(c, Some(row), version).history == r.history + [t];
    WellSpelledGrows(r.history, t);
    VersionsGrow(r.history, t);
  }

  lemma ReplacementFits(c: Command, row: Row, version: u64)
    requires !c.Begin? && RowOk(c.id, row) && row.record.state == RequiredState(c)
    requires c.effective != 0 && (c.Refresh? ==> SnapshotOk(c.snapshot))
    requires |row.record.history| < MAX_HISTORY && PcFits(c, row.record, AtInstall(version))
    ensures var r := Replacement(c, Some(row), version);
      && r.id == c.id && r.resource == row.record.resource && r.history != [] && Sealable(r) && NamesFit(r)
      && (r.state == Superseded ==> LastVersion(r) > r.targetVersion.value)
  {
  }

  lemma ReplacementOk(c: Command, row: Row, version: u64)
    requires !c.Begin? && RowOk(c.id, row) && row.record.state == RequiredState(c)
    requires c.effective != 0 && (c.Refresh? ==> SnapshotOk(c.snapshot))
    requires row.generation == c.generation && |row.record.history| < MAX_HISTORY
    requires PcFits(c, row.record, AtInstall(version))
    ensures RowOk(c.id, Row(Replacement(c, Some(row), version), c.generation + 1))
    ensures Replacement(c, Some(row), version).resource == row.record.resource
  {
    ReplacementHistory(c, row, version);
    ReplacementFits(c, row, version);
  }

  lemma OwnInstallClaim(s: System, t: System, row: Row)
    requires Inv(s) && s.pending.Running? && s.pending.pc.AtInstall? && !s.pending.command.Begin?
    requires t.pending.Idle? && t.kv == s.kv && t.rows == s.rows[s.pending.command.id := row]
    requires row.record == Replacement(s.pending.command, s.pending.current, s.pending.pc.version)
    ensures ClaimHeld(t, s.pending.command.id)
  {
    var own, c := s.pending.command.id, s.pending.command;
    if c.Refresh? || c.CutOver? {
      OpenClaimMoves(s, row);
    } else {
      assert !Open(row.record.state);
    }
  }

  lemma OpenClaimMoves(s: System, row: Row)
    requires Inv(s) && s.pending.Running? && s.pending.pc.AtInstall?
    requires s.pending.command.Refresh? || s.pending.command.CutOver?
    requires row.record == Replacement(s.pending.command, s.pending.current, s.pending.pc.version)
    ensures row.record.history != [] && LastVersion(row.record) == s.pending.pc.version
    ensures Held(s.kv, PathOf(row.record.resource), row.record.protectedVersion, s.pending.pc.version)
  {
    var own := s.pending.command.id;
    assert RowOk(own, s.rows[own]) && ClaimHeld(s, own);
  }

  /** Once a row is installed, the claims in flight become the claims of the rows. */
  lemma InstallClaims(s: System, t: System, row: Row)
    requires Inv(s) && s.pending.Running? && s.pending.pc.AtInstall? && !s.pending.command.Begin?
    requires t.pending.Idle? && t.kv == s.kv && t.rows == s.rows[s.pending.command.id := row]
    requires row.record == Replacement(s.pending.command, s.pending.current, s.pending.pc.version)
    ensures ClaimsHeld(t)
  {
    var own := s.pending.command.id;
    OwnInstallClaim(s, t, row);
    forall id | id in t.rows
      ensures ClaimHeld(t, id)
    {
      if id != own {
        assert RowOk(id, s.rows[id]) && ClaimHeld(s, id);
        ClaimCarries(s, t, id);
      }
    }
  }

  lemma NoOtherOpen(rows: map<Id, Row>, id: Id, resource: Bytes)
    requires OneOpenEach(rows) && id in rows && Open(rows[id].record.state)
    requires rows[id].record.resource == resource
    ensures forall other :: other in rows && other != id && Open(rows[other].record.state) ==>
      rows[other].record.resource != resource
  {
    forall other | other in rows && other != id && Open(rows[other].record.state)
      ensures rows[other].record.resource != resource
    {
      assert !BothOpen(rows[other].record, rows[id].record);
    }
  }

  lemma InstallRow(s: System)
    requires Inv(s) && s.pending.Running? && s.pending.pc.AtInstall? && !s.pending.command.Begin?
    ensures Inv(Advance(s))
    ensures var c := s.pending.command;
      Advance(s).rows == s.rows[c.id := Row(Replacement(c, s.pending.current, s.pending.pc.version), c.generation + 1)]
  {
    var c := s.pending.command;
    assert RowOk(c.id, s.rows[c.id]);
    ReplacementOk(c, s.rows[c.id], s.pending.pc.version);
    var row := DueRow(s);
    InstallIs(s);
    NoOtherOpen(s.rows, c.id, row.record.resource);
    InstalledRowsOk(s.rows, c.id, row);
    InstallClaims(s, Advance(s), row);
  }

  lemma BeginReplacement(c: Command, version: u64)
    requires c.Begin? && Sealable(Replacement(c, None, version))
    requires EndpointFor(c.resource).value.resource.mount == SECRET_MOUNT
    ensures RowOk(c.id, Row(Replacement(c, None, version), 1))
  {
    var h := Replacement(c, None, version).history;
    assert PreparedUpTo(h, 1) && TailFrom(h, 1);
  }

  lemma BeginClaims(s: System, t: System, row: Row)
    requires Inv(s) && s.pending.Running? && s.pending.pc.AtInstall? && s.pending.command.Begin?
    requires t.pending.Idle? && t.kv == s.kv && t.rows == s.rows[s.pending.command.id := row]
    requires row.record == Replacement(s.pending.command, None, s.pending.pc.version)
    ensures ClaimsHeld(t)
  {
    forall id | id in t.rows
      ensures ClaimHeld(t, id)
    {
      if id != s.pending.command.id {
        assert RowOk(id, s.rows[id]) && ClaimHeld(s, id);
        ClaimCarries(s, t, id);
      }
    }
  }

  lemma InstallBegin(s: System)
    requires Inv(s) && s.pending.Running? && s.pending.pc.AtInstall? && s.pending.command.Begin?
    ensures Inv(Advance(s))
  {
    var Running(c, endpoint, current, pc) := s.pending;
    var record := Replacement(c, None, pc.version);
    var t := Advance(s);
    if !Sealable(record) {
      FinishKeeps(s, s.kv, Failed(Invalid));
    } else {
      BeginReplacement(c, pc.version);
      var row := Row(record, 1);
      assert t.rows == s.rows[c.id := row] && t.kv == s.kv && t.pending.Idle?;
      InstalledRowsOk(s.rows, c.id, row);
      BeginClaims(s, t, row);
    }
  }

  lemma InstalledRowsOk(rows: map<Id, Row>, id: Id, row: Row)
    requires RowsOk(rows) && OneOpenEach(rows) && RowOk(id, row)
    requires forall other :: other in rows && other != id && Open(rows[other].record.state) && Open(row.record.state) ==>
      rows[other].record.resource != row.record.resource
    ensures RowsOk(rows[id := row]) && OneOpenEach(rows[id := row])
  {
    var next := rows[id := row];
    forall i, j | i in next && j in next && BothOpen(next[i].record, next[j].record)
      ensures i == j
    {
      if i != id && j != id { assert BothOpen(rows[i].record, rows[j].record); }
    }
    forall i | i in next
      ensures RowOk(i, next[i])
    {
      if i != id { assert RowOk(i, rows[i]); }
    }
  }

  lemma ContinueKeeps(s: System)
    requires Inv(s) && !Loses(s)
    ensures Inv(Advance(s))
  {
    if s.pending.Running? {
      match s.pending.pc
      case AtSnapshot => SnapshotSection(s);
      case AtProtect(_) => ProtectSection(s);
      case AtCopy(_) => CopySection(s);
      case AtWrite(_, _) => WriteSection(s);
      case AtRelease(_) => ReleaseSection(s);
      case AtInstall(_) => if s.pending.command.Begin? { InstallBegin(s); } else { InstallRow(s); }
    }
  }

  /** The step runs a section that loses a protection. */
  ghost predicate LosesAt(s: System, step: Step) { step.Continue? && Loses(s) }

  /** Every step keeps the invariant, unless it loses a protection. */
  lemma StepKeeps(s: System, step: Step)
    requires Inv(s) && !LosesAt(s, step)
    ensures Inv(Next(s, step))
  {
    match step
    case Elsewhere(d) => ElsewhereKeeps(s, d);
    case Issue(c) => StartKeeps(s, c);
    case Continue => ContinueKeeps(s);
  }

  /**
    Exactly the losing steps break the invariant: the command's own entry is used up, and the step
    is a release, or the protecting section of a refresh to another version. Each leaves the
    command failed and its open record without the protection it names.
   */
  lemma StepKeepsExactly(s: System, step: Step)
    requires Inv(s)
    ensures Inv(Next(s, step)) <==> !LosesAt(s, step)
    ensures LosesAt(s, step) ==> Next(s, step).rows == s.rows && Uncoupled(Next(s, step), s.pending.command.id)
  {
    if !LosesAt(s, step) {
      StepKeeps(s, step);
    } else {
      if s.pending.pc.AtRelease? { ReleaseLoses(s); } else { RefreshLoses(s); }
      UncoupledBreaks(Advance(s), s.pending.command.id);
    }
  }
}
