/** What every step of the rotation machine keeps. */
module RotationInvariant {
  import opened Prelude
  import opened Text
  import opened Endpoints
  import opened RotationModel
  import Kv = KvModel
  import KI = KvInvariant

  // ---------------------------------------------------------------- records

  predicate PreparedUpTo(h: seq<Transition>, k: int) {
    1 <= k <= |h| && forall i :: 0 <= i < k ==> h[i].state == Prepared
  }

  predicate TailFrom(h: seq<Transition>, k: int) {
    && 0 <= k <= |h|
    && (|h| == k + 1 ==> h[k].state == Cancelled || h[k].state == Cutover)
    && (|h| == k + 2 ==> h[k].state == Cutover && (h[k + 1].state == Completed || h[k + 1].state == Superseded))
    && |h| <= k + 2
  }

  /** `Prepared+ (Cancelled | Cutover (Completed | Superseded)?)?` */
  ghost predicate WellSpelled(h: seq<Transition>) {
    exists k :: PreparedUpTo(h, k) && TailFrom(h, k)
  }

  ghost predicate VersionsNeverFall(h: seq<Transition>) {
    forall i, j :: 0 <= i < j < |h| ==> h[i].version <= h[j].version
  }

  function LastVersion(r: Record): u64
    requires r.history != []
  {
    r.history[|r.history| - 1].version
  }

  /** Which versions a record may name in each state, as far as the record alone decides. */
  ghost predicate NamesFit(r: Record)
    requires r.history != []
  {
    && r.expectedCas == r.protectedVersion
    && (r.targetVersion.Some? <==> r.state != Prepared && r.state != Cancelled)
    && (r.targetVersion.Some? ==> r.targetVersion.value == r.protectedVersion + 1)
    && (match r.state
        case Prepared => LastVersion(r) == r.protectedVersion
        case Cancelled => LastVersion(r) == r.protectedVersion
        case Cutover => LastVersion(r) == r.targetVersion.value
        case Completed => LastVersion(r) == r.targetVersion.value
        case Superseded => true)
  }

  /** What holds of a record whatever happens to the store. */
  ghost predicate RowSound(id: Id, row: Row) {
    var r := row.record;
    && r.id == id
    && Sealable(r)
    && EndpointFor(r.resource).value.resource.mount == SECRET_MOUNT
    && row.generation == |r.history|
    && WellSpelled(r.history)
    && NamesFit(r)
  }

  /** What rests on the store: no transition names a version below the one before it. */
  ghost predicate VersionsClimb(r: Record)
    requires r.history != [] && NamesFit(r)
  {
    && VersionsNeverFall(r.history)
    && (r.state == Superseded ==> LastVersion(r) > r.targetVersion.value)
  }

  ghost predicate RowOk(id: Id, row: Row) {
    RowSound(id, row) && VersionsClimb(row.record)
  }

  ghost predicate RowsOk(rows: map<Id, Row>) {
    forall id :: id in rows ==> RowOk(id, rows[id])
  }

  predicate BothOpen(a: Record, b: Record) {
    Open(a.state) && Open(b.state) && a.resource == b.resource
  }

  ghost predicate OneOpenEach(rows: map<Id, Row>) {
    forall i, j :: i in rows && j in rows && BothOpen(rows[i].record, rows[j].record) ==> i == j
  }

  function PathOf(resource: Bytes): Bytes {
    var endpoint := EndpointFor(resource);
    if endpoint.None? then [] else LogicalPath(endpoint.value.resource)
  }

  /** Under one mount the KV path gives the resource back. */
  lemma ResourceFromPath(a: Bytes, b: Bytes)
    requires EndpointFor(a).Some? && EndpointFor(b).Some?
    requires EndpointFor(a).value.resource.mount == EndpointFor(b).value.resource.mount
    requires PathOf(a) == PathOf(b)
    ensures a == b
  {
    var pa, pb := Split(a, SLASH), Split(b, SLASH);
    JoinSplit(a, SLASH);
    JoinSplit(b, SLASH);
    assert Join(pa, SLASH) == pa[0] + [SLASH] + Join(pa[1..], SLASH);
    assert Join(pb, SLASH) == pb[0] + [SLASH] + Join(pb[1..], SLASH);
  }

  // ---------------------------------------------------------------- growing a record

  lemma WellSpelledGrows(h: seq<Transition>, t: Transition)
    requires h != [] && WellSpelled(h)
    requires var last := h[|h| - 1].state;
      (last == Prepared && (t.state == Prepared || t.state == Cancelled || t.state == Cutover))
      || (last == Cutover && (t.state == Completed || t.state == Superseded))
    ensures WellSpelled(h + [t])
  {
    var k :| PreparedUpTo(h, k) && TailFrom(h, k);
    if t.state == Prepared {
      assert PreparedUpTo(h + [t], |h| + 1) && TailFrom(h + [t], |h| + 1);
    } else if h[|h| - 1].state == Prepared {
      assert PreparedUpTo(h + [t], |h|) && TailFrom(h + [t], |h|);
    } else {
      assert PreparedUpTo(h + [t], k) && TailFrom(h + [t], k);
    }
  }

  lemma VersionsGrow(h: seq<Transition>, t: Transition)
    requires h != [] && VersionsNeverFall(h) && h[|h| - 1].version <= t.version
    ensures VersionsNeverFall(h + [t])
  {
    var g := h + [t];
    forall i, j | 0 <= i < j < |g|
      ensures g[i].version <= g[j].version
    {
      if j == |h| {
        assert i < |h| - 1 ==> h[i].version <= h[|h| - 1].version;
      }
    }
  }

  // ---------------------------------------------------------------- claims on the KV store

  /** The version the record of `row` counts on, or none once its protection has been released. */
  function ClaimVersion(pending: Pending, row: Row): Option<u64> {
    if pending.Running? && !pending.command.Begin? && pending.command.id == row.record.id
       && pending.pc.AtInstall? then
      if pending.command.Refresh? then Some(pending.pc.version)
      else if pending.command.CutOver? || pending.command.Complete? then Some(row.record.protectedVersion)
      else None
    else Some(row.record.protectedVersion)
  }

  /** A version the entry has at least reached. */
  function Floor(pending: Pending, row: Row): u64
    requires row.record.history != []
  {
    if pending.Running? && pending.command.id == row.record.id && pending.pc.AtInstall?
       && (pending.command.Refresh? || pending.command.CutOver?)
    then pending.pc.version
    else LastVersion(row.record)
  }

  ghost predicate Held(kv: Kv.Catalog, path: Bytes, version: u64, floor: u64) {
    && path in kv.entries
    && kv.entries[path].protectedVersion == Some(version)
    && kv.entries[path].current >= floor
  }

  ghost predicate ClaimHeld(s: System, id: Id)
    requires id in s.rows
  {
    var row := s.rows[id];
    Open(row.record.state) && row.record.history != [] && ClaimVersion(s.pending, row).Some? ==>
      Held(s.kv, PathOf(row.record.resource), ClaimVersion(s.pending, row).value, Floor(s.pending, row))
  }

  ghost predicate ClaimsHeld(s: System) {
    forall id :: id in s.rows ==> ClaimHeld(s, id)
  }

  // ---------------------------------------------------------------- commands in flight

  ghost predicate BeginOk(s: System)
    requires s.pending.Running? && s.pending.command.Begin?
  {
    var Running(c, endpoint, current, pc) := s.pending;
    && current.None?
    && EndpointFor(c.resource) == Some(endpoint)
    && c.id != 0 && c.effective != 0 && c.id !in s.rows && SnapshotOk(c.snapshot)
    && !HasOpen(s.rows, c.resource)
    && (pc.AtSnapshot? || pc.AtProtect? || pc.AtInstall?)
    && (pc.AtInstall? ==>
          endpoint.resource.mount == SECRET_MOUNT && pc.version >= 1
          && Held(s.kv, LogicalPath(endpoint.resource), pc.version, pc.version))
  }

  ghost predicate PcFits(c: Command, r: Record, pc: Pc)
    requires r.history != []
  {
    match c
    case Begin(_, _, _, _, _) => false
    case Refresh(_, _, _, _, _) =>
      pc.AtSnapshot? || pc.AtProtect? || (pc.AtInstall? && pc.version >= LastVersion(r) && pc.version >= 1)
    case CutOver(_, _, _, _, _) =>
      (pc.AtWrite? && pc.expected == r.expectedCas) || (pc.AtInstall? && pc.version == r.expectedCas + 1)
    case Cancel(_, _, _, _, _) =>
      (pc.AtRelease? || pc.AtInstall?) && pc.version == r.expectedCas
    case Rollback(_, _, _, _, _) =>
      pc.AtSnapshot? || pc.AtCopy? || pc.AtWrite?
      || ((pc.AtRelease? || pc.AtInstall?) && pc.version > LastVersion(r))
    case Supersede(_, _, _) =>
      pc.AtSnapshot? || ((pc.AtRelease? || pc.AtInstall?) && pc.version > LastVersion(r))
    case Complete(_, _, _, _, _, _, _, _) =>
      pc.AtInstall? && r.targetVersion == Some(pc.version)
  }

  ghost predicate RowCommandOk(s: System)
    requires s.pending.Running? && !s.pending.command.Begin?
  {
    var Running(c, endpoint, current, pc) := s.pending;
    && c.id in s.rows
    && current == Some(s.rows[c.id])
    && c.effective != 0
    && (c.Refresh? ==> SnapshotOk(c.snapshot))
    && c.generation == current.value.generation < U64_MAX
    && current.value.record.state == RequiredState(c)
    && 1 <= |current.value.record.history| < MAX_HISTORY
    && EndpointFor(current.value.record.resource) == Some(endpoint)
    && PcFits(c, current.value.record, pc)
  }

  ghost predicate PendingOk(s: System) {
    s.pending.Running? ==> if s.pending.command.Begin? then BeginOk(s) else RowCommandOk(s)
  }

  ghost predicate Inv(s: System) {
    && Coherent(s.pending)
    && KI.AllWellFormed(s.kv)
    && RowsOk(s.rows)
    && OneOpenEach(s.rows)
    && ClaimsHeld(s)
    && PendingOk(s)
  }

  // ---------------------------------------------------------------- where a protection is lost

  predicate Exhausted(kv: Kv.Catalog, path: Bytes) {
    path in kv.entries && kv.entries[path].generation == U64_MAX
  }

  /** `live` is the live version, with bytes: what protecting it checks. */
  predicate Protectable(kv: Kv.Catalog, path: Bytes, live: u64) {
    && path in kv.entries && kv.entries[path].current == live && live in kv.entries[path].versions
    && kv.entries[path].versions[live].state == Kv.Live && kv.entries[path].versions[live].encoded != []
  }

  /**
    The section ahead moves the protection an open record counts on and then fails to count the
    change: a release, or a refresh to another version, of an entry whose generation is used up.
   */
  ghost predicate Loses(s: System) {
    && s.pending.Running?
    && var path := LogicalPath(s.pending.endpoint.resource);
    && Exhausted(s.kv, path)
    && (|| s.pending.pc.AtRelease?
        || (&& s.pending.command.Refresh? && s.pending.pc.AtProtect?
            && s.pending.command.id in s.rows
            && s.pending.pc.live != s.rows[s.pending.command.id].record.protectedVersion
            && Protectable(s.kv, path, s.pending.pc.live)))
  }

  // ---------------------------------------------------------------- interference

  lemma HeldThroughStep(kv: Kv.Catalog, d: Kv.DataStep, path: Bytes, version: u64, floor: u64)
    requires KI.AllWellFormed(kv) && Held(kv, path, version, floor)
    ensures Held(Kv.Apply(kv, d).0, path, version, floor)
  {
    KI.StepKeepsInvariant(kv, d);
    var e := Kv.Apply(kv, d).0;
    assert !KI.Purges(kv, d, path);
    assert KI.Evolves(kv.entries[path], e.entries[path]);
  }

  /** A data-plane step at any boundary, whatever command is in flight. */
  lemma ElsewhereKeeps(s: System, d: Kv.DataStep)
    requires Inv(s)
    ensures Inv(Next(s, Elsewhere(d)))
  {
    var t := Next(s, Elsewhere(d));
    KI.StepKeepsInvariant(s.kv, d);
    forall id | id in t.rows
      ensures ClaimHeld(t, id)
    {
      assert ClaimHeld(s, id);
      var row := s.rows[id];
      if Open(row.record.state) && row.record.history != [] && ClaimVersion(s.pending, row).Some? {
        HeldThroughStep(s.kv, d, PathOf(row.record.resource), ClaimVersion(s.pending, row).value,
                        Floor(s.pending, row));
      }
    }
    if s.pending.Running? && s.pending.command.Begin? && s.pending.pc.AtInstall? {
      var version := s.pending.pc.version;
      HeldThroughStep(s.kv, d, LogicalPath(s.pending.endpoint.resource), version, version);
    }
  }

  // ---------------------------------------------------------------- rotation primitives

  /** Only the entry at `path` differs. */
  ghost predicate ChangesOnly(kv: Kv.Catalog, d: Kv.Catalog, path: Bytes) {
    && d.entries.Keys == kv.entries.Keys
    && forall p :: p in kv.entries && p != path ==> d.entries[p] == kv.entries[p]
  }

  lemma PutEffect(kv: Kv.Catalog, d: Kv.Catalog, path: Bytes, f: Kv.Entry)
    requires KI.AllWellFormed(kv) && KI.WellFormed(f)
    requires path in kv.entries && d.entries == kv.entries[path := f]
    ensures KI.AllWellFormed(d) && ChangesOnly(kv, d, path) && d.entries[path] == f
  {
    forall p | p in d.entries
      ensures KI.WellFormed(d.entries[p])
    {
      if p != path { assert KI.WellFormed(kv.entries[p]); }
    }
  }

  lemma ProtectShape(kv: Kv.Catalog, endpoint: Endpoint, live: u64)
    ensures var (d, r) := Kv.Protect(kv, endpoint, live);
      var path := LogicalPath(endpoint.resource);
      && (r.Ok? || d != kv ==> endpoint.resource.mount == SECRET_MOUNT && Protectable(kv, path, live))
      && (endpoint.kind == Data && endpoint.resource.mount == SECRET_MOUNT && Protectable(kv, path, live) ==>
            && (r.Ok? <==> !Exhausted(kv, path))
            && d.entries == kv.entries[path :=
                 Kv.Bump(kv.entries[path].(protectedVersion := Some(live), protectionKnown := true)).0])
      && (r.Ok? || d != kv ==> endpoint.kind == Data)
  {
  }

  /** Protecting succeeds, changes nothing, or fails after moving the protection of a used-up entry. */
  lemma ProtectEffect(kv: Kv.Catalog, endpoint: Endpoint, live: u64)
    requires KI.AllWellFormed(kv)
    ensures var (d, r) := Kv.Protect(kv, endpoint, live);
      var path := LogicalPath(endpoint.resource);
      && KI.AllWellFormed(d)
      && (r.Err? ==> d == kv || Exhausted(kv, path))
      && (r.Ok? || d != kv ==>
            && endpoint.resource.mount == SECRET_MOUNT && ChangesOnly(kv, d, path)
            && Protectable(kv, path, live) && live >= 1 && Held(d, path, live, live))
  {
    var path := LogicalPath(endpoint.resource);
    var (d, r) := Kv.Protect(kv, endpoint, live);
    ProtectShape(kv, endpoint, live);
    if r.Ok? || d != kv {
      var e := kv.entries[path];
      assert KI.WellFormed(e);
      PutEffect(kv, d, path, Kv.Bump(e.(protectedVersion := Some(live), protectionKnown := true)).0);
    }
  }

  lemma ReleaseEffect(kv: Kv.Catalog, endpoint: Endpoint, version: u64)
    requires KI.AllWellFormed(kv)
    requires endpoint.kind == Data && endpoint.resource.mount == SECRET_MOUNT
    requires var path := LogicalPath(endpoint.resource);
      path in kv.entries && kv.entries[path].protectedVersion == Some(version)
    ensures var (d, r) := Kv.Release(kv, endpoint, version);
      var path := LogicalPath(endpoint.resource);
      && KI.AllWellFormed(d) && ChangesOnly(kv, d, path)
      && (r.Ok? <==> !Exhausted(kv, path)) && d.entries[path].protectedVersion == None
  {
    var path := LogicalPath(endpoint.resource);
    KI.UnprotectKeeps(kv, kv.entries[path]);
    PutEffect(kv, Kv.Release(kv, endpoint, version).0, path, Kv.Unprotect(kv, kv.entries[path]).0);
  }

  lemma WriteFacts(
    kv: Kv.Catalog, identity: Id, endpoint: Endpoint, encoded: Kv.Content, expected: u64, operation: Kv.Operation)
    requires operation == Kv.RotationCutoverOp || operation == Kv.RotationRollbackOp
    ensures var (d, r) := Kv.RotationWrite(kv, identity, endpoint, encoded, expected, operation);
      var path := LogicalPath(endpoint.resource);
      && (r.Err? ==> d.entries == kv.entries || Exhausted(kv, path))
      && (r.Ok? || d.entries != kv.entries ==>
            && path in kv.entries && kv.entries[path].current == expected < U64_MAX
            && kv.entries[path].protectedVersion.Some?
            && d.entries == kv.entries[path := Kv.Append(kv.entries[path], encoded, kv.now).0])
      && (r.Ok? ==> kv.entries[path].generation < U64_MAX && r.value.version == expected + 1)
  {
    var path := LogicalPath(endpoint.resource);
    if path in kv.entries && kv.entries[path].current == U64_MAX {
      assert kv.entries == kv.entries[path := kv.entries[path]];
    }
  }

  /** The same version is protected, and no counter has fallen. */
  ghost predicate Steady(e: Kv.Entry, f: Kv.Entry) {
    f.protectedVersion == e.protectedVersion && f.current >= e.current
  }

  ghost predicate AllSteady(kv: Kv.Catalog, d: Kv.Catalog) {
    forall p :: p in kv.entries ==> p in d.entries && Steady(kv.entries[p], d.entries[p])
  }

  lemma ChangeIsSteady(kv: Kv.Catalog, d: Kv.Catalog, path: Bytes)
    requires ChangesOnly(kv, d, path) && path in kv.entries && Steady(kv.entries[path], d.entries[path])
    ensures AllSteady(kv, d)
  {
  }

  /** A rotation write makes the next version, or leaves every protection and counter standing. */
  ghost predicate Wrote(
    kv: Kv.Catalog, d: Kv.Catalog, r: Result<Kv.Written, Kv.KvError>, path: Bytes, expected: u64)
  {
    && KI.AllWellFormed(d)
    && (r.Err? ==> AllSteady(kv, d))
    && (r.Ok? ==> ChangesOnly(kv, d, path) && path in kv.entries
                  && kv.entries[path].current == expected && r.value.version == expected + 1
                  && kv.entries[path].protectedVersion.Some?
                  && Held(d, path, kv.entries[path].protectedVersion.value, r.value.version))
  }

  lemma WriteEffect(
    kv: Kv.Catalog, identity: Id, endpoint: Endpoint, encoded: Kv.Content, expected: u64, operation: Kv.Operation)
    requires KI.AllWellFormed(kv)
    requires operation == Kv.RotationCutoverOp || operation == Kv.RotationRollbackOp
    ensures var (d, r) := Kv.RotationWrite(kv, identity, endpoint, encoded, expected, operation);
      Wrote(kv, d, r, LogicalPath(endpoint.resource), expected)
  {
    var path := LogicalPath(endpoint.resource);
    var (d, r) := Kv.RotationWrite(kv, identity, endpoint, encoded, expected, operation);
    WriteFacts(kv, identity, endpoint, encoded, expected, operation);
    if r.Ok? || d.entries != kv.entries {
      KI.AppendKeeps(kv.entries[path], encoded, kv.now);
      PutEffect(kv, d, path, Kv.Append(kv.entries[path], encoded, kv.now).0);
      ChangeIsSteady(kv, d, path);
    }
  }

  // ---------------------------------------------------------------- carrying claims over

  ghost predicate SameClaim(s: System, t: System, id: Id)
    requires id in s.rows && s.rows[id].record.history != []
  {
    && id in t.rows && t.rows[id] == s.rows[id]
    && ClaimVersion(t.pending, t.rows[id]) == ClaimVersion(s.pending, s.rows[id])
    && Floor(t.pending, t.rows[id]) == Floor(s.pending, s.rows[id])
  }

  lemma ClaimCarries(s: System, t: System, id: Id)
    requires id in s.rows && s.rows[id].record.history != [] && ClaimHeld(s, id)
    requires SameClaim(s, t, id)
    requires var path := PathOf(s.rows[id].record.resource);
      path in s.kv.entries ==> path in t.kv.entries && Steady(s.kv.entries[path], t.kv.entries[path])
    ensures ClaimHeld(t, id)
  {
  }

  /** Open rotations of different records live at different KV paths. */
  lemma OtherPath(rows: map<Id, Row>, i: Id, j: Id)
    requires RowsOk(rows) && OneOpenEach(rows)
    requires i in rows && j in rows && i != j && Open(rows[i].record.state) && Open(rows[j].record.state)
    ensures PathOf(rows[i].record.resource) != PathOf(rows[j].record.resource)
  {
    assert RowOk(i, rows[i]) && RowOk(j, rows[j]);
    assert !BothOpen(rows[i].record, rows[j].record);
    if PathOf(rows[i].record.resource) == PathOf(rows[j].record.resource) {
      ResourceFromPath(rows[i].record.resource, rows[j].record.resource);
    }
  }

  // ---------------------------------------------------------------- starting a command

  lemma StartRow(s: System, c: Command)
    requires RowsOk(s.rows) && s.pending.Idle? && !c.Begin?
    requires Start(s, c).pending.Running?
    ensures PendingOk(Start(s, c))
  {
    assert RowOk(c.id, s.rows[c.id]);
  }

  lemma StartBegin(s: System, c: Command)
    requires s.pending.Idle? && c.Begin?
    requires Start(s, c).pending.Running?
    ensures PendingOk(Start(s, c))
  {
  }

  lemma StartShape(s: System, c: Command)
    requires s.pending.Idle?
    ensures var t := Start(s, c);
      && t.kv == s.kv && t.rows == s.rows && Coherent(t.pending)
      && (t.pending.Running? ==> t.pending.command == c && (t.pending.pc.AtInstall? ==> c.Complete?))
  {
  }

  lemma QuietClaims(s: System, t: System)
    requires RowsOk(s.rows) && ClaimsHeld(s)
    requires t.kv == s.kv && t.rows == s.rows
    requires s.pending.Idle?
    requires t.pending.Running? && t.pending.pc.AtInstall? ==> t.pending.command.Complete?
    ensures ClaimsHeld(t)
  {
    forall id | id in t.rows
      ensures ClaimHeld(t, id)
    {
      assert RowOk(id, s.rows[id]) && ClaimHeld(s, id);
      ClaimCarries(s, t, id);
    }
  }

  lemma StartKeeps(s: System, c: Command)
    requires Inv(s)
    ensures Inv(Start(s, c))
  {
    if s.pending.Idle? {
      var t := Start(s, c);
      StartShape(s, c);
      QuietClaims(s, t);
      if t.pending.Running? {
        if c.Begin? { StartBegin(s, c); } else { StartRow(s, c); }
      }
    }
  }

  // ---------------------------------------------------------------- finishing a command

  /** Ending a command keeps the invariant while what the open records count on stands. */
  lemma FinishKeeps(s: System, kv: Kv.Catalog, reply: Reply)
    requires Inv(s)
    requires KI.AllWellFormed(kv) && AllSteady(s.kv, kv)
    requires s.pending.Running? ==> s.pending.command.Begin? || !s.pending.pc.AtInstall?
    ensures Inv(Finish(s.(kv := kv), reply))
  {
    var t := Finish(s.(kv := kv), reply);
    forall id | id in t.rows
      ensures ClaimHeld(t, id)
    {
      assert RowOk(id, s.rows[id]) && ClaimHeld(s, id);
      ClaimCarries(s, t, id);
    }
  }

  lemma GotoKeeps(s: System, pc: Pc)
    requires Inv(s) && s.pending.Running? && !s.pending.pc.AtInstall? && !pc.AtInstall?
    requires PendingOk(Goto(s, pc))
    ensures Inv(Goto(s, pc))
  {
    var t := Goto(s, pc);
    forall id | id in t.rows
      ensures ClaimHeld(t, id)
    {
      assert RowOk(id, s.rows[id]) && ClaimHeld(s, id);
      ClaimCarries(s, t, id);
    }
  }

  // ---------------------------------------------------------------- installing a row

  /** The row a command in flight would install. */
  function DueRow(s: System): Row
    requires Coherent(s.pending) && s.pending.Running? && s.pending.pc.AtInstall?
    requires !s.pending.command.Begin? && s.pending.command.generation < U64_MAX
  {
    Row(Replacement(s.pending.command, s.pending.current, s.pending.pc.version), s.pending.command.generation + 1)
  }

  lemma InstallIs(s: System)
    requires Coherent(s.pending) && s.pending.Running? && s.pending.pc.AtInstall?
    requires !s.pending.command.Begin? && s.pending.command.generation < U64_MAX
    requires DueRow(s).record.id == s.pending.command.id
    ensures var t := Advance(s);
      && t.pending.Idle? && t.kv == s.kv
      && t.rows == if Sealable(DueRow(s).record) then s.rows[s.pending.command.id := DueRow(s)] else s.rows
  {
  }
}
