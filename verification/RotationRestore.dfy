/** What a rollback writes, and what a plain write does to a prepared cutover. */
module RotationRestore {
  import opened Prelude
  import opened Text
  import opened Endpoints
  import opened RotationModel
  import opened RotationInvariant
  import opened RotationRecords
  import opened RotationSections
  import opened RotationSteps
  import opened RotationIsolation
  import Kv = KvModel
  import KI = KvInvariant
  import KA = KvAnswers

  /** The rotation is open and its protection has not been released by the command in flight. */
  ghost predicate Active(s: System, id: Id) {
    id in s.rows && Open(s.rows[id].record.state) && ClaimVersion(s.pending, s.rows[id]).Some?
  }

  ghost function PathAt(s: System, id: Id): Bytes
    requires id in s.rows
  {
    PathOf(s.rows[id].record.resource)
  }

  lemma ActiveIsHeld(s: System, lost: set<Id>, id: Id)
    requires InvBut(s, lost) && id !in lost && Active(s, id)
    ensures PathAt(s, id) in s.kv.entries
  {
    var u := Without(s, lost);
    assert RowOk(id, u.rows[id]) && ClaimHeld(u, id);
  }

  lemma ReleaseInstalls(u: System, id: Id)
    requires Inv(u) && u.pending.Running? && u.pending.pc.AtInstall? && u.pending.command.id == id
    requires id in u.rows && !Active(u, id)
    ensures !Active(Advance(u), id)
  {
    InstallRow(u);
  }

  lemma ReleasedNeverReturns(s: System, lost: set<Id>, step: Step, id: Id)
    requires InvBut(s, lost) && id !in lost && id in s.rows && !Active(s, id)
    ensures !Active(Next(s, step), id)
  {
    StepMovesRows(s, step, id);
    if Open(s.rows[id].record.state) {
      assert s.pending.Running? && s.pending.pc.AtInstall? && s.pending.command.id == id;
      if step.Continue? {
        ContinueMirrors(s, lost);
        ReleaseInstalls(Without(s, lost), id);
      }
    }
  }

  /** While a rotation is active its entry stays and only evolves. */
  lemma ActiveStep(s: System, lost: set<Id>, step: Step, id: Id)
    requires InvBut(s, lost) && id in s.rows && id !in LostAfter(s, lost, step)
    requires Active(Next(s, step), id)
    ensures Active(s, id)
    ensures var t := Next(s, step);
      && PathAt(t, id) == PathAt(s, id)
      && PathAt(s, id) in s.kv.entries && PathAt(s, id) in t.kv.entries
      && KI.Evolves(s.kv.entries[PathAt(s, id)], t.kv.entries[PathAt(s, id)])
  {
    var t := Next(s, step);
    if !Active(s, id) { ReleasedNeverReturns(s, lost, step, id); }
    StepMovesRows(s, step, id);
    StepKeepsBut(s, lost, step);
    StepFollows(s, step);
    ActiveIsHeld(s, lost, id);
    ActiveIsHeld(t, LostAfter(s, lost, step), id);
  }

  lemma {:induction false} ActiveRun(s: System, lost: set<Id>, steps: seq<Step>, id: Id)
    requires InvBut(s, lost) && id !in LostIn(s, lost, steps)
    requires id in s.rows && Active(Run(s, steps), id)
    ensures var t := Run(s, steps);
      && Active(s, id)
      && PathAt(t, id) == PathAt(s, id) && PathAt(s, id) in s.kv.entries && PathAt(t, id) in t.kv.entries
      && KI.Evolves(s.kv.entries[PathAt(s, id)], t.kv.entries[PathAt(t, id)])
    decreases |steps|
  {
    if steps == [] {
      ActiveIsHeld(s, lost, id);
      KI.EvolvesReflexive(s.kv.entries[PathAt(s, id)]);
    } else {
      var u, more := Next(s, steps[0]), LostAfter(s, lost, steps[0]);
      StepMovesRows(s, steps[0], id);
      StepKeepsBut(s, lost, steps[0]);
      LostGrows(u, more, steps[1..]);
      ActiveRun(u, more, steps[1..], id);
      ActiveStep(s, lost, steps[0], id);
      var path := PathAt(s, id);
      KI.EvolvesTransitive(s.kv.entries[path], u.kv.entries[path], Run(s, steps).kv.entries[path]);
    }
  }

  // ---------------------------------------------------------------- the bytes in flight

  /** A rollback about to write carries the bytes the protected version has in `origin`. */
  ghost predicate Carries(origin: Kv.Entry, s: System, id: Id) {
    Armed(s.pending) && s.pending.command.id == id && id in s.rows && s.rows[id].record.protectedVersion <= origin.current ==>
      s.rows[id].record.protectedVersion in origin.versions
      && s.pending.pc.encoded == origin.versions[s.rows[id].record.protectedVersion].encoded
  }

  lemma CopyCarries(origin: Kv.Entry, s: System, id: Id)
    requires Inv(s) && Active(s, id) && s.pending.Running? && s.pending.command.Rollback?
    requires s.pending.command.id == id && s.pending.pc.AtCopy?
    requires PathAt(s, id) in s.kv.entries && KI.Evolves(origin, s.kv.entries[PathAt(s, id)])
    ensures Carries(origin, Advance(s), id)
  {
    OwnClaim(s);
    SectionShape(s);
    var v := s.rows[id].record.protectedVersion;
    var e := s.kv.entries[PathAt(s, id)];
    if v in e.versions && v <= origin.current {
      assert v in origin.versions && KI.Survives(origin.versions[v], e.versions[v]);
    }
  }

  /** The rollback of some record is in front of its write. */
  predicate Armed(p: Pending) {
    p.Running? && p.command.Rollback? && p.pc.AtWrite?
  }

  /** Only the copy puts a rollback in front of its write. */
  lemma SectionArms(s: System, t: System)
    requires Coherent(s.pending) && t == Advance(s) && Armed(t.pending)
    ensures t.rows == s.rows && s.pending.Running? && t.pending.command == s.pending.command
    ensures t.pending == s.pending || s.pending.pc.AtCopy?
  {
  }

  lemma StepArms(s: System, step: Step, t: System)
    requires Coherent(s.pending) && t == Next(s, step) && Armed(t.pending)
    ensures t.rows == s.rows
    ensures t.pending == s.pending || (step.Continue? && s.pending.Running? && s.pending.pc.AtCopy?
                                       && t.pending.command == s.pending.command)
  {
    if step.Continue? {
      SectionArms(s, t);
    } else if step.Issue? && s.pending.Idle? {
      StartShape(s, step.command);
      StartArmsNothing(s, step.command);
    }
  }

  lemma StartArmsNothing(s: System, c: Command)
    requires s.pending.Idle?
    ensures !Armed(Start(s, c).pending)
  {
  }

  lemma CarriesStep(origin: Kv.Entry, s: System, lost: set<Id>, step: Step, id: Id)
    requires InvBut(s, lost) && id !in lost && Active(s, id) && Carries(origin, s, id)
    requires PathAt(s, id) in s.kv.entries && KI.Evolves(origin, s.kv.entries[PathAt(s, id)])
    ensures Carries(origin, Next(s, step), id)
  {
    var t := Next(s, step);
    if Armed(t.pending) && t.pending.command.id == id {
      StepArms(s, step, t);
      if t.pending != s.pending {
        ContinueMirrors(s, lost);
        CopyCarries(origin, Without(s, lost), id);
      }
    }
  }

  lemma {:induction false} CarriesRun(origin: Kv.Entry, s: System, lost: set<Id>, steps: seq<Step>, id: Id)
    requires InvBut(s, lost) && id !in LostIn(s, lost, steps)
    requires id in s.rows && Carries(origin, s, id)
    requires PathAt(s, id) in s.kv.entries ==> KI.Evolves(origin, s.kv.entries[PathAt(s, id)])
    requires Active(Run(s, steps), id)
    ensures var t := Run(s, steps);
      && Active(s, id)
      && PathAt(t, id) == PathAt(s, id) && PathAt(t, id) in t.kv.entries
      && KI.Evolves(origin, t.kv.entries[PathAt(t, id)])
      && Carries(origin, t, id)
    decreases |steps|
  {
    if steps == [] {
      ActiveIsHeld(s, lost, id);
    } else {
      var u, more := Next(s, steps[0]), LostAfter(s, lost, steps[0]);
      StepMovesRows(s, steps[0], id);
      StepKeepsBut(s, lost, steps[0]);
      LostGrows(u, more, steps[1..]);
      ActiveRun(u, more, steps[1..], id);
      ActiveStep(s, lost, steps[0], id);
      CarriesStep(origin, s, lost, steps[0], id);
      var path := PathAt(s, id);
      KI.EvolvesTransitive(origin, s.kv.entries[path], u.kv.entries[path]);
      CarriesRun(origin, u, more, steps[1..], id);
    }
  }

  // ---------------------------------------------------------------- rollback

  /** The command in flight is the rollback of `id`, in front of its write. */
  ghost predicate Writing(s: System, id: Id) {
    Armed(s.pending) && s.pending.command.id == id && id in s.rows
  }

  /** The entry's current version is `version`, with this value. */
  ghost predicate NowHolds(kv: Kv.Catalog, path: Bytes, version: u64, value: Kv.VersionValue) {
    && path in kv.entries && kv.entries[path].current == version
    && version in kv.entries[path].versions && kv.entries[path].versions[version] == value
  }

  lemma WriteHolds(kv: Kv.Catalog, identity: Id, endpoint: Endpoint, encoded: Kv.Content, expected: u64)
    ensures var (d, r) := Kv.RotationWrite(kv, identity, endpoint, encoded, expected, Kv.RotationRollbackOp);
      var path := LogicalPath(endpoint.resource);
      r.Ok? ==>
        && r.value.version == expected + 1
        && NowHolds(d, path, r.value.version, Kv.VersionValue(encoded, kv.now, Kv.Live, None))
        && d.audit == kv.audit + [Kv.Event(identity, path, Kv.RotationRollbackOp, Kv.Succeeded, Some(expected + 1), None)]
  {
    KA.RotationWriteExact(kv, identity, endpoint, encoded, expected, Kv.RotationRollbackOp);
  }

  lemma WritingIsActive(s: System, id: Id)
    requires Records(s) && Writing(s, id)
    ensures Active(s, id) && PathAt(s, id) == LogicalPath(s.pending.endpoint.resource)
  {
  }

  lemma RollbackWrites(s: System, t: System, id: Id)
    requires Records(s) && Writing(s, id) && t == Advance(s) && t.pending.Running?
    ensures s.pending.pc.expected < U64_MAX
    ensures t.rows == s.rows && t.pending == s.pending.(pc := AtRelease(s.pending.pc.expected + 1))
    ensures NowHolds(t.kv, PathAt(s, id), s.pending.pc.expected + 1,
                     Kv.VersionValue(s.pending.pc.encoded, s.kv.now, Kv.Live, None))
    ensures t.kv.audit == s.kv.audit + [Kv.Event(s.pending.command.caller.identity, PathAt(s, id), Kv.RotationRollbackOp,
                                                 Kv.Succeeded, Some(s.pending.pc.expected + 1), None)]
  {
    WritingIsActive(s, id);
    RollbackIs(s);
    WriteHolds(s.kv, s.pending.command.caller.identity, s.pending.endpoint, s.pending.pc.encoded,
               s.pending.pc.expected);
  }

  /**
    A rollback that gets past its write has created the version after the live one, holding
    exactly the bytes the protected version held in `origin`: the entry at any earlier moment at
    which that version existed, whatever ran in between or between the rollback's own locks, so
    long as no step lost the protection of this very record.
   */
  lemma RollbackRestores(
    origin: Kv.Entry, s: System, lost: set<Id>, steps: seq<Step>, id: Id, t: System, u: System)
    requires InvBut(s, lost) && id !in LostIn(s, lost, steps)
    requires id in s.rows && !Writing(s, id)
    requires PathAt(s, id) in s.kv.entries && KI.Evolves(origin, s.kv.entries[PathAt(s, id)])
    requires t == Run(s, steps) && Writing(t, id) && u == Advance(t) && u.pending.Running?
    requires t.rows[id].record.protectedVersion <= origin.current
    ensures t.pending.pc.expected < U64_MAX
    ensures u.pending == t.pending.(pc := AtRelease(t.pending.pc.expected + 1))
    ensures t.rows[id].record.protectedVersion in origin.versions
    ensures NowHolds(u.kv, PathAt(s, id), t.pending.pc.expected + 1,
                     Kv.VersionValue(origin.versions[t.rows[id].record.protectedVersion].encoded,
                                     t.kv.now, Kv.Live, None))
  {
    RunKeepsBut(s, lost, steps);
    WritingIsActive(t, id);
    CarriesRun(origin, s, lost, steps, id);
    RollbackWrites(t, u, id);
  }

  // ---------------------------------------------------------------- around the write

  lemma ReleaseGoesOn(s: System, t: System)
    requires Inv(s) && !Loses(s) && s.pending.Running? && s.pending.pc.AtRelease?
    requires t == Advance(s)
    ensures Inv(t) && t.rows == s.rows && t.pending == s.pending.(pc := AtInstall(s.pending.pc.version))
  {
    ReleaseSection(s);
    SectionShape(s);
  }

  lemma RollbackInstalls(s: System, t: System)
    requires Inv(s) && s.pending.Running? && s.pending.command.Rollback? && s.pending.pc.AtInstall?
    requires t == Advance(s)
    ensures var c := s.pending.command;
      && t.pending.Idle? && c.id in s.rows
      && t.rows == s.rows[c.id := Row(Pushed(s.rows[c.id].record, Superseded, c.effective, s.pending.pc.version),
                                      c.generation + 1)]
  {
    InstallRow(s);
  }

  /** One section of the command in flight, after whatever ran at the lock boundary before it. */
  ghost predicate Section(s: System, others: seq<Kv.DataStep>, t: System) {
    Coherent(s.pending) && t == Advance(Interleave(s, others))
  }

  /** The row a rollback that wrote `version` installs over `row`. */
  function RolledBack(row: Row, effective: u64, version: u64): Row
    requires row.generation < U64_MAX
  {
    Row(Pushed(row.record, Superseded, effective, version), row.generation + 1)
  }

  /** A rollback of `row` that has written `version` is on its way or has ended as it must. */
  ghost predicate Concluding(s: System, c: Command, row: Row, version: u64)
    requires c.Rollback? && row.generation < U64_MAX
  {
    && c.id in s.rows
    && (|| (&& s.pending.Running? && s.pending.command == c && s.rows[c.id] == row
            && (s.pending.pc == AtRelease(version) || s.pending.pc == AtInstall(version)))
        || s.rows[c.id] == RolledBack(row, c.effective, version))
  }

  lemma ConcludingContinues(s: System, t: System, c: Command, row: Row, version: u64)
    requires Inv(s) && !Loses(s) && t == Advance(s)
    requires c.Rollback? && row.generation == c.generation < U64_MAX
    requires s.pending.Running? && s.pending.command == c && c.id in s.rows && s.rows[c.id] == row
    requires s.pending.pc == AtRelease(version) || s.pending.pc == AtInstall(version)
    ensures Concluding(t, c, row, version)
  {
    if s.pending.pc.AtRelease? { ReleaseGoesOn(s, t); } else { RollbackInstalls(s, t); }
  }

  lemma ConcludingContinuesBut(s: System, lost: set<Id>, t: System, c: Command, row: Row, version: u64)
    requires InvBut(s, lost) && c.Rollback? && c.id !in LostAfter(s, lost, Continue) && t == Advance(s)
    requires row.generation == c.generation < U64_MAX
    requires s.pending.Running? && s.pending.command == c && c.id in s.rows && s.rows[c.id] == row
    requires s.pending.pc == AtRelease(version) || s.pending.pc == AtInstall(version)
    ensures Concluding(t, c, row, version)
  {
    ContinueMirrors(s, lost);
    LosesMirrors(s, lost);
    ConcludingContinues(Without(s, lost), Without(t, lost), c, row, version);
  }

  lemma ConcludingStep(s: System, lost: set<Id>, step: Step, t: System, c: Command, row: Row, version: u64)
    requires InvBut(s, lost) && c.Rollback? && c.id !in LostAfter(s, lost, step) && t == Next(s, step)
    requires row.generation == c.generation < U64_MAX && Concluding(s, c, row, version)
    ensures Concluding(t, c, row, version)
  {
    if s.rows[c.id] == RolledBack(row, c.effective, version) {
      StepMovesRows(s, step, c.id);
    } else if step.Continue? {
      ConcludingContinuesBut(s, lost, t, c, row, version);
    } else {
      assert t.pending == s.pending && t.rows == s.rows;
    }
  }

  /**
    Once its write is done a rollback cannot fail: in every run from there that does not lose the
    protection of its record, the command is either still on its way or has left the record
    superseded at the version it wrote.
   */
  lemma {:induction false} RollbackConcludes(
    s: System, lost: set<Id>, steps: seq<Step>, c: Command, row: Row, version: u64)
    requires InvBut(s, lost) && c.Rollback? && c.id !in LostIn(s, lost, steps)
    requires row.generation == c.generation < U64_MAX && Concluding(s, c, row, version)
    ensures Concluding(Run(s, steps), c, row, version)
    decreases |steps|
  {
    if steps != [] {
      var t, more := Next(s, steps[0]), LostAfter(s, lost, steps[0]);
      StepKeepsBut(s, lost, steps[0]);
      LostGrows(t, more, steps[1..]);
      ConcludingStep(s, lost, steps[0], t, c, row, version);
      RollbackConcludes(t, more, steps[1..], c, row, version);
    }
  }

  // ---------------------------------------------------------------- where protection starts

  /**
    A section that protects a version leaves the entry at exactly that version, live and not
    empty: the bytes every later rollback to it restores.
   */
  lemma ProtectOrigin(s: System, t: System)
    requires Inv(s) && s.pending.Running? && s.pending.pc.AtProtect?
    requires t == Advance(s) && t.pending.Running?
    ensures var path := LogicalPath(s.pending.endpoint.resource);
      var v := s.pending.pc.live;
      && t.pending == s.pending.(pc := AtInstall(v)) && t.rows == s.rows
      && path in t.kv.entries && t.kv.entries[path].current == v && v in t.kv.entries[path].versions
      && t.kv.entries[path].versions[v].state == Kv.Live && t.kv.entries[path].versions[v].encoded != []
  {
    SectionShape(s);
  }

  lemma {:induction false} InterleaveEvolves(s: System, others: seq<Kv.DataStep>, path: Bytes, v: u64)
    requires KI.AllWellFormed(s.kv) && Held(s.kv, path, v, v)
    ensures var t := Interleave(s, others);
      path in t.kv.entries && KI.Evolves(s.kv.entries[path], t.kv.entries[path])
    decreases |others|
  {
    if others == [] {
      KI.EvolvesReflexive(s.kv.entries[path]);
    } else {
      var u := s.(kv := Kv.Apply(s.kv, others[0]).0);
      HeldThroughStep(s.kv, others[0], path, v, v);
      KI.StepKeepsInvariant(s.kv, others[0]);
      InterleaveEvolves(u, others[1..], path, v);
      KI.EvolvesTransitive(s.kv.entries[path], u.kv.entries[path], Interleave(u, others[1..]).kv.entries[path]);
    }
  }

  /**
    From the protecting section of a begin or refresh to the end of the command: the installed
    record names the protected version, and the entry has only evolved since it was protected.
   */
  lemma ProtectedThroughInstall(s: System, others: seq<Kv.DataStep>, t: System)
    requires Inv(s) && s.pending.Running? && s.pending.pc.AtInstall?
    requires s.pending.command.Begin? || s.pending.command.Refresh?
    requires Section(s, others, t) && s.pending.command.id in t.rows
    ensures var path := LogicalPath(s.pending.endpoint.resource);
      var id := s.pending.command.id;
      && t.rows[id].record.protectedVersion == s.pending.pc.version && PathAt(t, id) == path
      && path in s.kv.entries && path in t.kv.entries
      && KI.Evolves(s.kv.entries[path], t.kv.entries[path])
  {
    var c := s.pending.command;
    var path := LogicalPath(s.pending.endpoint.resource);
    if c.Refresh? {
      assert RowOk(c.id, s.rows[c.id]) && ClaimHeld(s, c.id);
    }
    InterleaveEvolves(s, others, path, s.pending.pc.version);
    InstalledVersion(Interleave(s, others), t);
  }

  lemma InstalledVersion(s: System, t: System)
    requires Coherent(s.pending) && s.pending.Running? && s.pending.pc.AtInstall?
    requires s.pending.command.Begin? || s.pending.command.Refresh?
    requires s.pending.command.Begin? ==> s.pending.command.id !in s.rows
    requires s.pending.command.Refresh? ==>
      && s.pending.command.id in s.rows && s.pending.current == Some(s.rows[s.pending.command.id])
      && s.rows[s.pending.command.id].record.id == s.pending.command.id
      && Sealable(Replacement(s.pending.command, s.pending.current, s.pending.pc.version))
    requires t == Advance(s) && s.pending.command.id in t.rows
    ensures t.kv == s.kv
    ensures var r := t.rows[s.pending.command.id].record;
      r.protectedVersion == s.pending.pc.version
      && r.resource == (if s.pending.command.Begin? then s.pending.command.resource
                        else s.pending.current.value.record.resource)
  {
  }

  lemma {:induction false} InterleaveBut(s: System, lost: set<Id>, others: seq<Kv.DataStep>)
    requires InvBut(s, lost)
    ensures InvBut(Interleave(s, others), lost)
    ensures Interleave(Without(s, lost), others) == Without(Interleave(s, others), lost)
    decreases |others|
  {
    if others != [] {
      ElsewhereBut(s, lost, others[0]);
      InterleaveBut(Next(s, Elsewhere(others[0])), lost, others[1..]);
    }
  }

  lemma ProtectedThroughInstallBut(p: System, lost: set<Id>, others: seq<Kv.DataStep>, s: System)
    requires InvBut(p, lost) && !Foreign(p, lost) && p.pending.Running? && p.pending.pc.AtInstall?
    requires p.pending.command.Begin? || p.pending.command.Refresh?
    requires Section(p, others, s) && p.pending.command.id in s.rows
    ensures InvBut(s, lost) && s.pending.Idle?
    ensures var path := LogicalPath(p.pending.endpoint.resource);
      var id := p.pending.command.id;
      && s.rows[id].record.protectedVersion == p.pending.pc.version && PathAt(s, id) == path
      && path in p.kv.entries && path in s.kv.entries && p.pending.pc.version <= p.kv.entries[path].current
      && KI.Evolves(p.kv.entries[path], s.kv.entries[path])
  {
    var m := Interleave(p, others);
    InterleaveBut(p, lost, others);
    ContinueMirrors(m, lost);
    OwnBut(m, lost);
    InstallShape(m);
    ProtectedThroughInstall(Without(p, lost), others, Without(s, lost));
    ProtectedIsReached(Without(p, lost));
  }

  /**
    The whole story in one run: `p` has just protected a version for a begin or refresh, `s` is
    the end of that command, and later, at `t`, a rollback of the record to that version writes.
    What it writes are the bytes held at `p`, unless a step lost the protection of this record.
   */
  lemma RollbackRestoresProtected(
    p: System, lost: set<Id>, others: seq<Kv.DataStep>, s: System, steps: seq<Step>, t: System, u: System)
    requires InvBut(p, lost) && !Foreign(p, lost) && p.pending.Running? && p.pending.pc.AtInstall?
    requires p.pending.command.Begin? || p.pending.command.Refresh?
    requires Section(p, others, s) && p.pending.command.id in s.rows
    requires Coherent(s.pending) && p.pending.command.id !in LostIn(s, lost, steps)
    requires t == Run(s, steps) && Writing(t, p.pending.command.id) && u == Advance(t) && u.pending.Running?
    requires t.rows[p.pending.command.id].record.protectedVersion == p.pending.pc.version
    ensures var path := LogicalPath(p.pending.endpoint.resource);
      var v := p.pending.pc.version;
      && path in p.kv.entries && v in p.kv.entries[path].versions && t.pending.pc.expected < U64_MAX
      && NowHolds(u.kv, path, t.pending.pc.expected + 1,
                  Kv.VersionValue(p.kv.entries[path].versions[v].encoded, t.kv.now, Kv.Live, None))
  {
    var id := p.pending.command.id;
    var path := LogicalPath(p.pending.endpoint.resource);
    ProtectedThroughInstallBut(p, lost, others, s);
    RollbackRestores(p.kv.entries[path], s, lost, steps, id, t, u);
  }

  lemma ProtectedIsReached(p: System)
    requires Inv(p) && p.pending.Running? && p.pending.pc.AtInstall?
    requires p.pending.command.Begin? || p.pending.command.Refresh?
    ensures var path := LogicalPath(p.pending.endpoint.resource);
      path in p.kv.entries && p.pending.pc.version <= p.kv.entries[path].current
  {
    var c := p.pending.command;
    if c.Refresh? {
      assert RowOk(c.id, p.rows[c.id]) && ClaimHeld(p, c.id);
    }
  }

  // ---------------------------------------------------------------- cutover

  /** The command in flight is the cutover of `id`, in front of its write. */
  ghost predicate CuttingOver(s: System, id: Id) {
    && s.pending.Running? && s.pending.command.CutOver? && s.pending.command.id == id && s.pending.pc.AtWrite?
    && id in s.rows
  }

  lemma StaleCutoverFails(s: System, t: System, id: Id)
    requires Inv(s) && CuttingOver(s, id) && t == Advance(s)
    requires PathAt(s, id) in s.kv.entries && s.kv.entries[PathAt(s, id)].current > s.rows[id].record.expectedCas
    ensures t.reply.Some? && t.reply.value.Failed? && t == Finish(s, t.reply.value)
    ensures s.pending.command.replacement.bounded
            && |s.pending.command.replacement.encoded| <= Kv.MAX_SECRET_ENCODED_BYTES
            ==> t.reply == Some(Failed(CasConflict))
  {
    OwnClaim(s);
  }

  lemma StaleCutoverFailsBut(s: System, lost: set<Id>, t: System, id: Id)
    requires InvBut(s, lost) && id !in lost && CuttingOver(s, id) && t == Advance(s)
    requires PathAt(s, id) in s.kv.entries && s.kv.entries[PathAt(s, id)].current > s.rows[id].record.expectedCas
    ensures t.reply.Some? && t.reply.value.Failed? && t == Finish(s, t.reply.value)
  {
    ContinueMirrors(s, lost);
    SectionShape(s);
    StaleCutoverFails(Without(s, lost), Without(t, lost), id);
  }

  /**
    A plain write after a prepare blocks the cutover until a refresh: from any state in which the
    entry has moved past the prepared version, in every run in which the record is unchanged and
    its own protection is not lost, a cutover that reaches its write is refused and changes nothing.
   */
  lemma PlainWriteBlocksCutover(s: System, lost: set<Id>, steps: seq<Step>, id: Id, t: System, u: System)
    requires InvBut(s, lost) && id !in LostIn(s, lost, steps)
    requires id in s.rows && PathAt(s, id) in s.kv.entries
    requires s.kv.entries[PathAt(s, id)].current > s.rows[id].record.expectedCas
    requires t == Run(s, steps) && CuttingOver(t, id) && t.rows[id] == s.rows[id] && u == Advance(t)
    ensures u.reply.Some? && u == Finish(t, u.reply.value) && u.reply.value.Failed?
  {
    RunKeepsBut(s, lost, steps);
    CuttingOverIsActive(t, id);
    ActiveRun(s, lost, steps, id);
    StaleCutoverFailsBut(t, LostIn(s, lost, steps), u, id);
  }

  lemma CuttingOverIsActive(s: System, id: Id)
    requires Records(s) && CuttingOver(s, id)
    ensures Active(s, id)
  {
  }

  // ---------------------------------------------------------------- what readers get

  lemma CuttingOverIs(s: System, id: Id)
    requires Records(s) && CuttingOver(s, id)
    ensures PathAt(s, id) == LogicalPath(s.pending.endpoint.resource) && s.pending.endpoint.kind == Data
    ensures s.pending.pc.expected == s.rows[id].record.expectedCas
  {
  }

  /**
    A cutover gets past its write exactly when the replacement fits and the entry is still at the
    version the record expects, protected and with room; and then the version after it holds the
    replacement's very bytes, live, from now on.
   */
  lemma CutoverStores(s: System, t: System, id: Id)
    requires Records(s) && CuttingOver(s, id) && t == Advance(s)
    ensures t.pending.Running? <==>
      && s.pending.endpoint.resource.mount == SECRET_MOUNT && KA.Fits(s.pending.command.replacement)
      && KA.Takes(s.kv, PathAt(s, id), s.rows[id].record.expectedCas)
    ensures t.pending.Running? ==>
      && s.pending.pc.expected < U64_MAX && t.rows == s.rows
      && t.pending == s.pending.(pc := AtInstall(s.pending.pc.expected + 1))
      && NowHolds(t.kv, PathAt(s, id), s.pending.pc.expected + 1,
                  Kv.VersionValue(s.pending.command.replacement.encoded, s.kv.now, Kv.Live, None))
      && t.kv.audit == s.kv.audit + [Kv.Event(s.pending.command.caller.identity, PathAt(s, id), Kv.RotationCutoverOp,
                                              Kv.Succeeded, Some(s.pending.pc.expected + 1), None)]
  {
    CuttingOverIs(s, id);
    CutoverIs(s);
    var c := s.pending.command;
    KA.CutoverExact(s.kv, c.caller.identity, s.pending.endpoint, c.replacement, s.pending.pc.expected);
  }

  /** The path has an entry after every step of the run. */
  ghost predicate Stays(s: System, steps: seq<Step>, path: Bytes)
    requires Coherent(s.pending)
    decreases |steps|
  {
    && path in s.kv.entries
    && (steps != [] ==> (NextCoherent(s, steps[0]); Stays(Next(s, steps[0]), steps[1..], path)))
  }

  lemma {:induction false} StaysEvolves(s: System, steps: seq<Step>, path: Bytes)
    requires Coherent(s.pending) && KI.AllWellFormed(s.kv) && Stays(s, steps, path)
    ensures path in Run(s, steps).kv.entries
    ensures KI.Evolves(s.kv.entries[path], Run(s, steps).kv.entries[path])
    decreases |steps|
  {
    if steps == [] {
      KI.EvolvesReflexive(s.kv.entries[path]);
    } else {
      var u := Next(s, steps[0]);
      NextCoherent(s, steps[0]);
      StepFollows(s, steps[0]);
      StaysEvolves(u, steps[1..], path);
      KI.EvolvesTransitive(s.kv.entries[path], u.kv.entries[path], Run(s, steps).kv.entries[path]);
    }
  }

  /** A read of exactly this version of the path. */
  predicate ReadsVersion(endpoint: Endpoint, path: Bytes, version: u64) {
    KA.Placed(endpoint, Data) && LogicalPath(endpoint.resource) == path && endpoint.version == Some(version)
  }

  /** A version once held is read back, with its bytes and time, for exactly as long as it is there and live. */
  lemma HeldIsReadBack(
    s: System, steps: seq<Step>, path: Bytes, version: u64, value: Kv.VersionValue,
    identity: Id, endpoint: Endpoint, allowed: bool)
    requires Coherent(s.pending) && KI.AllWellFormed(s.kv) && NowHolds(s.kv, path, version, value)
    requires value.state == Kv.Live && value.encoded != []
    requires Stays(s, steps, path) && ReadsVersion(endpoint, path, version)
    ensures var kv := Run(s, steps).kv;
      && path in kv.entries
      && (Kv.Read(kv, identity, endpoint, allowed).1 == Ok(Kv.ReadOut(value.encoded, version, value.created)) <==>
            && allowed && !kv.failNextRead
            && version in kv.entries[path].versions && kv.entries[path].versions[version].state == Kv.Live)
  {
    StaysEvolves(s, steps, path);
    var kv := Run(s, steps).kv;
    if version in kv.entries[path].versions {
      assert KI.Survives(value, kv.entries[path].versions[version]);
    }
    KA.ReadExact(kv, identity, endpoint, allowed, Kv.ReadOut(value.encoded, version, value.created));
  }

  /** What a cutover wrote is what readers of the new version get, in every later run that keeps the path. */
  lemma CutoverIsReadBack(
    s: System, t: System, id: Id, steps: seq<Step>, identity: Id, endpoint: Endpoint, allowed: bool)
    requires Records(s) && KI.AllWellFormed(s.kv) && CuttingOver(s, id) && t == Advance(s) && t.pending.Running?
    requires Coherent(t.pending) && Stays(t, steps, PathAt(s, id))
    requires s.pending.pc.expected < U64_MAX && ReadsVersion(endpoint, PathAt(s, id), s.pending.pc.expected + 1)
    ensures var kv := Run(t, steps).kv;
      var (path, version) := (PathAt(s, id), s.pending.pc.expected + 1);
      && path in kv.entries
      && (Kv.Read(kv, identity, endpoint, allowed).1
            == Ok(Kv.ReadOut(s.pending.command.replacement.encoded, version, s.kv.now)) <==>
            && allowed && !kv.failNextRead
            && version in kv.entries[path].versions && kv.entries[path].versions[version].state == Kv.Live)
  {
    CutoverStores(s, t, id);
    StepFollows(s, Continue);
    HeldIsReadBack(t, steps, PathAt(s, id), s.pending.pc.expected + 1,
                   Kv.VersionValue(s.pending.command.replacement.encoded, s.kv.now, Kv.Live, None),
                   identity, endpoint, allowed);
  }

  /** And likewise what a rollback wrote. */
  lemma RollbackIsReadBack(
    s: System, t: System, id: Id, steps: seq<Step>, identity: Id, endpoint: Endpoint, allowed: bool)
    requires Records(s) && KI.AllWellFormed(s.kv) && Writing(s, id) && t == Advance(s) && t.pending.Running?
    requires Coherent(t.pending) && Stays(t, steps, PathAt(s, id))
    requires s.pending.pc.expected < U64_MAX && ReadsVersion(endpoint, PathAt(s, id), s.pending.pc.expected + 1)
    ensures var kv := Run(t, steps).kv;
      var (path, version) := (PathAt(s, id), s.pending.pc.expected + 1);
      && path in kv.entries
      && (Kv.Read(kv, identity, endpoint, allowed).1
            == Ok(Kv.ReadOut(s.pending.pc.encoded, version, s.kv.now)) <==>
            && allowed && !kv.failNextRead
            && version in kv.entries[path].versions && kv.entries[path].versions[version].state == Kv.Live)
  {
    RollbackWrites(s, t, id);
    StepFollows(s, Continue);
    HeldIsReadBack(t, steps, PathAt(s, id), s.pending.pc.expected + 1,
                   Kv.VersionValue(s.pending.pc.encoded, s.kv.now, Kv.Live, None), identity, endpoint, allowed);
  }
}
