/** What holds of the records in every run, whatever happens to the store. */
module RotationRecords {
  import opened Prelude
  import opened Endpoints
  import opened RotationModel
  import opened RotationInvariant
  import Kv = KvModel

  ghost predicate RowsSound(rows: map<Id, Row>) {
    forall id :: id in rows ==> RowSound(id, rows[id])
  }

  /** The program counters of a row command, with the versions that come from its record. */
  ghost predicate PcNames(c: Command, r: Record, pc: Pc) {
    match c
    case Begin(_, _, _, _, _) => false
    case Refresh(_, _, _, _, _) => pc.AtSnapshot? || pc.AtProtect? || pc.AtInstall?
    case CutOver(_, _, _, _, _) =>
      (pc.AtWrite? && pc.expected == r.expectedCas) || (pc.AtInstall? && pc.version == r.expectedCas + 1)
    case Cancel(_, _, _, _, _) => (pc.AtRelease? || pc.AtInstall?) && pc.version == r.expectedCas
    case Rollback(_, _, _, _, _) => !pc.AtProtect?
    case Supersede(_, _, _) => pc.AtSnapshot? || pc.AtRelease? || pc.AtInstall?
    case Complete(_, _, _, _, _, _, _, _) => pc.AtInstall? && r.targetVersion == Some(pc.version)
  }

  ghost predicate BeginSound(s: System)
    requires s.pending.Running? && s.pending.command.Begin?
  {
    var Running(c, endpoint, current, pc) := s.pending;
    && EndpointFor(c.resource) == Some(endpoint)
    && c.id !in s.rows && !HasOpen(s.rows, c.resource)
    && (pc.AtSnapshot? || pc.AtProtect? || (pc.AtInstall? && endpoint.resource.mount == SECRET_MOUNT))
  }

  ghost predicate RowCommandSound(s: System)
    requires s.pending.Running? && !s.pending.command.Begin?
  {
    var Running(c, endpoint, current, pc) := s.pending;
    && c.id in s.rows && current == Some(s.rows[c.id])
    && c.generation == current.value.generation < U64_MAX
    && current.value.record.state == RequiredState(c)
    && EndpointFor(current.value.record.resource) == Some(endpoint)
    && PcNames(c, current.value.record, pc)
  }

  ghost predicate PendingSound(s: System) {
    s.pending.Running? ==> if s.pending.command.Begin? then BeginSound(s) else RowCommandSound(s)
  }

  /** The record half of the invariant. */
  ghost predicate Records(s: System) {
    Coherent(s.pending) && RowsSound(s.rows) && OneOpenEach(s.rows) && PendingSound(s)
  }

  lemma InvHasRecords(s: System)
    requires Inv(s)
    ensures Records(s)
  {
    forall id | id in s.rows
      ensures RowSound(id, s.rows[id])
    {
      assert RowOk(id, s.rows[id]);
    }
  }

  // ---------------------------------------------------------------- steps

  lemma StartBeginSound(s: System, c: Command)
    requires s.pending.Idle? && c.Begin? && Start(s, c).pending.Running?
    ensures PendingSound(Start(s, c))
  {
  }

  lemma StartRowShape(s: System, c: Command)
    requires s.pending.Idle? && !c.Begin? && Start(s, c).pending.Running?
    ensures c.id in s.rows
    ensures var row, t := s.rows[c.id], Start(s, c);
      && row.generation == c.generation < U64_MAX && row.record.state == RequiredState(c)
      && (c.Complete? ==> row.record.targetVersion.Some?)
      && t.pending.command == c && t.pending.current == Some(row) && t.pending.pc == FirstPc(c, Some(row))
      && EndpointFor(row.record.resource) == Some(t.pending.endpoint)
  {
  }

  lemma StartRowSound(s: System, c: Command)
    requires RowsSound(s.rows) && s.pending.Idle? && !c.Begin? && Start(s, c).pending.Running?
    ensures PendingSound(Start(s, c))
  {
    StartRowShape(s, c);
    StartShape(s, c);
  }

  /** A section before the last leaves the rows, and leaves the command over or at a later counter. */
  ghost predicate Goes(s: System, t: System)
    requires s.pending.Running?
  {
    t.rows == s.rows && (t.pending.Idle? || t.pending == s.pending.(pc := t.pending.pc))
  }

  lemma WriteGoes(s: System)
    requires Coherent(s.pending) && s.pending.Running? && s.pending.pc.AtWrite? && !s.pending.command.Begin?
    ensures var c, t := s.pending.command, Advance(s);
      && Goes(s, t)
      && (t.pending.Running? ==>
            if c.CutOver? then s.pending.pc.expected < U64_MAX && t.pending.pc == AtInstall(s.pending.pc.expected + 1)
            else t.pending.pc.AtRelease?)
  {
    var Running(c, endpoint, current, pc) := s.pending;
    if c.CutOver? {
      WriteFacts(s.kv, c.caller.identity, endpoint, c.replacement.encoded, pc.expected, Kv.RotationCutoverOp);
    }
  }

  lemma OtherGoes(s: System)
    requires Coherent(s.pending) && s.pending.Running?
    requires s.pending.pc.AtSnapshot? || s.pending.pc.AtCopy? || s.pending.pc.AtRelease?
    requires s.pending.command.Begin? ==> s.pending.pc.AtSnapshot?
    ensures var c, t := s.pending.command, Advance(s);
      && Goes(s, t)
      && (t.pending.Running? ==>
            match s.pending.pc
            case AtSnapshot =>
              if c.Rollback? then t.pending.pc.AtCopy?
              else if c.Supersede? then t.pending.pc.AtRelease? else t.pending.pc.AtProtect?
            case AtCopy(_) => t.pending.pc.AtWrite?
            case AtRelease(version) => t.pending.pc == AtInstall(version)
            case _ => true)
  {
  }

  lemma ProtectGoes(s: System)
    requires Coherent(s.pending) && s.pending.Running? && s.pending.pc.AtProtect?
    ensures var t := Advance(s);
      && Goes(s, t)
      && (t.pending.Running? ==>
            t.pending.pc == AtInstall(s.pending.pc.live) && s.pending.endpoint.resource.mount == SECRET_MOUNT)
  {
    ProtectShape(s.kv, s.pending.endpoint, s.pending.pc.live);
  }

  lemma ReplacementSound(c: Command, row: Row, version: u64)
    requires !c.Begin? && RowSound(c.id, row) && row.record.state == RequiredState(c)
    requires PcNames(c, row.record, AtInstall(version))
    ensures var r := Replacement(c, Some(row), version);
      && r.id == c.id && r.resource == row.record.resource
      && |r.history| == |row.record.history| + 1 && r.history[..|row.record.history|] == row.record.history
      && WellSpelled(r.history) && NamesFit(r)
  {
    var r := row.record;
    var t := Transition(Replacement(c, Some(row), version).state, c.effective, version);
    assert Replacement(c, Some(row), version).history == r.history + [t];
    WellSpelledGrows(r.history, t);
  }

  lemma BeginSealed(c: Command, version: u64)
    requires c.Begin? && Sealable(Replacement(c, None, version))
    requires EndpointFor(c.resource).value.resource.mount == SECRET_MOUNT
    ensures RowSound(c.id, Row(Replacement(c, None, version), 1))
  {
    var h := Replacement(c, None, version).history;
    assert PreparedUpTo(h, 1) && TailFrom(h, 1);
  }

  /** How one step may change a row: not at all, or an open row gains one transition. */
  ghost predicate RowMoves(before: Row, after: Row) {
    || after == before
    || (&& Open(before.record.state)
        && after.generation == before.generation + 1
        && after.record.resource == before.record.resource
        && |after.record.history| == |before.record.history| + 1
        && after.record.history[..|before.record.history|] == before.record.history)
  }

  lemma BeginInstalls(s: System)
    requires Records(s) && s.pending.Running? && s.pending.pc.AtInstall? && s.pending.command.Begin?
    ensures Installs(s, Advance(s))
  {
    var Running(c, endpoint, current, pc) := s.pending;
    if Sealable(Replacement(c, None, pc.version)) { BeginSealed(c, pc.version); }
  }

  lemma RowInstalls(s: System)
    requires Records(s) && s.pending.Running? && s.pending.pc.AtInstall? && !s.pending.command.Begin?
    ensures Installs(s, Advance(s))
  {
    var c := s.pending.command;
    assert RowSound(c.id, s.rows[c.id]);
    ReplacementSound(c, s.rows[c.id], s.pending.pc.version);
    InstallIs(s);
  }

  /** What installing makes of the rows: nothing, or one new or moved row that is sound. */
  ghost predicate Installs(s: System, t: System)
    requires s.pending.Running?
  {
    var c := s.pending.command;
    && t.pending.Idle?
    && (|| t.rows == s.rows
        || (&& c.id in t.rows && t.rows == s.rows[c.id := t.rows[c.id]] && RowSound(c.id, t.rows[c.id])
            && (c.Begin? ==> t.rows[c.id].record.resource == c.resource)
            && (!c.Begin? ==> c.id in s.rows && RowMoves(s.rows[c.id], t.rows[c.id])
                              && t.rows[c.id].record.resource == s.rows[c.id].record.resource)))
  }

  lemma InstallShape(s: System)
    requires Records(s) && s.pending.Running? && s.pending.pc.AtInstall?
    ensures Installs(s, Advance(s))
  {
    if s.pending.command.Begin? { BeginInstalls(s); } else { RowInstalls(s); }
  }

  lemma PutSound(rows: map<Id, Row>, id: Id, row: Row)
    requires RowsSound(rows) && OneOpenEach(rows) && RowSound(id, row)
    requires id in rows ==> Open(rows[id].record.state) && rows[id].record.resource == row.record.resource
    requires id !in rows ==> !HasOpen(rows, row.record.resource)
    ensures RowsSound(rows[id := row]) && OneOpenEach(rows[id := row])
  {
    var next := rows[id := row];
    forall i, j | i in next && j in next && BothOpen(next[i].record, next[j].record)
      ensures i == j
    {
      var a, b := if i == id then j else i, if i == id then i else j;
      if i != id && j != id {
        assert BothOpen(rows[i].record, rows[j].record);
      } else if id in rows && a != id {
        assert BothOpen(rows[a].record, rows[id].record);
      }
    }
    forall i | i in next
      ensures RowSound(i, next[i])
    {
      if i != id { assert RowSound(i, rows[i]); }
    }
  }

  lemma InstallSound(s: System)
    requires Records(s) && s.pending.Running? && s.pending.pc.AtInstall?
    ensures Records(Advance(s))
  {
    InstallShape(s);
    var c, t := s.pending.command, Advance(s);
    if t.rows != s.rows { PutSound(s.rows, c.id, t.rows[c.id]); }
  }

  lemma SectionSound(s: System)
    requires Records(s) && s.pending.Running? && !s.pending.pc.AtInstall?
    ensures Records(Advance(s)) && Advance(s).rows == s.rows
  {
    NextCoherent(s, Continue);
    if s.pending.pc.AtWrite? {
      WriteGoes(s);
    } else if s.pending.pc.AtProtect? {
      ProtectGoes(s);
    } else {
      OtherGoes(s);
    }
  }

  lemma RecordsStep(s: System, step: Step)
    requires Records(s)
    ensures Records(Next(s, step))
  {
    if step.Issue? && s.pending.Idle? {
      StartShape(s, step.command);
      if Start(s, step.command).pending.Running? {
        if step.command.Begin? { StartBeginSound(s, step.command); } else { StartRowSound(s, step.command); }
      }
    } else if step.Continue? && s.pending.Running? {
      if s.pending.pc.AtInstall? { InstallSound(s); } else { SectionSound(s); }
    }
  }

  lemma StepMovesRows(s: System, step: Step, id: Id)
    requires Records(s) && id in s.rows
    ensures id in Next(s, step).rows && RowMoves(s.rows[id], Next(s, step).rows[id])
  {
    if step.Issue? && s.pending.Idle? {
      StartShape(s, step.command);
    } else if step.Continue? && s.pending.Running? {
      if s.pending.pc.AtInstall? { InstallShape(s); } else { SectionSound(s); }
    }
  }

  // ---------------------------------------------------------------- runs

  lemma {:induction false} RecordsRun(s: System, steps: seq<Step>)
    requires Records(s)
    ensures Records(Run(s, steps))
    decreases |steps|
  {
    if steps != [] {
      RecordsStep(s, steps[0]);
      RecordsRun(Next(s, steps[0]), steps[1..]);
    }
  }

  /**
    In every run at all: each resource has at most one open rotation, and in every record the
    generation is the length of the history, which is well spelled and has at most 32 transitions,
    and a record that reached cutover has target = protected + 1 = expected cas + 1.
   */
  lemma ReachableRecords(casRequired: bool, now: u64, steps: seq<Step>)
    ensures var t := Run(InitialSystem(casRequired, now), steps);
      && Records(t) && OneOpenEach(t.rows)
      && forall id :: id in t.rows ==>
           var r := t.rows[id].record;
           && t.rows[id].generation == |r.history| && 1 <= |r.history| <= MAX_HISTORY && WellSpelled(r.history)
           && r.history[|r.history| - 1].state == r.state
           && (r.state != Prepared && r.state != Cancelled ==>
                 r.targetVersion == Some(r.protectedVersion + 1) && r.expectedCas == r.protectedVersion)
  {
    RecordsRun(InitialSystem(casRequired, now), steps);
    var t := Run(InitialSystem(casRequired, now), steps);
    forall id | id in t.rows
      ensures RowSound(id, t.rows[id])
    {
    }
  }

  /** In every run no record disappears, histories only grow, and a terminal record never changes. */
  lemma {:induction false} TerminalIsFinal(s: System, steps: seq<Step>, id: Id)
    requires Records(s) && id in s.rows
    ensures id in Run(s, steps).rows
    ensures !Open(s.rows[id].record.state) ==> Run(s, steps).rows[id] == s.rows[id]
    ensures s.rows[id].record.history <= Run(s, steps).rows[id].record.history
    ensures s.rows[id].record.resource == Run(s, steps).rows[id].record.resource
    decreases |steps|
  {
    if steps != [] {
      StepMovesRows(s, steps[0], id);
      RecordsStep(s, steps[0]);
      TerminalIsFinal(Next(s, steps[0]), steps[1..], id);
    }
  }
}
