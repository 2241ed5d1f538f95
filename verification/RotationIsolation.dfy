/** A record that loses its protection takes nothing from the others. */
module RotationIsolation {
  import opened Prelude
  import opened Text
  import opened Endpoints
  import opened RotationModel
  import opened RotationInvariant
  import opened RotationRecords
  import opened RotationSections
  import opened RotationSteps
  import Kv = KvModel
  import KI = KvInvariant

  /** The command in flight is that of a record in `lost`. */
  predicate Foreign(s: System, lost: set<Id>) {
    s.pending.Running? && !s.pending.command.Begin? && s.pending.command.id in lost
  }

  /** The machine as it looks to everyone but the records in `lost`. */
  function Without(s: System, lost: set<Id>): System {
    s.(rows := s.rows - lost, pending := if Foreign(s, lost) then Idle else s.pending)
  }

  /** Every record is sound, and those not in `lost` have all of the invariant. */
  ghost predicate InvBut(s: System, lost: set<Id>) {
    Records(s) && lost <= s.rows.Keys && Inv(Without(s, lost))
  }

  /** The records in `lost`, and the one whose protection the step loses. */
  ghost function LostAfter(s: System, lost: set<Id>, step: Step): set<Id> {
    if LosesAt(s, step) then lost + {s.pending.command.id} else lost
  }

  lemma InvButNone(s: System)
    ensures Inv(s) ==> InvBut(s, {})
  {
    assert s.rows - {} == s.rows;
    assert Without(s, {}) == s;
    if Inv(s) { InvHasRecords(s); }
  }

  lemma InvSame(a: System, b: System)
    requires Inv(a) && b.kv == a.kv && b.rows == a.rows && b.pending == a.pending
    ensures Inv(b)
  {
    forall id | id in b.rows
      ensures ClaimHeld(b, id)
    {
      assert ClaimHeld(a, id);
    }
  }

  // ---------------------------------------------------------------- what the others do not notice

  /** A change at a path no open record counts on. */
  lemma ChangeElsewhere(u: System, kv: Kv.Catalog, path: Bytes)
    requires Inv(u) && u.pending.Idle? && KI.AllWellFormed(kv) && ChangesOnly(u.kv, kv, path)
    requires forall id :: id in u.rows && Open(u.rows[id].record.state) ==> PathOf(u.rows[id].record.resource) != path
    ensures Inv(u.(kv := kv))
  {
    var t := u.(kv := kv);
    forall id | id in t.rows
      ensures ClaimHeld(t, id)
    {
      assert RowOk(id, u.rows[id]) && ClaimHeld(u, id);
      if Open(u.rows[id].record.state) { ClaimCarries(u, t, id); }
    }
  }

  lemma DropRows(u: System, gone: set<Id>)
    requires Inv(u) && u.pending.Idle?
    ensures Inv(u.(rows := u.rows - gone))
  {
    var t := u.(rows := u.rows - gone);
    forall id | id in t.rows
      ensures RowOk(id, t.rows[id]) && ClaimHeld(t, id)
    {
      assert RowOk(id, u.rows[id]) && ClaimHeld(u, id);
    }
    forall i, j | i in t.rows && j in t.rows && BothOpen(t.rows[i].record, t.rows[j].record)
      ensures i == j
    {
      assert BothOpen(u.rows[i].record, u.rows[j].record);
    }
  }

  /** While a command runs on its row, no other open record shares its path. */
  lemma OwnPathAlone(s: System, id: Id)
    requires Records(s) && s.pending.Running? && !s.pending.command.Begin? && id in s.rows
    requires id != s.pending.command.id && Open(s.rows[id].record.state)
    ensures PathOf(s.rows[id].record.resource) != LogicalPath(s.pending.endpoint.resource)
  {
    var own := s.pending.command.id;
    assert RowSound(id, s.rows[id]) && RowSound(own, s.rows[own]);
    assert !BothOpen(s.rows[id].record, s.rows[own].record);
    if PathOf(s.rows[id].record.resource) == LogicalPath(s.pending.endpoint.resource) {
      ResourceFromPath(s.rows[id].record.resource, s.rows[own].record.resource);
    }
  }

  /** What a section on a row does is a change elsewhere to all the other rows. */
  lemma SectionElsewhere(s: System, u: System, gone: set<Id>)
    requires Records(s) && s.pending.Running? && !s.pending.command.Begin?
    requires Inv(u) && u.pending.Idle? && u.kv == s.kv && u.rows == s.rows - gone && s.pending.command.id in gone
    ensures Inv(u.(kv := Advance(s).kv))
  {
    SectionShape(s);
    SectionChangesOnly(s);
    SectionFollows(s);
    forall id | id in u.rows && Open(u.rows[id].record.state)
      ensures PathOf(u.rows[id].record.resource) != LogicalPath(s.pending.endpoint.resource)
    {
      OwnPathAlone(s, id);
    }
    ChangeElsewhere(u, Advance(s).kv, LogicalPath(s.pending.endpoint.resource));
  }

  // ---------------------------------------------------------------- steps

  /** A section of a command that is not foreign does not look at the rows in `lost`. */
  lemma SectionMirrors(s: System, lost: set<Id>)
    requires Coherent(s.pending) && s.pending.Running? && !s.pending.pc.AtInstall?
    ensures Advance(s.(rows := s.rows - lost)) == Advance(s).(rows := Advance(s).rows - lost)
  {
  }

  lemma PutAway(rows: map<Id, Row>, id: Id, row: Row, lost: set<Id>)
    ensures id in lost ==> rows[id := row] - lost == rows - lost
    ensures id !in lost ==> rows[id := row] - lost == (rows - lost)[id := row]
  {
  }

  lemma InstallMirrors(s: System, lost: set<Id>)
    requires Coherent(s.pending) && s.pending.Running? && s.pending.pc.AtInstall?
    requires Replacement(s.pending.command, s.pending.current, s.pending.pc.version).id !in lost
    ensures Advance(s.(rows := s.rows - lost)) == Advance(s).(rows := Advance(s).rows - lost)
  {
    var record := Replacement(s.pending.command, s.pending.current, s.pending.pc.version);
    if Advance(s).rows != s.rows { PutAway(s.rows, record.id, Advance(s).rows[record.id], lost); }
  }

  lemma ContinueMirrors(s: System, lost: set<Id>)
    requires Records(s) && s.pending.Running? && !Foreign(s, lost) && lost <= s.rows.Keys
    ensures Without(s, lost) == s.(rows := s.rows - lost)
    ensures Advance(Without(s, lost)) == Advance(s).(rows := Advance(s).rows - lost)
    ensures Without(Advance(s), lost) == Advance(Without(s, lost))
  {
    var c := s.pending.command;
    if s.pending.pc.AtInstall? {
      if !c.Begin? { assert RowSound(c.id, s.rows[c.id]); }
      InstallMirrors(s, lost);
    } else {
      SectionMirrors(s, lost);
      SectionSound(s);
    }
    NextCommand(s);
  }

  lemma NextCommand(s: System)
    requires Coherent(s.pending)
    ensures Advance(s).pending.Running? ==> s.pending.Running? && Advance(s).pending.command == s.pending.command
  {
  }

  lemma StartMirrors(s: System, lost: set<Id>, c: Command)
    requires s.pending.Idle? && Start(s, c).pending.Running? && (c.Begin? || c.id !in lost)
    ensures Start(Without(s, lost), c).pending == Start(s, c).pending
  {
    if c.Begin? {
      assert !HasOpen(s.rows, c.resource);
      assert !HasOpen(s.rows - lost, c.resource);
    } else {
      StartRowShape(s, c);
      assert c.id in s.rows - lost && (s.rows - lost)[c.id] == s.rows[c.id];
      assert RowRefusal(s.rows - lost, c) == RowRefusal(s.rows, c);
    }
  }

  lemma StartBut(s: System, lost: set<Id>, c: Command)
    requires InvBut(s, lost)
    ensures InvBut(Start(s, c), lost)
  {
    RecordsStep(s, Issue(c));
    if s.pending.Idle? {
      var t, u := Start(s, c), Without(s, lost);
      StartShape(s, c);
      if t.pending.Running? && (c.Begin? || c.id !in lost) {
        StartMirrors(s, lost, c);
        StartShape(u, c);
        StartKeeps(u, c);
        InvSame(Start(u, c), Without(t, lost));
      } else {
        InvSame(u, Without(t, lost));
      }
    }
  }

  lemma ElsewhereBut(s: System, lost: set<Id>, d: Kv.DataStep)
    requires InvBut(s, lost)
    ensures InvBut(Next(s, Elsewhere(d)), lost)
  {
    RecordsStep(s, Elsewhere(d));
    ElsewhereKeeps(Without(s, lost), d);
    assert Without(Next(s, Elsewhere(d)), lost) == Next(Without(s, lost), Elsewhere(d));
  }

  /** A section of a lost record's command. */
  lemma ForeignBut(s: System, lost: set<Id>)
    requires InvBut(s, lost) && Foreign(s, lost)
    ensures InvBut(Advance(s), lost)
    ensures Without(Advance(s), lost).rows == s.rows - lost && Without(Advance(s), lost).pending.Idle?
  {
    var t, u := Advance(s), Without(s, lost);
    RecordsStep(s, Continue);
    NextCommand(s);
    ForeignRows(s, lost);
    SectionElsewhere(s, u, lost);
    InvSame(u.(kv := t.kv), Without(t, lost));
  }

  lemma ForeignRows(s: System, lost: set<Id>)
    requires Records(s) && Foreign(s, lost)
    ensures Advance(s).rows - lost == s.rows - lost && s.rows.Keys <= Advance(s).rows.Keys
  {
    var id, t := s.pending.command.id, Advance(s);
    if s.pending.pc.AtInstall? {
      InstallShape(s);
      if t.rows != s.rows { PutAway(s.rows, id, t.rows[id], lost); }
    } else {
      SectionShape(s);
    }
  }

  lemma LosingIs(s: System, lost: set<Id>)
    requires InvBut(s, lost) && !Foreign(s, lost) && Loses(s)
    ensures !s.pending.command.Begin? && s.pending.command.id in s.rows
    ensures Advance(s).rows == s.rows && Uncoupled(Advance(s), s.pending.command.id)
  {
    var u := Without(s, lost);
    ContinueMirrors(s, lost);
    LosesMirrors(s, lost);
    StepKeepsExactly(u, Continue);
    SectionShape(s);
  }

  /** What is left of the invariant when the running command and its record are put aside. */
  lemma Aside(u: System, id: Id)
    requires Inv(u) && u.pending.Running?
    requires u.pending.pc.AtInstall? ==> u.pending.command.Begin?
    ensures Inv(u.(rows := u.rows - {id}, pending := Idle))
  {
    FinishKeeps(u, u.kv, Failed(Invalid));
    var idle := Finish(u, Failed(Invalid));
    InvSame(Finish(u.(kv := u.kv), Failed(Invalid)), idle);
    DropRows(idle, {id});
    InvSame(idle.(rows := idle.rows - {id}), u.(rows := u.rows - {id}, pending := Idle));
  }

  lemma AwayTwice(rows: map<Id, Row>, lost: set<Id>, id: Id)
    ensures rows - lost - {id} == rows - (lost + {id})
  {
  }

  /** A section that fails: whatever it has done to the store, the other records do not notice. */
  lemma FailingRest(s: System, lost: set<Id>)
    requires InvBut(s, lost) && s.pending.Running? && !s.pending.command.Begin? && !Foreign(s, lost)
    requires !s.pending.pc.AtInstall? && Advance(s).pending.Idle?
    ensures Inv(Without(Advance(s), lost + {s.pending.command.id}))
  {
    var u, t, id := Without(s, lost), Advance(s), s.pending.command.id;
    SectionShape(s);
    AwayTwice(s.rows, lost, id);
    Aside(u, id);
    var rest := u.(rows := u.rows - {id}, pending := Idle);
    SectionElsewhere(s, rest, lost + {id});
    InvSame(rest.(kv := t.kv), Without(t, lost + {id}));
  }

  lemma FailingBut(s: System, lost: set<Id>)
    requires InvBut(s, lost) && s.pending.Running? && !s.pending.command.Begin? && !Foreign(s, lost)
    requires !s.pending.pc.AtInstall? && Advance(s).pending.Idle?
    ensures InvBut(Advance(s), lost + {s.pending.command.id})
  {
    FailingRest(s, lost);
    RecordsStep(s, Continue);
    SectionShape(s);
  }

  /** A section that loses its own record's protection. */
  lemma LosingBut(s: System, lost: set<Id>)
    requires InvBut(s, lost) && !Foreign(s, lost) && Loses(s)
    ensures InvBut(Advance(s), LostAfter(s, lost, Continue))
  {
    LosingIs(s, lost);
    FailingBut(s, lost);
  }

  lemma ForeignLosesNothing(s: System, lost: set<Id>)
    requires Foreign(s, lost)
    ensures LostAfter(s, lost, Continue) == lost
  {
  }

  lemma LosesMirrors(s: System, lost: set<Id>)
    requires Records(s) && s.pending.Running? && !Foreign(s, lost) && lost <= s.rows.Keys
    ensures Loses(Without(s, lost)) <==> Loses(s)
  {
  }

  lemma OwnBut(s: System, lost: set<Id>)
    requires InvBut(s, lost) && s.pending.Running? && !Foreign(s, lost) && !Loses(s)
    ensures InvBut(Advance(s), lost)
  {
    RecordsStep(s, Continue);
    RowsOnlyGrow(s);
    ContinueMirrors(s, lost);
    LosesMirrors(s, lost);
    ContinueKeeps(Without(s, lost));
  }

  lemma ContinueBut(s: System, lost: set<Id>)
    requires InvBut(s, lost)
    ensures InvBut(Advance(s), LostAfter(s, lost, Continue))
  {
    if s.pending.Running? {
      if Foreign(s, lost) {
        ForeignLosesNothing(s, lost);
        ForeignBut(s, lost);
      } else if Loses(s) {
        LosingBut(s, lost);
      } else {
        OwnBut(s, lost);
      }
    }
  }

  lemma StepKeepsBut(s: System, lost: set<Id>, step: Step)
    requires InvBut(s, lost)
    ensures InvBut(Next(s, step), LostAfter(s, lost, step))
  {
    match step
    case Elsewhere(d) => ElsewhereBut(s, lost, d);
    case Issue(c) => StartBut(s, lost, c);
    case Continue => ContinueBut(s, lost);
  }

  lemma RowsOnlyGrow(s: System)
    requires Records(s)
    ensures s.rows.Keys <= Advance(s).rows.Keys
  {
    forall id | id in s.rows
      ensures id in Advance(s).rows
    {
      StepMovesRows(s, Continue, id);
    }
  }

  // ---------------------------------------------------------------- runs

  /** The records whose protection some step of the run loses, added to `lost`. */
  ghost function LostIn(s: System, lost: set<Id>, steps: seq<Step>): set<Id>
    requires Coherent(s.pending)
    decreases |steps|
  {
    if steps == [] then lost
    else
      NextCoherent(s, steps[0]);
      LostIn(Next(s, steps[0]), LostAfter(s, lost, steps[0]), steps[1..])
  }

  lemma {:induction false} RunKeepsBut(s: System, lost: set<Id>, steps: seq<Step>)
    requires InvBut(s, lost)
    ensures InvBut(Run(s, steps), LostIn(s, lost, steps))
    decreases |steps|
  {
    if steps != [] {
      StepKeepsBut(s, lost, steps[0]);
      RunKeepsBut(Next(s, steps[0]), LostAfter(s, lost, steps[0]), steps[1..]);
    }
  }

  lemma {:induction false} LostGrows(s: System, lost: set<Id>, steps: seq<Step>)
    requires Coherent(s.pending)
    ensures lost <= LostIn(s, lost, steps)
    decreases |steps|
  {
    if steps != [] {
      NextCoherent(s, steps[0]);
      LostGrows(Next(s, steps[0]), LostAfter(s, lost, steps[0]), steps[1..]);
    }
  }

  /** A record is lost by a run exactly when some step of it loses that record's own protection. */
  ghost predicate LosesOwn(s: System, steps: seq<Step>, id: Id)
    requires Coherent(s.pending)
    decreases |steps|
  {
    steps != [] &&
    (NextCoherent(s, steps[0]);
     (LosesAt(s, steps[0]) && s.pending.command.id == id) || LosesOwn(Next(s, steps[0]), steps[1..], id))
  }

  lemma {:induction false} LostExactly(s: System, lost: set<Id>, steps: seq<Step>, id: Id)
    requires Coherent(s.pending)
    ensures id in LostIn(s, lost, steps) <==> id in lost || LosesOwn(s, steps, id)
    decreases |steps|
  {
    if steps != [] {
      NextCoherent(s, steps[0]);
      LostExactly(Next(s, steps[0]), LostAfter(s, lost, steps[0]), steps[1..], id);
    }
  }
}
