/**
  `RotationCatalog` as the object it is. Every command takes the KV store it calls and, for each
  lock boundary it crosses, the data-plane calls that run there.
 */
module RotationStore {
  import opened Prelude
  import opened Text
  import opened Endpoints
  import opened RotationModel
  import A = Adoption
  import P = AdoptionProofs
  import Kv = KvModel
  import KvStore

  // ---------------------------------------------------------------- the machine, unfolded

  lemma {:induction false} InterleaveRuns(s: System, others: seq<Kv.DataStep>)
    ensures Interleave(s, others) == s.(kv := Kv.Run(s.kv, others))
    decreases |others|
  {
    if others != [] { InterleaveRuns(s.(kv := Kv.Apply(s.kv, others[0]).0), others[1..]); }
  }

  lemma SnapshotAdvance(s: System)
    requires OnTrack(s.pending) && s.pending.Running? && s.pending.pc.AtSnapshot?
    ensures var r := Kv.RotationSnapshot(s.kv, s.pending.endpoint);
      Advance(s) == if r.Err? then Finish(s, Failed(MapKv(r.error))) else AfterSnapshot(s, r.value.current)
  {
  }

  lemma ProtectAdvance(s: System)
    requires OnTrack(s.pending) && s.pending.Running? && s.pending.pc.AtProtect?
    ensures var (kv, r) := Kv.Protect(s.kv, s.pending.endpoint, s.pending.pc.live);
      Advance(s) == if r.Err? then Finish(s.(kv := kv), Failed(MapKv(r.error)))
                    else Goto(s.(kv := kv), AtInstall(s.pending.pc.live))
  {
  }

  lemma CopyAdvance(s: System)
    requires OnTrack(s.pending) && s.pending.Running? && s.pending.pc.AtCopy?
    ensures var r := Kv.CopyProtected(s.kv, s.pending.endpoint, s.pending.pc.live,
                                      s.pending.current.value.record.protectedVersion);
      Advance(s) == if r.Err? then Finish(s, Failed(MapKv(r.error)))
                    else if r.value == [] then Finish(s, Failed(Invalid))
                    else Goto(s, AtWrite(s.pending.pc.live, r.value))
  {
  }

  lemma WriteAdvance(s: System)
    requires OnTrack(s.pending) && s.pending.Running? && s.pending.pc.AtWrite?
    ensures s.pending.current.Some? && Advance(s) == AtWriteStep(s)
  {
  }

  lemma ReleaseAdvance(s: System)
    requires OnTrack(s.pending) && s.pending.Running? && s.pending.pc.AtRelease?
    ensures var (kv, r) := Kv.Release(s.kv, s.pending.endpoint, s.pending.current.value.record.protectedVersion);
      Advance(s) == if r.Err? then Finish(s.(kv := kv), Failed(MapKv(r.error)))
                    else Goto(s.(kv := kv), AtInstall(s.pending.pc.version))
  {
  }

  lemma InstallAdvance(s: System)
    requires OnTrack(s.pending) && s.pending.Running? && s.pending.pc.AtInstall?
    ensures Advance(s) == Install(s, s.pending.command, s.pending.current, s.pending.pc.version)
  {
  }

  /** One section of a driven command, when it leaves the machine in `t`. */
  lemma DriveOnce(s: System, others: seq<seq<Kv.DataStep>>, kv: Kv.Catalog, t: System)
    requires OnTrack(s.pending) && s.pending.Running?
    requires kv == Kv.Run(s.kv, Head(others)) && t == Advance(s.(kv := kv))
    ensures OnTrack(t.pending) && Drive(s, others) == Drive(t, Rest(others))
  {
    InterleaveRuns(s, Head(others));
  }

  // ---------------------------------------------------------------- the object

  class RotationCatalog {
    var rows: map<Id, Row>
    var completed: set<(Id, CommandClass, Id)>

    constructor ()
      ensures rows == map[] && completed == {}
    {
      rows := map[];
      completed := {};
    }

    /** The two objects together, with the program counter and answer of the command in flight. */
    ghost function System(kv: KvStore.KvCatalog, pending: Pending, reply: Option<Reply>): System
      reads this, kv
    {
      RotationModel.System(kv.Model(), rows, completed, pending, reply)
    }

    /** What the whole command must leave behind. */
    ghost function Outcome(kv: KvStore.KvCatalog, c: Command, others: seq<seq<Kv.DataStep>>): System
      reads this, kv
    {
      Drive(Start(System(kv, Idle, None), c), others)
    }

    method Show(id: Id) returns (reply: Reply)
      ensures reply == if id in rows then Viewed(rows[id]) else Failed(NotFound)
    {
      if id !in rows { return Failed(NotFound); }
      return Viewed(rows[id]);
    }

    /** Sealing, storing, remembering the request, and the answer. */
    method InstallRecord(c: Command, record: Record, generation: u64) returns (reply: Reply)
      modifies this
      ensures if Sealable(record)
        then && rows == old(rows)[record.id := Row(record, generation)]
             && completed == (if c.Supersede? then old(completed)
                              else old(completed) + {(c.caller.request, ClassOf(c), c.id)})
             && reply == FinalReply(c, Row(record, generation))
        else rows == old(rows) && completed == old(completed) && reply == Failed(Invalid)
    {
      if !Sealable(record) { return Failed(Invalid); }
      rows := rows[record.id := Row(record, generation)];
      if !c.Supersede? {
        completed := completed + {(c.caller.request, ClassOf(c), c.id)};
        if c.caller.unrecorded.Some? { return Failed(c.caller.unrecorded.value); }
      }
      if c.Complete? { return ClosedOut(c.id, c.acknowledge, c.acknowledge); }
      return Viewed(Row(record, generation));
    }

    /** Generation first, then state, then room for one more transition. */
    method RequireRow(c: Command) returns (refusal: Option<RotationError>)
      requires !c.Begin? && !c.Complete? && c.effective != 0 && !HasBadReason(c)
      requires c.Refresh? ==> SnapshotOk(c.snapshot)
      ensures refusal == RowRefusal(rows, c)
    {
      if c.id !in rows { return Some(NotFound); }
      var row := rows[c.id];
      if row.generation != c.generation { return Some(StaleGeneration); }
      if row.record.state != RequiredState(c) { return Some(Conflict(row.record.state)); }
      if |row.record.history| >= MAX_HISTORY { return Some(Limit); }
      if c.generation == U64_MAX { return Some(Limit); }
      return None;
    }

    /** Authorization, replay and the checks on the row: the common opening of a row command. */
    method Open(c: Command) returns (stop: Option<Reply>, endpoint: Endpoint)
      requires !c.Begin? && !c.Complete?
      ensures stop.None? ==> c.id in rows && c.generation == rows[c.id].generation < U64_MAX
      ensures forall kv: Kv.Catalog ::
        Start(RotationModel.System(kv, rows, completed, Idle, None), c) ==
          if stop.Some? then RotationModel.System(kv, rows, completed, Idle, stop)
          else RotationModel.System(kv, rows, completed,
                                    Running(c, endpoint, Some(rows[c.id]), FirstPc(c, Some(rows[c.id]))), None)
    {
      endpoint := Endpoint(Data, Resource([], []), None);
      if !c.Supersede? {
        if !c.caller.allowed { return Some(Failed(Denied)), endpoint; }
        if (c.caller.request, ClassOf(c), c.id) in completed {
          var shown := Show(c.id);
          return Some(shown), endpoint;
        }
      }
      if c.effective == 0 { return Some(Failed(Invalid)), endpoint; }
      if HasBadReason(c) { return Some(Failed(Invalid)), endpoint; }
      if c.Refresh? && !SnapshotOk(c.snapshot) { return Some(Failed(Limit)), endpoint; }
      var refusal := RequireRow(c);
      if refusal.Some? { return Some(Failed(refusal.value)), endpoint; }
      var found := EndpointFor(rows[c.id].record.resource);
      if found.None? { return Some(Failed(Invalid)), endpoint; }
      return None, found.value;
    }

    /** The end of every command: seal and store the record built for it. */
    method InstallSection(c: Command, endpoint: Endpoint, current: Option<Row>, version: u64, record: Record,
                          kv: KvStore.KvCatalog, others: seq<seq<Kv.DataStep>>)
      returns (reply: Reply)
      requires (c.Begin? <==> current.None?) && record == Replacement(c, current, version)
      requires !c.Begin? ==> c.generation < U64_MAX
      modifies this, kv
      ensures System(kv, Idle, Some(reply))
        == old(Drive(System(kv, Running(c, endpoint, current, AtInstall(version)), None), others))
    {
      ghost var s := System(kv, Running(c, endpoint, current, AtInstall(version)), None);
      kv.Meanwhile(Head(others));
      ghost var at := s.(kv := kv.Model());
      InstallAdvance(at);
      DriveOnce(s, others, kv.Model(), Advance(at));
      reply := InstallRecord(c, record, if c.Begin? then 1 else c.generation + 1);
    }

    /** Cancel, rollback and supersede end by lifting the protection. */
    method ReleaseSection(c: Command, endpoint: Endpoint, current: Row, version: u64,
                          kv: KvStore.KvCatalog, others: seq<seq<Kv.DataStep>>)
      returns (reply: Reply)
      requires c.Cancel? || c.Rollback? || c.Supersede?
      requires c.generation < U64_MAX
      modifies this, kv
      ensures System(kv, Idle, Some(reply))
        == old(Drive(System(kv, Running(c, endpoint, Some(current), AtRelease(version)), None), others))
    {
      ghost var s := System(kv, Running(c, endpoint, Some(current), AtRelease(version)), None);
      kv.Meanwhile(Head(others));
      ghost var at := s.(kv := kv.Model());
      ReleaseAdvance(at);
      DriveOnce(s, others, kv.Model(), Advance(at));
      var released := kv.SetProtection(endpoint, current.record.protectedVersion, false);
      if released.Err? { return Failed(MapKv(released.error)); }
      var state := if c.Cancel? then Cancelled else Superseded;
      var record := current.record.(
        state := state,
        history := current.record.history + [Transition(state, c.effective, version)]);
      reply := InstallSection(c, endpoint, Some(current), version, record, kv, Rest(others));
    }

    /** Begin and refresh end by protecting the live version. */
    method ProtectSection(c: Command, endpoint: Endpoint, current: Option<Row>, live: u64,
                          kv: KvStore.KvCatalog, others: seq<seq<Kv.DataStep>>)
      returns (reply: Reply)
      requires c.Begin? || c.Refresh?
      requires (c.Begin? <==> current.None?) && (c.Refresh? ==> c.generation < U64_MAX)
      modifies this, kv
      ensures System(kv, Idle, Some(reply))
        == old(Drive(System(kv, Running(c, endpoint, current, AtProtect(live)), None), others))
    {
      ghost var s := System(kv, Running(c, endpoint, current, AtProtect(live)), None);
      kv.Meanwhile(Head(others));
      ghost var at := s.(kv := kv.Model());
      ProtectAdvance(at);
      DriveOnce(s, others, kv.Model(), Advance(at));
      var protected := kv.SetProtection(endpoint, live, true);
      if protected.Err? { return Failed(MapKv(protected.error)); }
      var record;
      if c.Begin? {
        record := Record(c.id, c.resource, Prepared, c.snapshot, live, live, None, c.caller.identity,
                         c.effective, None, [Transition(Prepared, c.effective, live)]);
      } else {
        record := current.value.record.(
          state := Prepared,
          snapshot := c.snapshot,
          protectedVersion := live,
          expectedCas := live,
          preparedAt := c.effective,
          history := current.value.record.history + [Transition(Prepared, c.effective, live)]);
      }
      reply := InstallSection(c, endpoint, current, live, record, kv, Rest(others));
    }

    method Begin(caller: Caller, id: Id, resource: Bytes, snapshot: A.Snapshot, effective: u64,
                 kv: KvStore.KvCatalog, others: seq<seq<Kv.DataStep>>)
      returns (reply: Reply)
      modifies this, kv
      ensures System(kv, Idle, Some(reply))
        == old(Outcome(kv, RotationModel.Begin(caller, id, resource, snapshot, effective), others))
    {
      var c := RotationModel.Begin(caller, id, resource, snapshot, effective);
      if !caller.allowed { return Failed(Denied); }
      if (caller.request, CreateClass, id) in completed {
        reply := Show(id);
        return;
      }
      if id == 0 || effective == 0 || id in rows { return Failed(Invalid); }
      if HasOpen(rows, resource) { return Failed(Conflict(OpenStateFor(rows, resource))); }
      if !SnapshotOk(snapshot) { return Failed(Limit); }
      var endpoint := EndpointFor(resource);
      if endpoint.None? { return Failed(Invalid); }
      reply := SnapshotSection(c, endpoint.value, None, kv, others);
    }

    method Refresh(caller: Caller, id: Id, generation: u64, snapshot: A.Snapshot, effective: u64,
                   kv: KvStore.KvCatalog, others: seq<seq<Kv.DataStep>>)
      returns (reply: Reply)
      modifies this, kv
      ensures System(kv, Idle, Some(reply))
        == old(Outcome(kv, RotationModel.Refresh(caller, id, generation, snapshot, effective), others))
    {
      var c := RotationModel.Refresh(caller, id, generation, snapshot, effective);
      var stop, endpoint := Open(c);
      if stop.Some? { return stop.value; }
      reply := SnapshotSection(c, endpoint, Some(rows[id]), kv, others);
    }

    /** Reading the live version, and where each command goes from there. */
    method SnapshotSection(c: Command, endpoint: Endpoint, current: Option<Row>,
                           kv: KvStore.KvCatalog, others: seq<seq<Kv.DataStep>>)
      returns (reply: Reply)
      requires c.Begin? || c.Refresh? || c.Rollback? || c.Supersede?
      requires (c.Begin? <==> current.None?) && (!c.Begin? ==> c.generation < U64_MAX)
      modifies this, kv
      ensures System(kv, Idle, Some(reply))
        == old(Drive(System(kv, Running(c, endpoint, current, AtSnapshot), None), others))
    {
      ghost var s := System(kv, Running(c, endpoint, current, AtSnapshot), None);
      kv.Meanwhile(Head(others));
      ghost var at := s.(kv := kv.Model());
      SnapshotAdvance(at);
      DriveOnce(s, others, kv.Model(), Advance(at));
      var live := kv.RotationSnapshot(endpoint);
      if live.Err? { return Failed(MapKv(live.error)); }
      if c.Rollback? {
        reply := CopySection(c, endpoint, current.value, live.value.current, kv, Rest(others));
      } else if c.Supersede? {
        var target := current.value.record.targetVersion;
        if live.value.current <= (if target.Some? then target.value else 0) { return Failed(CasConflict); }
        reply := ReleaseSection(c, endpoint, current.value, live.value.current, kv, Rest(others));
      } else {
        reply := ProtectSection(c, endpoint, current, live.value.current, kv, Rest(others));
      }
    }

    /** The first lock of the copy-forward: the protected bytes. */
    method CopySection(c: Command, endpoint: Endpoint, current: Row, live: u64,
                       kv: KvStore.KvCatalog, others: seq<seq<Kv.DataStep>>)
      returns (reply: Reply)
      requires c.Rollback? && c.generation < U64_MAX
      modifies this, kv
      ensures System(kv, Idle, Some(reply))
        == old(Drive(System(kv, Running(c, endpoint, Some(current), AtCopy(live)), None), others))
    {
      ghost var s := System(kv, Running(c, endpoint, Some(current), AtCopy(live)), None);
      kv.Meanwhile(Head(others));
      ghost var at := s.(kv := kv.Model());
      CopyAdvance(at);
      DriveOnce(s, others, kv.Model(), Advance(at));
      var copied := kv.CopyProtected(endpoint, live, current.record.protectedVersion);
      if copied.Err? { return Failed(MapKv(copied.error)); }
      if copied.value == [] { return Failed(Invalid); }
      reply := WriteSection(c, endpoint, current, live, copied.value, kv, Rest(others));
    }

    /** The second lock: the bytes become the next version. */
    method WriteSection(c: Command, endpoint: Endpoint, current: Row, live: u64, encoded: Kv.Content,
                        kv: KvStore.KvCatalog, others: seq<seq<Kv.DataStep>>)
      returns (reply: Reply)
      requires c.Rollback? && c.generation < U64_MAX
      modifies this, kv
      ensures System(kv, Idle, Some(reply))
        == old(Drive(System(kv, Running(c, endpoint, Some(current), AtWrite(live, encoded)), None), others))
    {
      ghost var s := System(kv, Running(c, endpoint, Some(current), AtWrite(live, encoded)), None);
      kv.Meanwhile(Head(others));
      ghost var at := s.(kv := kv.Model());
      WriteAdvance(at);
      DriveOnce(s, others, kv.Model(), Advance(at));
      var written := kv.RotationWrite(c.caller.identity, endpoint, encoded, live, Kv.RotationRollbackOp);
      if written.Err? { return Failed(MapKv(written.error)); }
      reply := ReleaseSection(c, endpoint, current, written.value.version, kv, Rest(others));
    }

    method CutOver(caller: Caller, id: Id, generation: u64, replacement: Kv.Secret, effective: u64,
                   kv: KvStore.KvCatalog, others: seq<seq<Kv.DataStep>>)
      returns (reply: Reply)
      modifies this, kv
      ensures System(kv, Idle, Some(reply))
        == old(Outcome(kv, RotationModel.CutOver(caller, id, generation, replacement, effective), others))
    {
      var c := RotationModel.CutOver(caller, id, generation, replacement, effective);
      var stop, endpoint := Open(c);
      if stop.Some? { return stop.value; }
      reply := CutoverSection(c, endpoint, rows[id], kv, others);
    }

    method CutoverSection(c: Command, endpoint: Endpoint, current: Row,
                          kv: KvStore.KvCatalog, others: seq<seq<Kv.DataStep>>)
      returns (reply: Reply)
      requires c.CutOver? && c.generation < U64_MAX
      modifies this, kv
      ensures System(kv, Idle, Some(reply))
        == old(Drive(System(kv, Running(c, endpoint, Some(current), FirstPc(c, Some(current))), None), others))
    {
      ghost var s := System(kv, Running(c, endpoint, Some(current), FirstPc(c, Some(current))), None);
      kv.Meanwhile(Head(others));
      ghost var at := s.(kv := kv.Model());
      WriteAdvance(at);
      DriveOnce(s, others, kv.Model(), Advance(at));
      var written := kv.RotationCutover(c.caller.identity, endpoint, c.replacement, current.record.expectedCas);
      if written.Err? { return Failed(MapKv(written.error)); }
      var version := written.value.version;
      var record := current.record.(
        state := Cutover,
        targetVersion := Some(version),
        cutoverAt := Some(c.effective),
        history := current.record.history + [Transition(Cutover, c.effective, version)]);
      reply := InstallSection(c, endpoint, Some(current), version, record, kv, Rest(others));
    }

    method Cancel(caller: Caller, id: Id, generation: u64, effective: u64, reason: Bytes,
                  kv: KvStore.KvCatalog, others: seq<seq<Kv.DataStep>>)
      returns (reply: Reply)
      modifies this, kv
      ensures System(kv, Idle, Some(reply))
        == old(Outcome(kv, RotationModel.Cancel(caller, id, generation, effective, reason), others))
    {
      var c := RotationModel.Cancel(caller, id, generation, effective, reason);
      var stop, endpoint := Open(c);
      if stop.Some? { return stop.value; }
      reply := ReleaseSection(c, endpoint, rows[id], rows[id].record.expectedCas, kv, others);
    }

    method Rollback(caller: Caller, id: Id, generation: u64, effective: u64, reason: Bytes,
                    kv: KvStore.KvCatalog, others: seq<seq<Kv.DataStep>>)
      returns (reply: Reply)
      modifies this, kv
      ensures System(kv, Idle, Some(reply))
        == old(Outcome(kv, RotationModel.Rollback(caller, id, generation, effective, reason), others))
    {
      var c := RotationModel.Rollback(caller, id, generation, effective, reason);
      var stop, endpoint := Open(c);
      if stop.Some? { return stop.value; }
      reply := SnapshotSection(c, endpoint, Some(rows[id]), kv, others);
    }

    method SupersedeAfterPlainWrite(id: Id, generation: u64, effective: u64,
                                    kv: KvStore.KvCatalog, others: seq<seq<Kv.DataStep>>)
      returns (reply: Reply)
      modifies this, kv
      ensures System(kv, Idle, Some(reply))
        == old(Outcome(kv, RotationModel.Supersede(id, generation, effective), others))
    {
      var c := RotationModel.Supersede(id, generation, effective);
      var stop, endpoint := Open(c);
      if stop.Some? { return stop.value; }
      reply := SnapshotSection(c, endpoint, Some(rows[id]), kv, others);
    }

    method Complete(caller: Caller, id: Id, generation: u64, current: u64, members: seq<A.Member>,
                    acknowledge: bool, reasonBlank: bool, effective: u64,
                    kv: KvStore.KvCatalog, others: seq<seq<Kv.DataStep>>)
      returns (reply: Reply)
      modifies this, kv
      ensures System(kv, Idle, Some(reply))
        == old(Outcome(kv, RotationModel.Complete(caller, id, generation, current, members, acknowledge,
                                                  reasonBlank, effective), others))
    {
      var c := RotationModel.Complete(caller, id, generation, current, members, acknowledge, reasonBlank, effective);
      if !caller.allowed { return Failed(Denied); }
      if (caller.request, LifecycleClass, id) in completed { return ClosedOut(id, acknowledge, false); }
      if effective == 0 { return Failed(Invalid); }
      if id !in rows { return Failed(NotFound); }
      var row := rows[id];
      if row.generation != generation { return Failed(StaleGeneration); }
      if row.record.state != Cutover { return Failed(Conflict(row.record.state)); }
      if |row.record.history| >= MAX_HISTORY { return Failed(Limit); }
      if row.record.targetVersion.None? { return Failed(Invalid); }
      var target := row.record.targetVersion.value;
      if current != target { return Failed(Conflict(row.record.state)); }
      if !P.Unblocked(members) && (!acknowledge || reasonBlank) { return Failed(Invalid); }
      if generation == U64_MAX { return Failed(Limit); }
      var endpoint := EndpointFor(row.record.resource);
      if endpoint.None? { return Failed(Invalid); }
      var record := row.record.(
        state := Completed,
        history := row.record.history + [Transition(Completed, effective, target)]);
      reply := InstallSection(c, endpoint.value, Some(row), target, record, kv, others);
    }
  }
}
