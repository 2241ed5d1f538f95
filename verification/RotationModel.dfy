/**
  Secret rotation as a machine of atomic steps.

  A rotation command is a chain of separately locked KV calls; `Pending` is its program counter
  with its local variables, and `Advance` runs it to the end of its next critical section. Between
  two critical sections any data-plane step may run. The catalog itself is borrowed mutably by the
  command, so no second rotation command starts before the first has finished.
 */
module RotationModel {
  import opened Prelude
  import opened Text
  import opened Endpoints
  import A = Adoption
  import P = AdoptionProofs
  import Kv = KvModel

  const MAX_IDS := 10_000
  const MAX_RESOURCE := 1024
  const MAX_HISTORY := 32

  datatype Lifecycle = Prepared | Cutover | Completed | Cancelled | Superseded

  predicate Open(state: Lifecycle) { state == Prepared || state == Cutover }

  datatype Transition = Transition(state: Lifecycle, effective: u64, version: u64)

  datatype Record = Record(
    id: Id,
    resource: Bytes,
    state: Lifecycle,
    snapshot: A.Snapshot,
    protectedVersion: u64,
    expectedCas: u64,
    targetVersion: Option<u64>,
    actor: Id,
    preparedAt: u64,
    cutoverAt: Option<u64>,
    history: seq<Transition>)

  /** A sealed row; what the source shows of it is the same pair. */
  datatype Row = Row(record: Record, generation: u64)

  datatype RotationError =
    | Denied | Invalid | Conflict(state: Lifecycle) | NotFound | StaleGeneration | CasConflict
    | ProtectedVersionUnavailable | Integrity | Limit

  /** Who asks, under which request, and what the management catalog will answer. */
  datatype Caller = Caller(identity: Id, request: Id, allowed: bool, unrecorded: Option<RotationError>)

  datatype Command =
    | Begin(caller: Caller, id: Id, resource: Bytes, snapshot: A.Snapshot, effective: u64)
    | Refresh(caller: Caller, id: Id, generation: u64, snapshot: A.Snapshot, effective: u64)
    | CutOver(caller: Caller, id: Id, generation: u64, replacement: Kv.Secret, effective: u64)
    | Cancel(caller: Caller, id: Id, generation: u64, effective: u64, reason: Bytes)
    | Rollback(caller: Caller, id: Id, generation: u64, effective: u64, reason: Bytes)
    | Supersede(id: Id, generation: u64, effective: u64)
    | Complete(caller: Caller, id: Id, generation: u64, current: u64, members: seq<A.Member>,
               acknowledge: bool, reasonBlank: bool, effective: u64)

  datatype CommandClass = CreateClass | UpdateClass | LifecycleClass

  datatype Pc =
    | AtSnapshot
    | AtProtect(live: u64)
    | AtCopy(live: u64)
    | AtWrite(expected: u64, encoded: Kv.Content)
    | AtRelease(version: u64)
    | AtInstall(version: u64)

  /** `current` is the row read when the command started; `Begin` has none. */
  datatype Pending =
    | Idle
    | Running(command: Command, endpoint: Endpoint, current: Option<Row>, pc: Pc)

  datatype Reply =
    | Viewed(row: Row)
    | ClosedOut(id: Id, acknowledged: bool, warned: bool)
    | Failed(error: RotationError)

  datatype System = System(
    kv: Kv.Catalog,
    rows: map<Id, Row>,
    completed: set<(Id, CommandClass, Id)>,
    pending: Pending,
    reply: Option<Reply>)

  // ---------------------------------------------------------------- checks

  /** `mount/segment/…` with every part nonempty. */
  function EndpointFor(resource: Bytes): Option<Endpoint> {
    var parts := Split(resource, SLASH);
    var segments := parts[1..];
    if parts[0] == [] || segments == [] || [] in segments then None
    else Some(Endpoint(Data, Resource(parts[0], segments), None))
  }

  predicate SnapshotOk(s: A.Snapshot) {
    |s.consumers| <= MAX_IDS && |s.identities| <= MAX_IDS && |s.instances| <= MAX_IDS
  }

  /** Whether sealing accepts the record: `validate` and the bounds of its encoding. */
  predicate Sealable(r: Record) {
    && r.id != 0
    && r.actor != 0
    && EndpointFor(r.resource).Some?
    && r.protectedVersion != 0
    && r.expectedCas != 0
    && r.preparedAt != 0
    && 1 <= |r.history| <= MAX_HISTORY
    && r.history[|r.history| - 1].state == r.state
    && (r.targetVersion.Some? <==> r.cutoverAt.Some?)
    && (r.state == Prepared || r.state == Cancelled ==> r.targetVersion.None?)
    && |r.resource| <= MAX_RESOURCE
    && SnapshotOk(r.snapshot)
  }

  function MapKv(error: Kv.KvError): RotationError {
    match error
    case CasConflict => CasConflict
    case NotFound => ProtectedVersionUnavailable
    case VersionUnavailable(_, _, _) => ProtectedVersionUnavailable
    case Internal => Integrity
    case _ => Invalid
  }

  function ClassOf(c: Command): CommandClass {
    match c
    case Begin(_, _, _, _, _) => CreateClass
    case Refresh(_, _, _, _, _) => UpdateClass
    case _ => LifecycleClass
  }

  function RequiredState(c: Command): Lifecycle {
    if c.Refresh? || c.CutOver? || c.Cancel? then Prepared else Cutover
  }

  predicate HasBadReason(c: Command) {
    (c.Cancel? || c.Rollback?) && (c.reason == [] || |c.reason| > 1024 || HasControl(c.reason))
  }

  predicate Replayed(completed: set<(Id, CommandClass, Id)>, c: Command) {
    !c.Supersede? && (c.caller.request, ClassOf(c), c.id) in completed
  }

  /** Checks on the command and the row it names, before any KV call. */
  function RowRefusal(rows: map<Id, Row>, c: Command): Option<RotationError>
    requires !c.Begin?
  {
    if c.effective == 0 || HasBadReason(c) then Some(Invalid)
    else if c.Refresh? && !SnapshotOk(c.snapshot) then Some(Limit)
    else if c.id !in rows then Some(NotFound)
    else
      var row := rows[c.id];
      if row.generation != c.generation then Some(StaleGeneration)
      else if row.record.state != RequiredState(c) then Some(Conflict(row.record.state))
      else if |row.record.history| >= MAX_HISTORY then Some(Limit)
      else if c.Complete? then CloseoutRefusal(row, c)
      else if c.generation == U64_MAX then Some(Limit)
      else None
  }

  function CloseoutRefusal(row: Row, c: Command): Option<RotationError>
    requires c.Complete?
  {
    if row.record.targetVersion.None? then Some(Invalid)
    else if c.current != row.record.targetVersion.value then Some(Conflict(row.record.state))
    else if !P.Unblocked(c.members) && (!c.acknowledge || c.reasonBlank) then Some(Invalid)
    else if c.generation == U64_MAX then Some(Limit)
    else None
  }

  predicate HasOpen(rows: map<Id, Row>, resource: Bytes) {
    exists id :: id in rows && rows[id].record.resource == resource && Open(rows[id].record.state)
  }

  function OpenStateFor(rows: map<Id, Row>, resource: Bytes): (state: Lifecycle)
    requires HasOpen(rows, resource)
    ensures Open(state)
  {
    var ids := set id | id in rows && rows[id].record.resource == resource && Open(rows[id].record.state);
    assert ids != {} by {
      var id :| id in rows && rows[id].record.resource == resource && Open(rows[id].record.state);
      assert id in ids;
    }
    rows[Least(ids)].record.state
  }

  function BeginRefusal(rows: map<Id, Row>, c: Command): Option<RotationError>
    requires c.Begin?
  {
    if c.id == 0 || c.effective == 0 || c.id in rows then Some(Invalid)
    else if HasOpen(rows, c.resource) then Some(Conflict(OpenStateFor(rows, c.resource)))
    else if !SnapshotOk(c.snapshot) then Some(Limit)
    else if EndpointFor(c.resource).None? then Some(Invalid)
    else None
  }

  function FirstPc(c: Command, current: Option<Row>): Pc
    requires !c.Begin? ==> current.Some?
    requires c.Complete? ==> current.value.record.targetVersion.Some?
  {
    match c
    case Begin(_, _, _, _, _) => AtSnapshot
    case Refresh(_, _, _, _, _) => AtSnapshot
    case CutOver(_, _, _, replacement, _) => AtWrite(current.value.record.expectedCas, replacement.encoded)
    case Cancel(_, _, _, _, _) => AtRelease(current.value.record.expectedCas)
    case Rollback(_, _, _, _, _) => AtSnapshot
    case Supersede(_, _, _) => AtSnapshot
    case Complete(_, _, _, _, _, _, _, _) => AtInstall(current.value.record.targetVersion.value)
  }

  function Finish(s: System, reply: Reply): System {
    s.(pending := Idle, reply := Some(reply))
  }

  /** What a replayed request is told. */
  function ReplayReply(s: System, c: Command): Reply
    requires Replayed(s.completed, c)
  {
    if c.Complete? then ClosedOut(c.id, c.acknowledge, false)
    else if c.id in s.rows then Viewed(s.rows[c.id])
    else Failed(NotFound)
  }

  /** Up to the first KV call. */
  function Start(s: System, c: Command): System {
    if !s.pending.Idle? then s
    else if !c.Supersede? && !c.caller.allowed then Finish(s, Failed(Denied))
    else if Replayed(s.completed, c) then Finish(s, ReplayReply(s, c))
    else
      var refusal := if c.Begin? then BeginRefusal(s.rows, c) else RowRefusal(s.rows, c);
      if refusal.Some? then Finish(s, Failed(refusal.value))
      else
        var current := if c.Begin? then None else Some(s.rows[c.id]);
        var resource := if c.Begin? then c.resource else s.rows[c.id].record.resource;
        var endpoint := EndpointFor(resource);
        if endpoint.None? then Finish(s, Failed(Invalid))
        else s.(pending := Running(c, endpoint.value, current, FirstPc(c, current)), reply := None)
  }

  // ---------------------------------------------------------------- the record to install

  function Pushed(r: Record, state: Lifecycle, effective: u64, version: u64): Record {
    r.(state := state, history := r.history + [Transition(state, effective, version)])
  }

  function Replacement(c: Command, current: Option<Row>, version: u64): Record
    requires c.Begin? <==> current.None?
  {
    match c
    case Begin(caller, id, resource, snapshot, effective) =>
      Record(id, resource, Prepared, snapshot, version, version, None, caller.identity, effective, None,
             [Transition(Prepared, effective, version)])
    case Refresh(_, _, _, snapshot, effective) =>
      Pushed(current.value.record, Prepared, effective, version)
        .(snapshot := snapshot, protectedVersion := version, expectedCas := version, preparedAt := effective)
    case CutOver(_, _, _, _, effective) =>
      Pushed(current.value.record, Cutover, effective, version)
        .(targetVersion := Some(version), cutoverAt := Some(effective))
    case Cancel(_, _, _, effective, _) => Pushed(current.value.record, Cancelled, effective, version)
    case Rollback(_, _, _, effective, _) => Pushed(current.value.record, Superseded, effective, version)
    case Supersede(_, _, effective) => Pushed(current.value.record, Superseded, effective, version)
    case Complete(_, _, _, _, _, _, _, effective) =>
      Pushed(current.value.record, Completed, effective, version)
  }

  function FinalReply(c: Command, row: Row): Reply {
    if !c.Supersede? && c.caller.unrecorded.Some? then Failed(c.caller.unrecorded.value)
    else if c.Complete? then ClosedOut(c.id, c.acknowledge, c.acknowledge)
    else Viewed(row)
  }

  function Install(s: System, c: Command, current: Option<Row>, version: u64): System
    requires c.Begin? <==> current.None?
  {
    var record := Replacement(c, current, version);
    var generation := if c.Begin? then 1 else Min(c.generation + 1, U64_MAX);
    if !Sealable(record) then Finish(s, Failed(Invalid))
    else
      var row := Row(record, generation);
      Finish(s.(rows := s.rows[record.id := row],
                completed := if c.Supersede? then s.completed
                             else s.completed + {(c.caller.request, ClassOf(c), c.id)}),
             FinalReply(c, row))
  }

  // ---------------------------------------------------------------- critical sections

  function Goto(s: System, pc: Pc): System
    requires s.pending.Running?
  {
    s.(pending := s.pending.(pc := pc))
  }

  function AfterSnapshot(s: System, live: u64): System
    requires s.pending.Running? && !s.pending.command.Begin? ==> s.pending.current.Some?
    requires s.pending.Running?
  {
    var c := s.pending.command;
    if c.Rollback? then Goto(s, AtCopy(live))
    else if c.Supersede? then
      var target := s.pending.current.value.record.targetVersion;
      if live <= (if target.Some? then target.value else 0) then Finish(s, Failed(CasConflict))
      else Goto(s, AtRelease(live))
    else Goto(s, AtProtect(live))
  }

  /** The local variables are as the source binds them. */
  predicate Coherent(p: Pending) {
    p.Running? ==> (p.command.Begin? <==> p.current.None?)
  }

  function AtWriteStep(s: System): System
    requires s.pending.Running? && s.pending.pc.AtWrite? && s.pending.current.Some?
  {
    var Running(c, endpoint, current, pc) := s.pending;
    var (kv, r) :=
      if c.CutOver? then
        Kv.RotationCutover(s.kv, c.caller.identity, endpoint, c.replacement, pc.expected)
      else
        Kv.RotationWrite(s.kv, if c.Supersede? then 0 else c.caller.identity, endpoint, pc.encoded,
                         pc.expected, Kv.RotationRollbackOp);
    if r.Err? then Finish(s.(kv := kv), Failed(MapKv(r.error)))
    else Goto(s.(kv := kv), if c.CutOver? then AtInstall(r.value.version) else AtRelease(r.value.version))
  }

  /** The rest of the command up to the end of its next critical section. */
  function Advance(s: System): System
    requires Coherent(s.pending)
  {
    match s.pending
    case Idle => s
    case Running(c, endpoint, current, pc) =>
      match pc
      case AtSnapshot =>
        var r := Kv.RotationSnapshot(s.kv, endpoint);
        if r.Err? then Finish(s, Failed(MapKv(r.error))) else AfterSnapshot(s, r.value.current)
      case AtProtect(live) =>
        var (kv, r) := Kv.Protect(s.kv, endpoint, live);
        if r.Err? then Finish(s.(kv := kv), Failed(MapKv(r.error))) else Goto(s.(kv := kv), AtInstall(live))
      case AtCopy(live) =>
        if current.None? then s
        else
          var r := Kv.CopyProtected(s.kv, endpoint, live, current.value.record.protectedVersion);
          if r.Err? || r.value == [] then Finish(s, Failed(if r.Err? then MapKv(r.error) else Invalid))
          else Goto(s, AtWrite(live, r.value))
      case AtWrite(_, _) =>
        if current.None? then s else AtWriteStep(s)
      case AtRelease(version) =>
        if current.None? then s
        else
          var (kv, r) := Kv.Release(s.kv, endpoint, current.value.record.protectedVersion);
          if r.Err? then Finish(s.(kv := kv), Failed(MapKv(r.error)))
          else Goto(s.(kv := kv), AtInstall(version))
      case AtInstall(version) => Install(s, c, current, version)
  }

  // ---------------------------------------------------------------- runs

  datatype Step = Elsewhere(step: Kv.DataStep) | Issue(command: Command) | Continue

  function Next(s: System, step: Step): System
    requires Coherent(s.pending)
  {
    match step
    case Elsewhere(d) => s.(kv := Kv.Apply(s.kv, d).0)
    case Issue(c) => Start(s, c)
    case Continue => Advance(s)
  }

  lemma NextCoherent(s: System, step: Step)
    requires Coherent(s.pending)
    ensures Coherent(Next(s, step).pending)
  {
  }

  function Run(s: System, steps: seq<Step>): (t: System)
    requires Coherent(s.pending)
    ensures Coherent(t.pending)
    decreases |steps|
  {
    if steps == [] then s
    else
      NextCoherent(s, steps[0]);
      Run(Next(s, steps[0]), steps[1..])
  }

  /** Data-plane steps alone, at one lock boundary. */
  function Interleave(s: System, others: seq<Kv.DataStep>): (t: System)
    ensures t == s.(kv := t.kv)
    decreases |others|
  {
    if others == [] then s
    else Interleave(s.(kv := Kv.Apply(s.kv, others[0]).0), others[1..])
  }

  /** Sections a command still has in front of it. */
  function Remaining(p: Pending): nat {
    match p
    case Idle => 0
    case Running(_, _, _, pc) =>
      match pc
      case AtSnapshot => 6
      case AtProtect(_) => 5
      case AtCopy(_) => 4
      case AtWrite(_, _) => 3
      case AtRelease(_) => 2
      case AtInstall(_) => 1
  }

  /** The locals are bound and the program counter is one the command reaches. */
  predicate OnTrack(p: Pending) {
    Coherent(p) && (p.Running? && p.command.Begin? ==> p.pc.AtSnapshot? || p.pc.AtProtect? || p.pc.AtInstall?)
  }

  function Head(others: seq<seq<Kv.DataStep>>): seq<Kv.DataStep> {
    if others == [] then [] else others[0]
  }

  function Rest(others: seq<seq<Kv.DataStep>>): seq<seq<Kv.DataStep>> {
    if others == [] then [] else others[1..]
  }

  /** A started command to its end, with `others[k]` running in front of its k-th section. */
  function Drive(s: System, others: seq<seq<Kv.DataStep>>): System
    requires OnTrack(s.pending)
    decreases Remaining(s.pending)
  {
    if s.pending.Idle? then s
    else
      var t := Advance(Interleave(s, Head(others)));
      Drive(t, Rest(others))
  }

  function InitialSystem(casRequired: bool, now: u64): System {
    System(Kv.NewCatalog(casRequired, now), map[], {}, Idle, None)
  }
}
