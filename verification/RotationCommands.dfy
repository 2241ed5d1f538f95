/** When rotation commands start, how each of their sections ends, and what their records then say. */
module RotationCommands {
  import opened Prelude
  import opened Text
  import opened Endpoints
  import opened RotationModel
  import opened RotationInvariant
  import opened RotationRecords
  import opened RotationSections
  import opened RotationSteps
  import A = Adoption
  import P = AdoptionProofs
  import Kv = KvModel
  import KA = KvAnswers

  /** A resource names a data endpoint exactly when it is a mount and segments, all nonempty, joined by slashes. */
  lemma EndpointExact(resource: Bytes, endpoint: Endpoint)
    ensures EndpointFor(resource) == Some(endpoint) <==>
      && endpoint.kind == Data && endpoint.version == None
      && var parts := [endpoint.resource.mount] + endpoint.resource.segments;
      && |parts| >= 2 && [] !in parts && FreeOf(parts, SLASH) && resource == Join(parts, SLASH)
  {
    var parts := [endpoint.resource.mount] + endpoint.resource.segments;
    var found := Split(resource, SLASH);
    JoinSplit(resource, SLASH);
    SplitIsFree(resource, SLASH);
    assert found == [found[0]] + found[1..];
    assert parts[1..] == endpoint.resource.segments;
    if FreeOf(parts, SLASH) && resource == Join(parts, SLASH) { SplitJoin(parts, SLASH); }
  }

  // ---------------------------------------------------------------- starting

  predicate Bounded(s: A.Snapshot) {
    |s.consumers| <= 10_000 && |s.identities| <= 10_000 && |s.instances| <= 10_000
  }

  /** The request key of a command: who repeats it is told what became of it. */
  ghost predicate Spent(s: System, c: Command) {
    && !c.Supersede?
    && (|| (c.Begin? && (c.caller.request, CreateClass, c.id) in s.completed)
        || (c.Refresh? && (c.caller.request, UpdateClass, c.id) in s.completed)
        || (!c.Begin? && !c.Refresh? && (c.caller.request, LifecycleClass, c.id) in s.completed))
  }

  ghost predicate BeginFits(s: System, c: Command)
    requires c.Begin?
  {
    && c.id != 0 && c.id !in s.rows && Bounded(c.snapshot) && EndpointFor(c.resource).Some?
    && forall id :: id in s.rows && s.rows[id].record.resource == c.resource ==> !Open(s.rows[id].record.state)
  }

  ghost predicate RowFits(s: System, c: Command)
    requires !c.Begin?
  {
    && c.id in s.rows && s.rows[c.id].generation == c.generation < U64_MAX
    && var r := s.rows[c.id].record;
    && r.state == (if c.Refresh? || c.CutOver? || c.Cancel? then Prepared else Cutover)
    && |r.history| < 32 && EndpointFor(r.resource).Some?
    && (c.Refresh? ==> Bounded(c.snapshot))
    && (c.Cancel? || c.Rollback? ==> 1 <= |c.reason| <= 1024 && !HasControl(c.reason))
    && (c.Complete? ==>
          && r.targetVersion == Some(c.current)
          && ((forall k :: 0 <= k < |c.members| ==>
                 c.members[k].verdict == A.OnCurrent || c.members[k].verdict == A.RetiredWithoutProof)
              || (c.acknowledge && !c.reasonBlank)))
  }

  lemma BeginRefusalMeaning(s: System, c: Command)
    requires c.Begin?
    ensures BeginRefusal(s.rows, c).None? <==> c.effective != 0 && BeginFits(s, c)
  {
  }

  lemma RowRefusalMeaning(s: System, c: Command)
    requires !c.Begin?
    ensures RowRefusal(s.rows, c).None? && EndpointFor(s.rows[c.id].record.resource).Some? <==>
      c.effective != 0 && RowFits(s, c)
  {
    if c.Complete? {
      assert P.Unblocked(c.members) <==>
        forall k :: 0 <= k < |c.members| ==>
          c.members[k].verdict == A.OnCurrent || c.members[k].verdict == A.RetiredWithoutProof;
    }
  }

  /** A command gets past its own checks exactly when it is allowed, new, dated, and fits the rows. */
  lemma StartsExactly(s: System, c: Command)
    requires s.pending.Idle?
    ensures Start(s, c).pending.Running? <==>
      && (c.Supersede? || c.caller.allowed) && !Spent(s, c) && c.effective != 0
      && (if c.Begin? then BeginFits(s, c) else RowFits(s, c))
  {
    if c.Begin? { BeginRefusalMeaning(s, c); } else { RowRefusalMeaning(s, c); }
  }

  /** The section a command starts with. */
  lemma StartsWith(s: System, c: Command)
    requires s.pending.Idle? && Start(s, c).pending.Running?
    ensures var Running(command, endpoint, current, pc) := Start(s, c).pending;
      && command == c
      && (if c.Begin? then current == None && EndpointFor(c.resource) == Some(endpoint)
          else c.id in s.rows && current == Some(s.rows[c.id])
               && EndpointFor(s.rows[c.id].record.resource) == Some(endpoint))
      && (c.Begin? || c.Refresh? || c.Rollback? || c.Supersede? ==> pc == AtSnapshot)
      && (c.CutOver? ==> pc == AtWrite(s.rows[c.id].record.expectedCas, c.replacement.encoded))
      && (c.Cancel? ==> pc == AtRelease(s.rows[c.id].record.expectedCas))
      && (c.Complete? ==> pc == AtInstall(c.current))
  {
    StartsExactly(s, c);
  }

  /** A command that is turned down changes nothing, and is told why. */
  lemma RefusedExactly(s: System, c: Command)
    requires s.pending.Idle? && Start(s, c).pending.Idle?
    ensures var t := Start(s, c);
      && t.reply.Some? && t == s.(reply := t.reply)
      && (t.reply == Some(Failed(Denied)) <==> !c.Supersede? && !c.caller.allowed)
      && ((c.Supersede? || c.caller.allowed) && Spent(s, c) && !c.Complete? && c.id in s.rows ==>
            t.reply == Some(Viewed(s.rows[c.id])))
      && ((c.Supersede? || c.caller.allowed) && !Spent(s, c) && c.effective == 0 ==> t.reply == Some(Failed(Invalid)))
  {
  }

  /** What is told of a row in the way: missing, at another generation, in another state, or full. */
  lemma RowRefusedExactly(s: System, c: Command)
    requires s.pending.Idle? && !c.Begin? && (c.Supersede? || c.caller.allowed) && !Spent(s, c)
    requires c.effective != 0 && (c.Cancel? || c.Rollback? ==> 1 <= |c.reason| <= 1024 && !HasControl(c.reason))
    requires c.Refresh? ==> Bounded(c.snapshot)
    ensures var reply := Start(s, c).reply;
      && (reply == Some(Failed(NotFound)) <==> c.id !in s.rows)
      && (reply == Some(Failed(StaleGeneration)) <==> c.id in s.rows && s.rows[c.id].generation != c.generation)
      && (c.id in s.rows && s.rows[c.id].generation == c.generation ==>
            var r := s.rows[c.id].record;
            var wanted := if c.Refresh? || c.CutOver? || c.Cancel? then Prepared else Cutover;
            && (r.state != wanted ==> reply == Some(Failed(Conflict(r.state))))
            && (r.state == wanted && |r.history| >= 32 ==> reply == Some(Failed(Limit))))
  {
  }

  /** A closeout of a version that is not the target names the state; one adoption blocks is invalid. */
  lemma CloseoutRefusedExactly(s: System, c: Command)
    requires s.pending.Idle? && c.Complete? && c.caller.allowed && !Spent(s, c) && c.effective != 0
    requires c.id in s.rows && s.rows[c.id].generation == c.generation && s.rows[c.id].record.state == Cutover
    requires |s.rows[c.id].record.history| < 32 && s.rows[c.id].record.targetVersion.Some?
    ensures var (reply, current) := (Start(s, c).reply, s.rows[c.id].record.targetVersion == Some(c.current));
      var blocked := exists k :: && 0 <= k < |c.members| && c.members[k].verdict != A.OnCurrent
                                 && c.members[k].verdict != A.RetiredWithoutProof;
      && (!current <==> reply == Some(Failed(Conflict(Cutover))))
      && (current && blocked && (!c.acknowledge || c.reasonBlank) ==> reply == Some(Failed(Invalid)))
  {
    if k :| 0 <= k < |c.members| && c.members[k].verdict != A.OnCurrent && c.members[k].verdict != A.RetiredWithoutProof {
      assert c.members[k] in c.members && !P.Unblocked(c.members);
    }
  }

  /** A begin under a taken identifier is invalid; one on a resource with an open rotation names its state. */
  lemma BeginRefusedExactly(s: System, c: Command)
    requires Records(s) && s.pending.Idle? && c.Begin? && c.caller.allowed && !Spent(s, c) && c.effective != 0 && c.id != 0
    ensures var reply := Start(s, c).reply;
      && (c.id in s.rows ==> reply == Some(Failed(Invalid)))
      && (c.id !in s.rows ==>
            ((reply.Some? && reply.value.Failed? && reply.value.error.Conflict?) <==>
               exists id :: id in s.rows && s.rows[id].record.resource == c.resource && Open(s.rows[id].record.state)))
      && (c.id !in s.rows ==>
            forall id :: id in s.rows && s.rows[id].record.resource == c.resource && Open(s.rows[id].record.state) ==>
              reply == Some(Failed(Conflict(s.rows[id].record.state))))
  {
    forall id | id in s.rows && s.rows[id].record.resource == c.resource && Open(s.rows[id].record.state)
      ensures OpenStateFor(s.rows, c.resource) == s.rows[id].record.state
    {
      var ids := set i | i in s.rows && s.rows[i].record.resource == c.resource && Open(s.rows[i].record.state);
      assert id in ids;
      assert BothOpen(s.rows[id].record, s.rows[Least(ids)].record);
    }
  }

  // ---------------------------------------------------------------- sections

  /** The path of the command in flight. */
  function OwnPath(s: System): Bytes
    requires s.pending.Running?
  {
    LogicalPath(s.pending.endpoint.resource)
  }

  predicate OnSecrets(s: System)
    requires s.pending.Running?
  {
    KA.Placed(s.pending.endpoint, Data)
  }

  /** Looking at the live version: what goes on with it, and what is answered when it is not to be had. */
  lemma SnapshotSectionExact(s: System)
    requires Coherent(s.pending) && s.pending.Running? && s.pending.pc.AtSnapshot?
    ensures var t := Advance(s);
      var (c, path) := (s.pending.command, OwnPath(s));
      && t.kv == s.kv && t.rows == s.rows
      && (if !OnSecrets(s) then t == Finish(s, Failed(Invalid))
          else if path !in s.kv.entries || !KA.Usable(s.kv.entries[path], s.kv.entries[path].current)
          then t == Finish(s, Failed(ProtectedVersionUnavailable))
          else
            var live := s.kv.entries[path].current;
            if c.Rollback? then t.pending == s.pending.(pc := AtCopy(live))
            else if !c.Supersede? then t.pending == s.pending.(pc := AtProtect(live))
            else if s.pending.current.value.record.targetVersion.Some?
                    && live > s.pending.current.value.record.targetVersion.value
            then t.pending == s.pending.(pc := AtRelease(live))
            else s.pending.current.value.record.targetVersion.Some? ==> t == Finish(s, Failed(CasConflict)))
  {
  }

  lemma ProtectSectionExact(s: System)
    requires Coherent(s.pending) && s.pending.Running? && s.pending.pc.AtProtect?
    ensures var t := Advance(s);
      var (path, live) := (OwnPath(s), s.pending.pc.live);
      && t.rows == s.rows
      && (if !OnSecrets(s) then t == Finish(s, Failed(Invalid))
          else if path !in s.kv.entries then t == Finish(s, Failed(ProtectedVersionUnavailable))
          else if s.kv.entries[path].current != live then t == Finish(s, Failed(CasConflict))
          else if !KA.Usable(s.kv.entries[path], live) then t == Finish(s, Failed(ProtectedVersionUnavailable))
          else if s.kv.entries[path].generation == U64_MAX then t.pending.Idle? && t.reply == Some(Failed(Integrity))
          else t.pending == s.pending.(pc := AtInstall(live)))
  {
  }

  lemma CopySectionExact(s: System)
    requires Coherent(s.pending) && s.pending.Running? && s.pending.pc.AtCopy? && s.pending.current.Some?
    ensures var t := Advance(s);
      var (path, live, kept) := (OwnPath(s), s.pending.pc.live, s.pending.current.value.record.protectedVersion);
      && t.kv == s.kv && t.rows == s.rows
      && (if !OnSecrets(s) then t == Finish(s, Failed(Invalid))
          else if path !in s.kv.entries then t == Finish(s, Failed(ProtectedVersionUnavailable))
          else
            var e := s.kv.entries[path];
            if e.current != live || e.protectedVersion != Some(kept) then t == Finish(s, Failed(CasConflict))
            else if kept !in e.versions || e.versions[kept].state == Kv.Destroyed || e.versions[kept].encoded == []
            then t == Finish(s, Failed(ProtectedVersionUnavailable))
            else t.pending == s.pending.(pc := AtWrite(live, e.versions[kept].encoded)))
  {
  }

  lemma ReleaseSectionExact(s: System)
    requires Coherent(s.pending) && s.pending.Running? && s.pending.pc.AtRelease? && s.pending.current.Some?
    ensures var t := Advance(s);
      var (path, kept) := (OwnPath(s), s.pending.current.value.record.protectedVersion);
      && t.rows == s.rows
      && (if !OnSecrets(s) then t == Finish(s, Failed(Invalid))
          else if path !in s.kv.entries then t == Finish(s, Failed(ProtectedVersionUnavailable))
          else if s.kv.entries[path].protectedVersion != Some(kept) then t == Finish(s, Failed(CasConflict))
          else if s.kv.entries[path].generation == U64_MAX then t.pending.Idle? && t.reply == Some(Failed(Integrity))
          else t.pending == s.pending.(pc := AtInstall(s.pending.pc.version)))
  {
  }

  /** The writing section of a cutover or rollback; what it stores is the business of other results. */
  lemma WriteSectionExact(s: System)
    requires Coherent(s.pending) && s.pending.Running? && s.pending.pc.AtWrite? && s.pending.current.Some?
    requires s.pending.command.CutOver? || s.pending.command.Rollback?
    ensures var t := Advance(s);
      var (c, path, expected) := (s.pending.command, OwnPath(s), s.pending.pc.expected);
      && t.rows == s.rows
      && (if c.CutOver? && (!OnSecrets(s) || !KA.Fits(c.replacement)) then t == Finish(s, Failed(Invalid))
          else if path !in s.kv.entries then t == Finish(s, Failed(ProtectedVersionUnavailable))
          else if s.kv.entries[path].current != expected || s.kv.entries[path].protectedVersion == None
          then t == Finish(s, Failed(CasConflict))
          else if expected == U64_MAX || s.kv.entries[path].generation == U64_MAX
          then t.pending.Idle? && t.reply == Some(Failed(Integrity))
          else t.pending == s.pending.(pc := if c.CutOver? then AtInstall(expected + 1) else AtRelease(expected + 1)))
  {
    var c, endpoint, expected := s.pending.command, s.pending.endpoint, s.pending.pc.expected;
    if c.CutOver? {
      CutoverIs(s);
      KA.CutoverExact(s.kv, c.caller.identity, endpoint, c.replacement, expected);
    } else {
      RollbackIs(s);
      KA.RotationWriteExact(s.kv, c.caller.identity, endpoint, s.pending.pc.encoded, expected, Kv.RotationRollbackOp);
    }
  }

  // ---------------------------------------------------------------- what a record says

  /** What the commands that made a record were: its begin, its last preparation, its cutover. */
  datatype Story = Story(begun: Command, prepared: Command, cutover: Option<Command>)

  type Stories = map<Id, Story>

  /** The step installs the record of its command. */
  ghost predicate Installs(s: System, step: Step)
    requires Coherent(s.pending)
  {
    step.Continue? && s.pending.Running? && s.pending.pc.AtInstall? && Advance(s).rows != s.rows
  }

  /** The story goes on with every command that is installed. */
  ghost function Told(s: System, step: Step, stories: Stories): Stories
    requires Coherent(s.pending)
  {
    if !Installs(s, step) then stories
    else
      var c := s.pending.command;
      if c.Begin? then stories[c.id := Story(c, c, None)]
      else if c.id !in stories then stories
      else if c.Refresh? then stories[c.id := stories[c.id].(prepared := c)]
      else if c.CutOver? then stories[c.id := stories[c.id].(cutover := Some(c))]
      else stories
  }

  /** A record says what its story says. */
  ghost predicate Says(r: Record, story: Story) {
    && story.begun.Begin? && (story.prepared.Begin? || story.prepared.Refresh?)
    && r.resource == story.begun.resource && r.actor == story.begun.caller.identity
    && r.snapshot == story.prepared.snapshot && r.preparedAt == story.prepared.effective
    && (story.cutover == None ==> r.cutoverAt == None)
    && (story.cutover.Some? ==> story.cutover.value.CutOver? && r.cutoverAt == Some(story.cutover.value.effective))
  }

  ghost predicate AllSay(s: System, stories: Stories) {
    s.rows.Keys == stories.Keys && forall id :: id in s.rows ==> Says(s.rows[id].record, stories[id])
  }

  /** A command that has come to installing still has the row it started from. */
  lemma OwnRow(s: System)
    requires Records(s) && s.pending.Running?
    ensures var c := s.pending.command;
      && (c.Begin? <==> c.id !in s.rows)
      && (!c.Begin? ==> s.pending.current == Some(s.rows[c.id]) && s.rows[c.id].record.id == c.id
                        && c.generation == s.rows[c.id].generation < U64_MAX)
  {
    var c := s.pending.command;
    if !c.Begin? { assert RowSound(c.id, s.rows[c.id]); }
  }

  /** The row the command in flight would install. */
  ghost function Coming(s: System): Row
    requires Coherent(s.pending) && s.pending.Running? && s.pending.pc.AtInstall?
  {
    Row(Replacement(s.pending.command, s.pending.current, s.pending.pc.version),
        if s.pending.command.Begin? then 1 else Min(s.pending.command.generation + 1, U64_MAX))
  }

  lemma InstallMakes(s: System, t: System, row: Row)
    requires Coherent(s.pending) && s.pending.Running? && s.pending.pc.AtInstall? && t == Advance(s)
    requires row == Coming(s)
    ensures t.pending.Idle? && t.kv == s.kv
    ensures t.rows == s.rows || t.rows == s.rows[row.record.id := row]
    ensures t.rows != s.rows ==>
      var c := s.pending.command;
      && t.completed == s.completed + (if c.Supersede? then {} else {(c.caller.request, ClassOf(c), c.id)})
      && t.reply == Some(FinalReply(c, row))
  {
  }

  lemma ComingIsOwn(s: System)
    requires Records(s) && s.pending.Running? && s.pending.pc.AtInstall?
    ensures Coming(s).record.id == s.pending.command.id
  {
    OwnRow(s);
  }

  lemma ReplacementSays(c: Command, current: Option<Row>, version: u64, story: Story)
    requires c.Begin? <==> current.None?
    requires current.Some? ==> Says(current.value.record, story)
    ensures Says(Replacement(c, current, version),
                 if c.Begin? then Story(c, c, None)
                 else if c.Refresh? then story.(prepared := c)
                 else if c.CutOver? then story.(cutover := Some(c))
                 else story)
  {
  }

  lemma PutSays(s: System, stories: Stories, t: System, told: Stories, id: Id, row: Row, story: Story)
    requires AllSay(s, stories) && Says(row.record, story)
    requires t.rows == s.rows[id := row] && told == stories[id := story]
    ensures AllSay(t, told)
  {
  }

  lemma ToldIs(s: System, stories: Stories, story: Story)
    requires Coherent(s.pending) && Installs(s, Continue)
    requires !s.pending.command.Begin? ==> s.pending.command.id in stories && stories[s.pending.command.id] == story
    ensures var c := s.pending.command;
      Told(s, Continue, stories)
      == stories[c.id := if c.Begin? then Story(c, c, None)
                         else if c.Refresh? then story.(prepared := c)
                         else if c.CutOver? then story.(cutover := Some(c))
                         else story]
  {
  }

  lemma InstalledSays(s: System, stories: Stories, t: System, story: Story)
    requires Records(s) && AllSay(s, stories) && Installs(s, Continue) && t == Advance(s)
    requires s.pending.command.id in s.rows ==> stories[s.pending.command.id] == story
    ensures AllSay(t, Told(s, Continue, stories))
  {
    var Running(c, _, current, pc) := s.pending;
    OwnRow(s);
    ComingIsOwn(s);
    InstallMakes(s, t, Coming(s));
    if !c.Begin? { assert Says(s.rows[c.id].record, stories[c.id]); }
    ToldIs(s, stories, story);
    ReplacementSays(c, current, pc.version, story);
    PutSays(s, stories, t, Told(s, Continue, stories), c.id, Coming(s), Told(s, Continue, stories)[c.id]);
  }

  lemma QuietStep(s: System, step: Step)
    requires Coherent(s.pending) && !Installs(s, step)
    ensures Next(s, step).rows == s.rows
  {
    if step.Continue? && (s.pending.Idle? || !s.pending.pc.AtInstall?) {
      SectionShape(s);
    } else if step.Issue? && s.pending.Idle? {
      StartShape(s, step.command);
    }
  }

  lemma StepSays(s: System, step: Step, stories: Stories)
    requires Records(s) && AllSay(s, stories)
    ensures AllSay(Next(s, step), Told(s, step, stories))
  {
    if Installs(s, step) {
      var c := s.pending.command;
      OwnRow(s);
      InstalledSays(s, stories, Advance(s), if c.Begin? then Story(c, c, None) else stories[c.id]);
    } else {
      QuietStep(s, step);
    }
  }

  ghost function AllTold(s: System, steps: seq<Step>, stories: Stories): Stories
    requires Coherent(s.pending)
    decreases |steps|
  {
    if steps == [] then stories
    else
      NextCoherent(s, steps[0]);
      AllTold(Next(s, steps[0]), steps[1..], Told(s, steps[0], stories))
  }

  /**
    In every run a record says what the commands that made it said: resource and actor of its
    begin, snapshot and time of its last preparation, time of its cutover.
   */
  lemma {:induction false} RecordsSay(s: System, steps: seq<Step>, stories: Stories)
    requires Records(s) && AllSay(s, stories)
    ensures AllSay(Run(s, steps), AllTold(s, steps, stories))
    decreases |steps|
  {
    if steps != [] {
      StepSays(s, steps[0], stories);
      RecordsStep(s, steps[0]);
      RecordsSay(Next(s, steps[0]), steps[1..], Told(s, steps[0], stories));
    }
  }

  /** The state each command leads to. */
  function LeadsTo(c: Command): Lifecycle {
    match c
    case Begin(_, _, _, _, _) => Prepared
    case Refresh(_, _, _, _, _) => Prepared
    case CutOver(_, _, _, _, _) => Cutover
    case Cancel(_, _, _, _, _) => Cancelled
    case Rollback(_, _, _, _, _) => Superseded
    case Supersede(_, _, _) => Superseded
    case Complete(_, _, _, _, _, _, _, _) => Completed
  }

  /** The versions a command's record names, next to those it named before. */
  ghost predicate Versioned(c: Command, before: Record, r: Record, version: u64) {
    && (c.Begin? || c.Refresh? ==> r.protectedVersion == r.expectedCas == version)
    && (c.Begin? ==> r.targetVersion == None)
    && (c.CutOver? ==> r.targetVersion == Some(version))
    && (!c.Begin? && !c.Refresh? ==>
          r.protectedVersion == before.protectedVersion && r.expectedCas == before.expectedCas)
    && (!c.Begin? && !c.CutOver? ==> r.targetVersion == before.targetVersion)
  }

  lemma ReplacementAdds(c: Command, current: Option<Row>, version: u64, before: Record)
    requires c.Begin? <==> current.None?
    requires current.Some? ==> before == current.value.record
    ensures var r := Replacement(c, current, version);
      && r.state == LeadsTo(c) && Versioned(c, before, r, version)
      && r.history == (if c.Begin? then [] else before.history) + [Transition(LeadsTo(c), c.effective, version)]
  {
  }

  /**
    What an installed command adds: one transition, dated as the command is, to the state it leads
    to; its request is spent; and the caller sees the row, unless the success could not be recorded.
   */
  lemma InstalledAdds(s: System, t: System)
    requires Records(s) && Installs(s, Continue) && t == Advance(s)
    ensures var (c, version) := (s.pending.command, s.pending.pc.version);
      && c.id in t.rows && t.pending.Idle? && t.rows == s.rows[c.id := t.rows[c.id]] && t.kv == s.kv
      && (c.Begin? <==> c.id !in s.rows)
      && var (r, before) := (t.rows[c.id], if c.Begin? then t.rows[c.id] else s.rows[c.id]);
      && r.record.state == LeadsTo(c) && Versioned(c, before.record, r.record, version)
      && r.record.history
         == (if c.Begin? then [] else before.record.history) + [Transition(LeadsTo(c), c.effective, version)]
      && r.generation == (if c.Begin? then 1 else before.generation + 1)
      && t.completed == s.completed + (if c.Supersede? then {} else {(c.caller.request, ClassOf(c), c.id)})
      && (!c.Supersede? && c.caller.unrecorded.Some? ==> t.reply == Some(Failed(c.caller.unrecorded.value)))
      && ((c.Supersede? || c.caller.unrecorded.None?) && !c.Complete? ==> t.reply == Some(Viewed(r)))
  {
    var Running(c, _, current, pc) := s.pending;
    OwnRow(s);
    ComingIsOwn(s);
    InstallMakes(s, t, Coming(s));
    ReplacementAdds(c, current, pc.version, if c.Begin? then Coming(s).record else s.rows[c.id].record);
  }
}
