/** Closing a rotation out: the first execution, and what a replay is told. */
module RotationCloseout {
  import opened Prelude
  import opened RotationModel
  import opened RotationInvariant
  import opened RotationRecords
  import opened RotationSteps
  import opened RotationIsolation
  import A = Adoption
  import P = AdoptionProofs

  // ---------------------------------------------------------------- first execution

  /** Everything but adoption that a first execution of a closeout checks. */
  ghost predicate CloseoutDue(s: System, c: Command) {
    && s.pending.Idle? && c.Complete? && c.caller.allowed && !Replayed(s.completed, c) && c.effective != 0
    && c.id in s.rows
    && var r := s.rows[c.id].record;
    && s.rows[c.id].generation == c.generation < U64_MAX
    && r.state == Cutover && |r.history| < MAX_HISTORY && r.targetVersion == Some(c.current)
    && EndpointFor(r.resource).Some?
  }

  lemma CloseoutStarts(s: System, c: Command)
    requires CloseoutDue(s, c)
    ensures Start(s, c).pending.Running? <==> P.Unblocked(c.members) || (c.acknowledge && !c.reasonBlank)
  {
    assert RowRefusal(s.rows, c) == CloseoutRefusal(s.rows[c.id], c);
  }

  /**
    A first closeout over an adoption report goes ahead exactly when the reads prove adoption or
    an acknowledgement with a reason is given. So without acknowledgement every active instance
    is retired or last fetched the target.
   */
  lemma CloseoutExact(s: System, c: Command, q: A.Query)
    requires CloseoutDue(s, c) && c.members == A.Members(q)
    ensures Start(s, c).pending.Running? <==> P.Adopted(q) || (c.acknowledge && !c.reasonBlank)
  {
    CloseoutStarts(s, c);
    P.GateExact(q);
  }

  /** A closeout that does go ahead completes the record and says so. */
  lemma CloseoutCompletes(s: System, lost: set<Id>, t: System)
    requires InvBut(s, lost) && !Foreign(s, lost)
    requires s.pending.Running? && s.pending.command.Complete? && t == Advance(s)
    ensures var c := s.pending.command;
      && c.id in t.rows && t.rows[c.id].record.state == Completed
      && t.rows[c.id].record.targetVersion == s.rows[c.id].record.targetVersion
      && (c.caller.unrecorded.None? ==> t.reply == Some(ClosedOut(c.id, c.acknowledge, c.acknowledge)))
  {
    ContinueMirrors(s, lost);
    InstallRow(Without(s, lost));
  }

  // ---------------------------------------------------------------- replays

  /** What "closed out" says of the record. */
  predicate ClosedIn(rows: map<Id, Row>, id: Id) {
    id in rows && rows[id].record.state == Completed
  }

  /** A closeout is answered "closed out" without being run exactly when its request is spent. */
  lemma ReplayAnswersExactly(s: System, c: Command)
    requires s.pending.Idle? && c.Complete?
    ensures var t := Start(s, c);
      && t.rows == s.rows
      && (t.reply.Some? && t.reply.value.ClosedOut? <==> c.caller.allowed && Replayed(s.completed, c))
  {
  }

  /** The request key does not name the command, so any lifecycle command of the record spends it. */
  predicate Shares(c: Command, request: Id, id: Id) {
    !c.Supersede? && ClassOf(c) == LifecycleClass && c.caller.request == request && c.id == id
  }

  /** The step installs a cutover, cancel or rollback of `id` under `request`. */
  ghost predicate SpendsOtherwise(s: System, step: Step, request: Id, id: Id)
    requires Coherent(s.pending)
  {
    && step.Continue? && s.pending.Running? && s.pending.pc.AtInstall?
    && Shares(s.pending.command, request, id) && !s.pending.command.Complete?
    && Sealable(Due(s))
  }

  /** Whoever replays a closeout under `request` is told the truth. */
  predicate Truthful(s: System, request: Id, id: Id) {
    (request, LifecycleClass, id) in s.completed ==> ClosedIn(s.rows, id)
  }

  lemma StartSpendsNothing(s: System, c: Command)
    ensures Start(s, c).completed == s.completed && Start(s, c).rows == s.rows
  {
  }

  lemma SectionSpendsNothing(s: System)
    requires Coherent(s.pending) && (s.pending.Idle? || !s.pending.pc.AtInstall?)
    ensures Advance(s).completed == s.completed && Advance(s).rows == s.rows
  {
  }

  lemma CompletedOnlyAtInstall(s: System, step: Step)
    requires Coherent(s.pending)
    requires !(step.Continue? && s.pending.Running? && s.pending.pc.AtInstall?)
    ensures Next(s, step).completed == s.completed && Next(s, step).rows == s.rows
  {
    match step
    case Elsewhere(_) =>
    case Issue(c) => StartSpendsNothing(s, c);
    case Continue => SectionSpendsNothing(s);
  }

  /** The record the command in flight would install. */
  function Due(s: System): Record
    requires Coherent(s.pending) && s.pending.Running? && s.pending.pc.AtInstall?
  {
    Replacement(s.pending.command, s.pending.current, s.pending.pc.version)
  }

  lemma DueNamesItsRow(s: System)
    requires Records(s) && s.pending.Running? && s.pending.pc.AtInstall?
    ensures Due(s).id == s.pending.command.id
  {
    var c := s.pending.command;
    if !c.Begin? { assert RowSound(c.id, s.rows[c.id]); }
  }

  lemma InstallSpends(s: System, request: Id, id: Id)
    requires Coherent(s.pending) && s.pending.Running? && s.pending.pc.AtInstall?
    requires Due(s).id == s.pending.command.id
    ensures Advance(s).pending.Idle?
    ensures var c, t := s.pending.command, Advance(s);
      if Sealable(Due(s))
      then && ((request, LifecycleClass, id) in t.completed <==>
                 (request, LifecycleClass, id) in s.completed || Shares(c, request, id))
           && c.id in t.rows && t.rows[c.id].record == Due(s) && t.rows == s.rows[c.id := t.rows[c.id]]
      else t.completed == s.completed && t.rows == s.rows
  {
  }

  /** A step ends the truth of replays exactly by spending their request on another command. */
  lemma TruthEndsExactly(s: System, step: Step, request: Id, id: Id)
    requires Records(s) && Truthful(s, request, id)
    ensures Truthful(Next(s, step), request, id) <==> !SpendsOtherwise(s, step, request, id)
  {
    if step.Continue? && s.pending.Running? && s.pending.pc.AtInstall? {
      DueNamesItsRow(s);
      InstallSpends(s, request, id);
      if id in s.rows { StepMovesRows(s, step, id); }
    } else {
      CompletedOnlyAtInstall(s, step);
    }
  }

  /** No step of the run spends `request` on a cutover, cancel or rollback of `id`. */
  ghost predicate KeptForCloseout(s: System, steps: seq<Step>, request: Id, id: Id)
    requires Coherent(s.pending)
    decreases |steps|
  {
    steps == [] ||
    (NextCoherent(s, steps[0]);
     !SpendsOtherwise(s, steps[0], request, id) && KeptForCloseout(Next(s, steps[0]), steps[1..], request, id))
  }

  /** In every run that keeps a request for closing out, a replay under it says what is so. */
  lemma {:induction false} KeptRequestsAreTruthful(s: System, steps: seq<Step>, request: Id, id: Id)
    requires Records(s) && Truthful(s, request, id) && KeptForCloseout(s, steps, request, id)
    ensures Truthful(Run(s, steps), request, id)
    decreases |steps|
  {
    if steps != [] {
      TruthEndsExactly(s, steps[0], request, id);
      RecordsStep(s, steps[0]);
      KeptRequestsAreTruthful(Next(s, steps[0]), steps[1..], request, id);
    }
  }

  /** A spent lifecycle request leaves its record cut over, completed, cancelled or superseded. */
  predicate Past(s: System, request: Id, id: Id) {
    (request, LifecycleClass, id) in s.completed ==> id in s.rows && s.rows[id].record.state != Prepared
  }

  lemma PastStep(s: System, step: Step, request: Id, id: Id)
    requires Records(s) && Past(s, request, id)
    ensures Past(Next(s, step), request, id)
  {
    if step.Continue? && s.pending.Running? && s.pending.pc.AtInstall? {
      DueNamesItsRow(s);
      InstallSpends(s, request, id);
      if id in s.rows { StepMovesRows(s, step, id); }
    } else {
      CompletedOnlyAtInstall(s, step);
    }
  }

  lemma {:induction false} PastRun(s: System, steps: seq<Step>, request: Id, id: Id)
    requires Records(s) && Past(s, request, id)
    ensures Past(Run(s, steps), request, id)
    decreases |steps|
  {
    if steps != [] {
      PastStep(s, steps[0], request, id);
      RecordsStep(s, steps[0]);
      PastRun(Next(s, steps[0]), steps[1..], request, id);
    }
  }

  /**
    In every run a replayed closeout is answered "closed out" over a record that exists. The answer
    is true exactly when the record is completed; otherwise it is cut over, cancelled or superseded.
   */
  lemma ReplayedCloseoutReportsAnyway(casRequired: bool, now: u64, steps: seq<Step>, c: Command)
    requires var s := Run(InitialSystem(casRequired, now), steps);
      s.pending.Idle? && c.Complete? && c.caller.allowed && Replayed(s.completed, c)
    ensures var s := Run(InitialSystem(casRequired, now), steps);
      && Start(s, c).reply == Some(ClosedOut(c.id, c.acknowledge, false))
      && c.id in s.rows && Start(s, c).rows == s.rows
      && (ClosedIn(s.rows, c.id) <==>
            var state := s.rows[c.id].record.state;
            state != Cutover && state != Cancelled && state != Superseded)
  {
    PastRun(InitialSystem(casRequired, now), steps, c.caller.request, c.id);
  }

  lemma InstallSeals(s: System)
    requires Inv(s) && s.pending.Running? && s.pending.pc.AtInstall? && !s.pending.command.Begin?
    ensures Sealable(Due(s))
  {
    var c := s.pending.command;
    assert RowOk(c.id, s.rows[c.id]);
    ReplacementOk(c, s.rows[c.id], s.pending.pc.version);
  }

  /** Each of the three false answers happens: right after the cutover, cancel or rollback that spent the request. */
  lemma SharedRequestMisreports(s: System, closeout: Command)
    requires Inv(s) && s.pending.Running? && s.pending.pc.AtInstall?
    requires s.pending.command.CutOver? || s.pending.command.Cancel? || s.pending.command.Rollback?
    requires closeout.Complete? && closeout.caller.allowed
    requires closeout.id == s.pending.command.id && closeout.caller.request == s.pending.command.caller.request
    ensures var t := Advance(s);
      && t.pending.Idle? && closeout.id in t.rows
      && Start(t, closeout).reply == Some(ClosedOut(closeout.id, closeout.acknowledge, false))
      && t.rows[closeout.id].record.state
         == (if s.pending.command.CutOver? then Cutover else if s.pending.command.Cancel? then Cancelled else Superseded)
  {
    InstallSeals(s);
    InvHasRecords(s);
    DueNamesItsRow(s);
    InstallSpends(s, closeout.caller.request, closeout.id);
  }
}
