/** Protections that outlive the command that made them. */
module RotationLeftovers {
  import opened Prelude
  import opened Text
  import opened Endpoints
  import opened RotationModel
  import opened RotationInvariant
  import opened RotationRecords
  import opened RotationSections
  import opened RotationSteps
  import opened RotationIsolation
  import Kv = KvModel
  import KI = KvInvariant

  // ---------------------------------------------------------------- a begin that fails

  /** What sealing still refuses of a begin that has got so far. */
  predicate Fits(c: Command)
    requires c.Begin?
  {
    |c.resource| <= 1024 && c.caller.identity != 0
  }

  lemma BeginSealsExactly(s: System, lost: set<Id>)
    requires InvBut(s, lost) && s.pending.Running? && s.pending.command.Begin? && s.pending.pc.AtInstall?
    ensures s.pending.command.id in Advance(s).rows <==> Fits(s.pending.command)
    ensures Advance(s).kv == s.kv && Advance(s).pending.Idle?
    ensures Held(s.kv, LogicalPath(s.pending.endpoint.resource), s.pending.pc.version, s.pending.pc.version)
  {
    assert BeginOk(Without(s, lost));
  }

  /** The protecting section of a begin changes the store. */
  ghost predicate Marks(s: System)
    requires s.pending.Running? && s.pending.pc.AtProtect?
  {
    var path := LogicalPath(s.pending.endpoint.resource);
    var live := s.pending.pc.live;
    && s.pending.endpoint.resource.mount == SECRET_MOUNT && Protectable(s.kv, path, live)
    && (s.kv.entries[path].protectedVersion != Some(live) || !s.kv.entries[path].protectionKnown)
  }

  lemma FailedProtectMarks(s: System, lost: set<Id>)
    requires InvBut(s, lost) && s.pending.Running? && s.pending.command.Begin? && s.pending.pc.AtProtect?
    requires Advance(s).pending.Idle?
    ensures Advance(s).kv != s.kv <==> Marks(s)
    ensures var path := LogicalPath(s.pending.endpoint.resource);
      Marks(s) ==> path in Advance(s).kv.entries
                   && Advance(s).kv.entries[path].protectedVersion == Some(s.pending.pc.live)
  {
    var endpoint, live := s.pending.endpoint, s.pending.pc.live;
    var path := LogicalPath(endpoint.resource);
    assert BeginOk(Without(s, lost));
    ProtectShape(s.kv, endpoint, live);
    SectionShape(s);
    if endpoint.resource.mount == SECRET_MOUNT && Protectable(s.kv, path, live) {
      var e := s.kv.entries[path].(protectedVersion := Some(live), protectionKnown := true);
      assert Kv.Bump(e).0 == e;
      if !Marks(s) { assert s.kv.entries[path := e] == s.kv.entries; }
    }
  }

  /**
    A begin that ends without installing a record has left a protection behind exactly when it
    failed to seal the record, which its caller's identity and resource decide, or failed to count
    the protection of a used-up entry that was not protected at that version already.
   */
  lemma FailedBeginExactly(s: System, lost: set<Id>)
    requires InvBut(s, lost) && s.pending.Running? && s.pending.command.Begin?
    requires Advance(s).pending.Idle?
    ensures s.pending.command.id in Advance(s).rows <==> s.pending.pc.AtInstall? && Fits(s.pending.command)
    ensures match s.pending.pc
      case AtSnapshot => Advance(s).kv == s.kv
      case AtProtect(live) => Advance(s).kv != s.kv <==> Marks(s)
      case AtInstall(version) =>
        Advance(s).kv == s.kv && Held(s.kv, LogicalPath(s.pending.endpoint.resource), version, version)
      case _ => false
  {
    assert BeginOk(Without(s, lost));
    SectionShape(s);
    match s.pending.pc
    case AtSnapshot =>
    case AtProtect(_) => FailedProtectMarks(s, lost);
    case AtInstall(_) => BeginSealsExactly(s, lost);
  }

  // ---------------------------------------------------------------- how long a protection lasts

  /** Some version of the path is protected, so no purge takes the path. */
  predicate Guarded(kv: Kv.Catalog, path: Bytes) {
    path in kv.entries && kv.entries[path].protectedVersion.Some?
  }

  /** The step is the release of the version that is protected at `path`. */
  ghost predicate UnprotectsAt(s: System, step: Step, path: Bytes)
    requires Coherent(s.pending)
  {
    && step.Continue? && s.pending.Running? && s.pending.pc.AtRelease? && s.pending.current.Some?
    && s.pending.endpoint.kind == Data && s.pending.endpoint.resource.mount == SECRET_MOUNT
    && LogicalPath(s.pending.endpoint.resource) == path && path in s.kv.entries
    && s.kv.entries[path].protectedVersion == Some(s.pending.current.value.record.protectedVersion)
  }

  lemma ReleaseGuards(kv: Kv.Catalog, endpoint: Endpoint, version: u64, path: Bytes)
    requires KI.AllWellFormed(kv) && Guarded(kv, path)
    ensures Guarded(Kv.Release(kv, endpoint, version).0, path) <==>
      !(&& endpoint.kind == Data && endpoint.resource.mount == SECRET_MOUNT
        && LogicalPath(endpoint.resource) == path && kv.entries[path].protectedVersion == Some(version))
  {
    var own := LogicalPath(endpoint.resource);
    if endpoint.kind == Data && endpoint.resource.mount == SECRET_MOUNT
       && own in kv.entries && kv.entries[own].protectedVersion == Some(version)
    {
      ReleaseEffect(kv, endpoint, version);
    }
  }

  lemma OtherSectionsGuard(s: System, path: Bytes)
    requires Coherent(s.pending) && Guarded(s.kv, path) && s.pending.Running? && !s.pending.pc.AtRelease?
    ensures Guarded(KvAfter(s), path)
  {
    var Running(c, endpoint, current, pc) := s.pending;
    if pc.AtProtect? {
      ProtectShape(s.kv, endpoint, pc.live);
    } else if pc.AtWrite? && current.Some? {
      if c.CutOver? {
        WriteFacts(s.kv, c.caller.identity, endpoint, c.replacement.encoded, pc.expected, Kv.RotationCutoverOp);
      } else {
        WriteFacts(s.kv, if c.Supersede? then 0 else c.caller.identity, endpoint, pc.encoded, pc.expected,
                   Kv.RotationRollbackOp);
      }
    }
  }

  /** A step ends the protection of a path exactly when it is the release of the protected version. */
  lemma ProtectionEndsExactly(s: System, step: Step, path: Bytes)
    requires Coherent(s.pending) && KI.AllWellFormed(s.kv) && Guarded(s.kv, path)
    ensures Guarded(Next(s, step).kv, path) <==> !UnprotectsAt(s, step, path)
  {
    match step
    case Elsewhere(d) => HeldThroughStep(s.kv, d, path, s.kv.entries[path].protectedVersion.value, 0);
    case Issue(c) => if s.pending.Idle? { StartShape(s, c); }
    case Continue =>
      SectionShape(s);
      if s.pending.Running? {
        if !s.pending.pc.AtRelease? {
          OtherSectionsGuard(s, path);
        } else if s.pending.current.Some? {
          ReleaseGuards(s.kv, s.pending.endpoint, s.pending.current.value.record.protectedVersion, path);
        }
      }
  }

  /** No step of the run releases the version protected at `path`. */
  ghost predicate NeverUnprotects(s: System, steps: seq<Step>, path: Bytes)
    requires Coherent(s.pending)
    decreases |steps|
  {
    steps == [] ||
    (NextCoherent(s, steps[0]);
     !UnprotectsAt(s, steps[0], path) && NeverUnprotects(Next(s, steps[0]), steps[1..], path))
  }

  /**
    A protected path stays, and only evolves, in every run that does not release the version
    protected there, whoever protected it and whether or not a record still names it.
   */
  lemma {:induction false} GuardedUntilReleased(s: System, steps: seq<Step>, path: Bytes)
    requires Coherent(s.pending) && KI.AllWellFormed(s.kv) && Guarded(s.kv, path)
    requires NeverUnprotects(s, steps, path)
    ensures var t := Run(s, steps);
      Guarded(t.kv, path) && KI.Evolves(s.kv.entries[path], t.kv.entries[path])
    decreases |steps|
  {
    if steps == [] {
      KI.EvolvesReflexive(s.kv.entries[path]);
    } else {
      var u := Next(s, steps[0]);
      NextCoherent(s, steps[0]);
      ProtectionEndsExactly(s, steps[0], path);
      StepFollows(s, steps[0]);
      GuardedUntilReleased(u, steps[1..], path);
      KI.EvolvesTransitive(s.kv.entries[path], u.kv.entries[path], Run(s, steps).kv.entries[path]);
    }
  }

  /** What a failed begin has protected is kept until another rotation releases that version. */
  lemma LeftoverIsKept(s: System, lost: set<Id>, steps: seq<Step>)
    requires InvBut(s, lost) && s.pending.Running? && s.pending.command.Begin? && Advance(s).pending.Idle?
    requires s.pending.pc.AtInstall? || (s.pending.pc.AtProtect? && Marks(s))
    requires NeverUnprotects(Advance(s), steps, LogicalPath(s.pending.endpoint.resource))
    ensures Guarded(Run(Advance(s), steps).kv, LogicalPath(s.pending.endpoint.resource))
  {
    if s.pending.pc.AtInstall? { BeginSealsExactly(s, lost); } else { FailedProtectMarks(s, lost); }
    SectionShape(s);
    SectionFollows(s);
    GuardedUntilReleased(Advance(s), steps, LogicalPath(s.pending.endpoint.resource));
  }

  lemma CompleteIs(u: System, t: System, id: Id, path: Bytes)
    requires Inv(u) && u.pending.Running? && u.pending.command.Complete? && t == Advance(u)
    requires id == u.pending.command.id && path == LogicalPath(u.pending.endpoint.resource)
    ensures t.kv == u.kv && id in u.rows && id in t.rows && t.rows[id].record.state == Completed
    ensures PathOf(t.rows[id].record.resource) == path
    ensures path in t.kv.entries
    ensures t.kv.entries[path].protectedVersion == Some(t.rows[id].record.protectedVersion)
  {
    assert RowOk(id, u.rows[id]) && ClaimHeld(u, id);
    InstallRow(u);
    SectionShape(u);
  }

  /** Closing out releases nothing: a completed rotation keeps its version protected. */
  lemma CompletedKeepsProtection(s: System, lost: set<Id>, t: System, id: Id, path: Bytes, steps: seq<Step>)
    requires InvBut(s, lost) && !Foreign(s, lost) && s.pending.Running? && s.pending.command.Complete?
    requires id == s.pending.command.id && path == LogicalPath(s.pending.endpoint.resource)
    requires t == Advance(s) && Coherent(t.pending) && NeverUnprotects(t, steps, path)
    ensures id in t.rows && t.rows[id].record.state == Completed && PathOf(t.rows[id].record.resource) == path
    ensures path in t.kv.entries
    ensures t.kv.entries[path].protectedVersion == Some(t.rows[id].record.protectedVersion)
    ensures Guarded(Run(t, steps).kv, path)
  {
    ContinueMirrors(s, lost);
    CompleteIs(Without(s, lost), Without(t, lost), id, path);
    GuardedUntilReleased(t, steps, path);
  }
}
