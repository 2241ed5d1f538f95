/** What the sections of rotation commands do to the store. */
module RotationSections {
  import opened Prelude
  import opened Endpoints
  import opened RotationModel
  import opened RotationInvariant
  import Kv = KvModel
  import KI = KvInvariant

  /** What one section of a command does to the store: one rotation primitive at most. */
  ghost function KvAfter(s: System): Kv.Catalog
    requires Coherent(s.pending)
  {
    match s.pending
    case Idle => s.kv
    case Running(c, endpoint, current, pc) =>
      match pc
      case AtProtect(live) => Kv.Protect(s.kv, endpoint, live).0
      case AtWrite(expected, encoded) =>
        if current.None? then s.kv
        else if c.CutOver? then Kv.RotationCutover(s.kv, c.caller.identity, endpoint, c.replacement, expected).0
        else Kv.RotationWrite(s.kv, if c.Supersede? then 0 else c.caller.identity, endpoint, encoded, expected,
                              Kv.RotationRollbackOp).0
      case AtRelease(_) =>
        if current.None? then s.kv else Kv.Release(s.kv, endpoint, current.value.record.protectedVersion).0
      case _ => s.kv
  }

  lemma SectionShape(s: System)
    requires Coherent(s.pending)
    ensures Advance(s).kv == KvAfter(s)
    ensures s.pending.Idle? || !s.pending.pc.AtInstall? ==> Advance(s).rows == s.rows
  {
  }

  lemma CutoverFollows(kv: Kv.Catalog, identity: Id, endpoint: Endpoint, secret: Kv.Secret, expected: u64)
    requires KI.AllWellFormed(kv)
    ensures KI.Follows(kv, Kv.RotationCutover(kv, identity, endpoint, secret, expected).0)
  {
    KI.Stays(kv, kv);
    KI.RotationWriteStep(kv, identity, endpoint, secret.encoded, expected, Kv.RotationCutoverOp);
  }

  lemma SectionFollows(s: System)
    requires Coherent(s.pending) && KI.AllWellFormed(s.kv)
    ensures KI.Follows(s.kv, KvAfter(s))
  {
    if s.pending.Running? && s.pending.pc.AtProtect? {
      KI.ProtectStep(s.kv, s.pending.endpoint, s.pending.pc.live);
    } else if s.pending.Running? && s.pending.pc.AtRelease? && s.pending.current.Some? {
      KI.ReleaseStep(s.kv, s.pending.endpoint, s.pending.current.value.record.protectedVersion);
    } else if s.pending.Running? && s.pending.pc.AtWrite? && s.pending.current.Some? {
      var Running(c, endpoint, _, pc) := s.pending;
      if c.CutOver? {
        CutoverFollows(s.kv, c.caller.identity, endpoint, c.replacement, pc.expected);
      } else {
        KI.RotationWriteStep(s.kv, if c.Supersede? then 0 else c.caller.identity, endpoint, pc.encoded,
                             pc.expected, Kv.RotationRollbackOp);
      }
    } else {
      KI.Stays(s.kv, s.kv);
    }
  }

  lemma StepFollows(s: System, step: Step)
    requires Coherent(s.pending) && KI.AllWellFormed(s.kv)
    ensures KI.Follows(s.kv, Next(s, step).kv)
  {
    match step
    case Elsewhere(d) => KI.StepKeepsInvariant(s.kv, d);
    case Issue(c) =>
      KI.Stays(s.kv, s.kv);
      if s.pending.Idle? { StartShape(s, c); }
    case Continue =>
      SectionShape(s);
      SectionFollows(s);
  }

  /** A section touches no entry but that of its own endpoint. */
  lemma SectionChangesOnly(s: System)
    requires Coherent(s.pending) && s.pending.Running?
    ensures ChangesOnly(s.kv, KvAfter(s), LogicalPath(s.pending.endpoint.resource))
  {
    var Running(c, endpoint, current, pc) := s.pending;
    match pc
    case AtProtect(live) => ProtectShape(s.kv, endpoint, live);
    case AtWrite(expected, encoded) =>
      if current.Some? {
        if c.CutOver? {
          WriteFacts(s.kv, c.caller.identity, endpoint, c.replacement.encoded, expected, Kv.RotationCutoverOp);
        } else {
          WriteFacts(s.kv, if c.Supersede? then 0 else c.caller.identity, endpoint, encoded, expected,
                     Kv.RotationRollbackOp);
        }
      }
    case _ =>
  }
}
