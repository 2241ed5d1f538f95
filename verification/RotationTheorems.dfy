/** Properties of whole runs of rotation, with data-plane steps at every lock boundary. */
module RotationTheorems {
  import opened Prelude
  import opened Text
  import opened Endpoints
  import opened RotationModel
  import opened RotationInvariant
  import opened RotationRecords
  import opened RotationSections
  import opened RotationSteps
  import opened RotationIsolation
  import Kv = KvModel
  import KI = KvInvariant

  // ---------------------------------------------------------------- reachable states

  /** No step of the run loses a protection. */
  ghost predicate NeverLoses(s: System, steps: seq<Step>)
    requires Coherent(s.pending)
    decreases |steps|
  {
    steps == [] ||
    (NextCoherent(s, steps[0]);
     !LosesAt(s, steps[0]) && NeverLoses(Next(s, steps[0]), steps[1..]))
  }

  lemma Prefix(steps: seq<Step>, k: nat)
    requires 1 <= k <= |steps|
    ensures steps[..k][0] == steps[0] && steps[..k][1..] == steps[1..][..k - 1]
  {
  }

  /** Exactly the runs without a losing step keep the invariant all the way. */
  lemma {:induction false} RunKeepsExactly(s: System, steps: seq<Step>)
    requires Inv(s)
    ensures NeverLoses(s, steps) <==> forall k :: 0 <= k <= |steps| ==> Inv(Run(s, steps[..k]))
    decreases |steps|
  {
    if steps == [] {
      assert steps[..0] == [];
    } else {
      var t := Next(s, steps[0]);
      StepKeepsExactly(s, steps[0]);
      NextCoherent(s, steps[0]);
      forall k | 1 <= k <= |steps|
        ensures Run(s, steps[..k]) == Run(t, steps[1..][..k - 1])
      {
        Prefix(steps, k);
      }
      assert steps[..0] == [] && steps[1..][..0] == [];
      assert Run(s, steps[..1]) == t;
      if Inv(t) {
        RunKeepsExactly(t, steps[1..]);
        assert forall k :: 0 <= k <= |steps[1..]| ==> Run(t, steps[1..][..k]) == Run(s, steps[..k + 1]);
      }
    }
  }

  /** The KV entry of an open rotation exists, protects the record's version and still holds it. */
  ghost predicate Coupled(s: System, id: Id)
    requires id in s.rows
  {
    var r := s.rows[id].record;
    var path := PathOf(r.resource);
    && path in s.kv.entries
    && s.kv.entries[path].protectedVersion == Some(r.protectedVersion)
    && r.protectedVersion in s.kv.entries[path].versions
  }

  lemma IdleIsCoupled(s: System)
    requires Inv(s) && s.pending.Idle?
    ensures forall id :: id in s.rows && Open(s.rows[id].record.state) ==> Coupled(s, id)
  {
    forall id | id in s.rows && Open(s.rows[id].record.state)
      ensures Coupled(s, id)
    {
      assert RowOk(id, s.rows[id]) && ClaimHeld(s, id);
      assert KI.WellFormed(s.kv.entries[PathOf(s.rows[id].record.resource)]);
    }
  }

  lemma KeptIsCoupled(s: System, lost: set<Id>, id: Id)
    requires InvBut(s, lost) && s.pending.Idle? && id in s.rows && id !in lost && Open(s.rows[id].record.state)
    ensures Coupled(s, id)
  {
    var u := Without(s, lost);
    IdleIsCoupled(u);
    assert id in u.rows && Coupled(u, id);
  }

  /**
    Between commands, an open record that had not lost its protection before a step is coupled
    after it exactly when the step did not lose the protection of that very record.
   */
  lemma CouplingLostExactly(s: System, lost: set<Id>, step: Step, id: Id)
    requires InvBut(s, lost) && Next(s, step).pending.Idle?
    requires id !in lost && id in Next(s, step).rows && Open(Next(s, step).rows[id].record.state)
    ensures Coupled(Next(s, step), id) <==> !(LosesAt(s, step) && id == s.pending.command.id)
  {
    if id !in LostAfter(s, lost, step) {
      StepKeepsBut(s, lost, step);
      KeptIsCoupled(Next(s, step), LostAfter(s, lost, step), id);
    } else {
      LosingIs(s, lost);
    }
  }

  ghost predicate GenerationsWithin(kv: Kv.Catalog, n: nat) {
    forall p :: p in kv.entries ==> kv.entries[p].generation <= n + 1
  }

  lemma KeptBounds(kv: Kv.Catalog, d: Kv.Catalog, n: nat)
    requires GenerationsWithin(kv, n) && KI.Follows(kv, d)
    ensures GenerationsWithin(d, n + 1)
  {
    forall p | p in d.entries
      ensures d.entries[p].generation <= n + 2
    {
      if p in kv.entries { assert kv.entries[p].generation <= n + 1; }
    }
  }

  /** A generation moves by one a step, so a run of up to 2^64 - 3 steps uses none up. */
  lemma {:induction false} ShortRunsNeverLose(s: System, n: nat, steps: seq<Step>)
    requires Inv(s) && GenerationsWithin(s.kv, n) && n + |steps| <= U64_MAX - 2
    ensures NeverLoses(s, steps)
    decreases |steps|
  {
    if steps != [] {
      assert !LosesAt(s, steps[0]);
      StepKeeps(s, steps[0]);
      StepFollows(s, steps[0]);
      KeptBounds(s.kv, Next(s, steps[0]).kv, n);
      ShortRunsNeverLose(Next(s, steps[0]), n + 1, steps[1..]);
    }
  }

  lemma InitialInv(casRequired: bool, now: u64)
    ensures Inv(InitialSystem(casRequired, now))
    ensures GenerationsWithin(InitialSystem(casRequired, now).kv, 0)
  {
  }

  lemma {:induction false} NeverLosesNone(s: System, steps: seq<Step>, id: Id)
    requires Coherent(s.pending) && NeverLoses(s, steps)
    ensures !LosesOwn(s, steps, id)
    decreases |steps|
  {
    if steps != [] {
      NextCoherent(s, steps[0]);
      NeverLosesNone(Next(s, steps[0]), steps[1..], id);
    }
  }

  /** What a run keeps for every record whose own protection it does not lose. */
  lemma KeptByRun(s: System, steps: seq<Step>, id: Id)
    requires Inv(s) && id in Run(s, steps).rows && !LosesOwn(s, steps, id)
    ensures var t := Run(s, steps);
      && RowOk(id, t.rows[id])
      && (t.pending.Idle? && Open(t.rows[id].record.state) ==> Coupled(t, id))
  {
    var t, lost := Run(s, steps), LostIn(s, {}, steps);
    InvButNone(s);
    RunKeepsBut(s, {}, steps);
    LostExactly(s, {}, steps, id);
    assert RowOk(id, Without(t, lost).rows[id]);
    if t.pending.Idle? && Open(t.rows[id].record.state) { KeptIsCoupled(t, lost, id); }
  }

  /**
    Main safety result, with data-plane steps at any lock boundary. In every run each resource has
    at most one open rotation and every record is sound. For every record whose own protection the
    run does not lose, whatever happens to the others, the versions it names never fall, and
    between commands, if it is open, its KV entry exists, protects its version and holds it. No
    run of up to 2^64 - 3 steps loses any.
   */
  lemma ReachableSafe(casRequired: bool, now: u64, steps: seq<Step>)
    ensures var t := Run(InitialSystem(casRequired, now), steps);
      OneOpenEach(t.rows) && RowsSound(t.rows)
    ensures var s := InitialSystem(casRequired, now);
      var t := Run(s, steps);
      forall id :: id in t.rows && !LosesOwn(s, steps, id) ==>
        && RowOk(id, t.rows[id])
        && (t.pending.Idle? && Open(t.rows[id].record.state) ==> Coupled(t, id))
    ensures |steps| <= U64_MAX - 2 ==>
      forall id :: !LosesOwn(InitialSystem(casRequired, now), steps, id)
  {
    var s := InitialSystem(casRequired, now);
    var t := Run(s, steps);
    InitialInv(casRequired, now);
    RecordsRun(s, steps);
    forall id | id in t.rows && !LosesOwn(s, steps, id)
      ensures RowOk(id, t.rows[id]) && (t.pending.Idle? && Open(t.rows[id].record.state) ==> Coupled(t, id))
    {
      KeptByRun(s, steps, id);
    }
    if |steps| <= U64_MAX - 2 {
      ShortRunsNeverLose(s, 0, steps);
      forall id
        ensures !LosesOwn(s, steps, id)
      {
        NeverLosesNone(s, steps, id);
      }
    }
  }

  // ---------------------------------------------------------------- commands are runs

  function Boundary(others: seq<Kv.DataStep>): seq<Step> {
    seq(|others|, i requires 0 <= i < |others| => Elsewhere(others[i]))
  }

  /** The steps of the machine that a driven command takes. */
  function Schedule(s: System, others: seq<seq<Kv.DataStep>>): seq<Step>
    requires OnTrack(s.pending)
    decreases Remaining(s.pending)
  {
    if s.pending.Idle? then []
    else Boundary(Head(others)) + [Continue] + Schedule(Advance(Interleave(s, Head(others))), Rest(others))
  }

  lemma {:induction false} RunConcat(s: System, a: seq<Step>, b: seq<Step>)
    requires Coherent(s.pending)
    ensures Run(s, a + b) == Run(Run(s, a), b)
    decreases |a|
  {
    if a == [] {
      assert a + b == b;
    } else {
      NextCoherent(s, a[0]);
      assert (a + b)[1..] == a[1..] + b;
      RunConcat(Next(s, a[0]), a[1..], b);
    }
  }

  lemma {:induction false} BoundaryRuns(s: System, others: seq<Kv.DataStep>)
    requires Coherent(s.pending)
    ensures Run(s, Boundary(others)) == Interleave(s, others)
    decreases |others|
  {
    if others != [] {
      assert Boundary(others)[1..] == Boundary(others[1..]);
      BoundaryRuns(Next(s, Elsewhere(others[0])), others[1..]);
    }
  }

  lemma ContinueRuns(s: System)
    requires Coherent(s.pending)
    ensures Run(s, [Continue]) == Advance(s)
  {
    NextCoherent(s, Continue);
    assert [Continue][1..] == [];
  }

  lemma SectionRuns(s: System, others: seq<Kv.DataStep>, t: System, rest: seq<Step>)
    requires Coherent(s.pending) && t == Advance(Interleave(s, others)) && Coherent(t.pending)
    ensures Run(s, Boundary(others) + [Continue] + rest) == Run(t, rest)
  {
    BoundaryRuns(s, others);
    ContinueRuns(Interleave(s, others));
    RunConcat(s, Boundary(others), [Continue]);
    RunConcat(s, Boundary(others) + [Continue], rest);
  }

  /** Whatever a command method does is a run of the machine, so every result here covers it. */
  lemma {:induction false} DriveIsRun(s: System, others: seq<seq<Kv.DataStep>>)
    requires OnTrack(s.pending)
    ensures Run(s, Schedule(s, others)) == Drive(s, others)
    decreases Remaining(s.pending)
  {
    if s.pending.Running? {
      var t := Advance(Interleave(s, Head(others)));
      DriveIsRun(t, Rest(others));
      SectionRuns(s, Head(others), t, Schedule(t, Rest(others)));
    }
  }
}
