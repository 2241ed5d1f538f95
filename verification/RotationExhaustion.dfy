/** Runs of the machine from its first state in which a record does lose its protection. */
module RotationExhaustion {
  import opened Prelude
  import opened Text
  import opened Endpoints
  import opened RotationModel
  import opened RotationInvariant
  import opened RotationSteps
  import opened RotationIsolation
  import opened RotationTheorems
  import A = Adoption
  import Kv = KvModel

  const RESOURCE: Bytes := SECRET_MOUNT + [SLASH] + [0x61]
  const PATH: Bytes := [0x61]
  const DATA := Endpoint(Data, Resource(SECRET_MOUNT, [PATH]), None)
  const METADATA := Endpoint(Metadata, Resource(SECRET_MOUNT, [PATH]), None)
  const NOBODY := A.Snapshot({}, {}, {})
  const VALUE := Kv.VersionValue([0x7B, 0x7D], 1, Kv.Live, None)

  const BEGIN := Begin(Caller(1, 1, true, None), 1, RESOURCE, NOBODY, 1)
  const REFRESH := Refresh(Caller(1, 2, true, None), 1, 1, NOBODY, 1)
  const CANCEL := Cancel(Caller(1, 2, true, None), 1, 1, 1, [0x61])

  function WriteStep(): Step {
    Elsewhere(Kv.DoWrite(1, DATA, true, Kv.Secret([0x7B, 0x7D], true), None))
  }

  /** A metadata update that sets nothing still counts as a change of the entry. */
  function TouchStep(): Step {
    Elsewhere(Kv.DoUpdateMetadata(1, METADATA, true, Kv.MetadataUpdate(None, None, true, None, true)))
  }

  lemma ResourceIs()
    ensures EndpointFor(RESOURCE) == Some(DATA) && PathOf(RESOURCE) == PATH
    ensures LogicalPath(DATA.resource) == PATH && LogicalPath(METADATA.resource) == PATH
  {
    var parts := [SECRET_MOUNT, PATH];
    assert parts[1..] == [PATH];
    assert Join(parts, SLASH) == RESOURCE;
    SplitJoin(parts, SLASH);
  }

  // ---------------------------------------------------------------- one rotation

  /** The entry at `generation`, after one write or after two. */
  function Once(generation: u64, protection: Option<u64>): Kv.Entry {
    Kv.Entry(generation, 1, map[1 := VALUE], None, None, protection, true, false, map[])
  }

  function Twice(generation: u64, protection: Option<u64>): Kv.Entry {
    Kv.Entry(generation, 2, map[1 := VALUE, 2 := VALUE], None, None, protection, true, false, map[])
  }

  /** The store has the one entry `e`, and only request 1 has been spent. */
  ghost predicate Stands(s: System, e: Kv.Entry, rows: map<Id, Row>, pending: Pending) {
    && s.kv.entries == map[PATH := e] && s.kv.now == 1 && !s.kv.casRequired && s.kv.maxVersions == 10
    && s.rows == rows && s.pending == pending && s.completed <= {(1, CreateClass, 1)}
  }

  /** The rotation that `BEGIN` starts, prepared at version 1. */
  function Row1(): Row {
    Row(Record(1, RESOURCE, Prepared, NOBODY, 1, 1, None, 1, 1, None, [Transition(Prepared, 1, 1)]), 1)
  }

  function Begun(pc: Pc): Pending { Running(BEGIN, DATA, None, pc) }

  lemma FirstWrite(s: System)
    requires s == InitialSystem(false, 1)
    ensures Stands(Next(s, WriteStep()), Once(2, None), map[], Idle) && Next(s, WriteStep()).completed == {}
  {
    ResourceIs();
    assert Kv.Append(Kv.NewEntry(), [0x7B, 0x7D], 1).0 == Once(2, None);
    assert |map[1 := VALUE]| == 1;
  }

  lemma SecondWrite(s: System)
    requires Stands(s, Once(3, Some(1)), map[1 := Row1()], Idle)
    ensures Stands(Next(s, WriteStep()), Twice(4, Some(1)), map[1 := Row1()], Idle)
  {
    ResourceIs();
    assert Kv.Append(Once(3, Some(1)), [0x7B, 0x7D], 1).0 == Twice(4, Some(1));
    assert |map[1 := VALUE, 2 := VALUE]| == 2;
  }

  lemma BeginGoes(s: System)
    requires Stands(s, Once(2, None), map[], Idle) && s.completed == {}
    ensures Stands(Next(s, Issue(BEGIN)), Once(2, None), map[], Begun(AtSnapshot))
  {
    ResourceIs();
    assert SnapshotOk(NOBODY);
  }

  lemma BeginLooks(s: System)
    requires Stands(s, Once(2, None), map[], Begun(AtSnapshot))
    ensures Stands(Next(s, Continue), Once(2, None), map[], Begun(AtProtect(1)))
  {
    ResourceIs();
  }

  lemma BeginProtects(s: System)
    requires Stands(s, Once(2, None), map[], Begun(AtProtect(1)))
    ensures Stands(Next(s, Continue), Once(3, Some(1)), map[], Begun(AtInstall(1)))
  {
    ResourceIs();
    ProtectShape(s.kv, DATA, 1);
  }

  lemma BeginInstalls(s: System)
    requires Stands(s, Once(3, Some(1)), map[], Begun(AtInstall(1)))
    ensures Stands(Next(s, Continue), Once(3, Some(1)), map[1 := Row1()], Idle)
  {
    ResourceIs();
    assert SnapshotOk(NOBODY);
    assert Replacement(BEGIN, None, 1) == Row1().record;
  }

  lemma Unroll(s: System, step: Step, rest: seq<Step>)
    requires Coherent(s.pending) && Coherent(Next(s, step).pending)
    ensures Run(s, [step] + rest) == Run(Next(s, step), rest)
  {
    assert ([step] + rest)[1..] == rest;
  }

  const OPENING: seq<Step> := [WriteStep(), Issue(BEGIN), Continue, Continue, Continue, WriteStep()]

  lemma Opens(s: System)
    requires s == InitialSystem(false, 1)
    ensures Stands(Run(s, OPENING), Twice(4, Some(1)), map[1 := Row1()], Idle)
  {
    var a := Next(s, WriteStep());
    FirstWrite(s);
    var b := Next(a, Issue(BEGIN));
    BeginGoes(a);
    var c := Next(b, Continue);
    BeginLooks(b);
    var d := Next(c, Continue);
    BeginProtects(c);
    var e := Next(d, Continue);
    BeginInstalls(d);
    SecondWrite(e);
    OpeningIs(s, a, b, c, d, e);
  }

  lemma OpeningIs(s: System, a: System, b: System, c: System, d: System, e: System)
    requires Coherent(s.pending) && Coherent(a.pending) && Coherent(b.pending) && Coherent(c.pending)
    requires Coherent(d.pending) && Coherent(e.pending) && Coherent(Next(e, WriteStep()).pending)
    requires a == Next(s, WriteStep()) && b == Next(a, Issue(BEGIN)) && c == Next(b, Continue)
    requires d == Next(c, Continue) && e == Next(d, Continue)
    ensures Run(s, OPENING) == Next(e, WriteStep())
  {
    var last := [WriteStep()];
    Unroll(e, WriteStep(), []);
    assert [WriteStep()] + [] == last;
    Unroll(d, Continue, last);
    Unroll(c, Continue, [Continue] + last);
    Unroll(b, Continue, [Continue] + ([Continue] + last));
    Unroll(a, Issue(BEGIN), [Continue] + ([Continue] + ([Continue] + last)));
    Unroll(s, WriteStep(), [Issue(BEGIN)] + ([Continue] + ([Continue] + ([Continue] + last))));
    assert OPENING == [WriteStep()] + ([Issue(BEGIN)] + ([Continue] + ([Continue] + ([Continue] + last))));
  }

  // ---------------------------------------------------------------- using the generations up

  function Touches(n: nat): seq<Step> { seq(n, _ => TouchStep()) }

  lemma Touch(s: System, generation: u64)
    requires generation < U64_MAX && Stands(s, Twice(generation, Some(1)), map[1 := Row1()], Idle)
    ensures Stands(Next(s, TouchStep()), Twice(generation + 1, Some(1)), map[1 := Row1()], Idle)
  {
    ResourceIs();
  }

  lemma {:induction false} TouchMany(s: System, generation: u64, n: nat)
    requires generation + n <= U64_MAX && Stands(s, Twice(generation, Some(1)), map[1 := Row1()], Idle)
    ensures Stands(Run(s, Touches(n)), Twice(generation + n, Some(1)), map[1 := Row1()], Idle)
    decreases n
  {
    if n > 0 {
      Touch(s, generation);
      assert Touches(n)[1..] == Touches(n - 1);
      TouchMany(Next(s, TouchStep()), generation + 1, n - 1);
    }
  }

  /** One rotation is prepared, its secret is written again, and its metadata is touched 2^64 - 5 times. */
  function UsingUp(): seq<Step> { OPENING + Touches(U64_MAX - 4) }

  lemma UsedUp()
    ensures Stands(Run(InitialSystem(false, 1), UsingUp()), Twice(U64_MAX, Some(1)), map[1 := Row1()], Idle)
  {
    var s := InitialSystem(false, 1);
    Opens(s);
    TouchMany(Run(s, OPENING), 4, U64_MAX - 4);
    RunConcat(s, OPENING, Touches(U64_MAX - 4));
  }

  // ---------------------------------------------------------------- losing

  lemma RefreshRuns(s: System)
    requires Stands(s, Twice(U64_MAX, Some(1)), map[1 := Row1()], Idle)
    ensures var t := Next(s, Issue(REFRESH));
      Stands(t, Twice(U64_MAX, Some(1)), map[1 := Row1()], Running(REFRESH, DATA, Some(Row1()), AtSnapshot))
  {
    ResourceIs();
    assert SnapshotOk(NOBODY);
  }

  lemma RefreshLooks(s: System)
    requires Stands(s, Twice(U64_MAX, Some(1)), map[1 := Row1()], Running(REFRESH, DATA, Some(Row1()), AtSnapshot))
    ensures var t := Next(s, Continue);
      Stands(t, Twice(U64_MAX, Some(1)), map[1 := Row1()], Running(REFRESH, DATA, Some(Row1()), AtProtect(2)))
  {
    ResourceIs();
  }

  lemma RefreshFails(s: System)
    requires Stands(s, Twice(U64_MAX, Some(1)), map[1 := Row1()], Running(REFRESH, DATA, Some(Row1()), AtProtect(2)))
    ensures Loses(s) && Uncoupled(Next(s, Continue), 1)
  {
    ResourceIs();
    ProtectShape(s.kv, DATA, 2);
  }

  lemma CancelRuns(s: System)
    requires Stands(s, Twice(U64_MAX, Some(1)), map[1 := Row1()], Idle)
    ensures var t := Next(s, Issue(CANCEL));
      Stands(t, Twice(U64_MAX, Some(1)), map[1 := Row1()], Running(CANCEL, DATA, Some(Row1()), AtRelease(1)))
  {
    ResourceIs();
    assert !HasBadReason(CANCEL);
  }

  lemma CancelFails(s: System)
    requires Stands(s, Twice(U64_MAX, Some(1)), map[1 := Row1()], Running(CANCEL, DATA, Some(Row1()), AtRelease(1)))
    ensures Loses(s) && Uncoupled(Next(s, Continue), 1)
  {
    ResourceIs();
  }

  lemma {:induction false} LosesOwnConcat(s: System, a: seq<Step>, b: seq<Step>, id: Id)
    requires Coherent(s.pending) && LosesOwn(Run(s, a), b, id)
    ensures LosesOwn(s, a + b, id)
    decreases |a|
  {
    if a == [] {
      assert a + b == b;
    } else {
      NextCoherent(s, a[0]);
      assert (a + b)[1..] == a[1..] + b;
      LosesOwnConcat(Next(s, a[0]), a[1..], b, id);
    }
  }

  lemma RefreshEnds(s: System)
    requires Stands(s, Twice(U64_MAX, Some(1)), map[1 := Row1()], Idle)
    ensures LosesOwn(s, [Issue(REFRESH), Continue, Continue], 1)
    ensures Uncoupled(Run(s, [Issue(REFRESH), Continue, Continue]), 1)
  {
    RefreshRuns(s);
    var a := Next(s, Issue(REFRESH));
    RefreshLooks(a);
    var b := Next(a, Continue);
    RefreshFails(b);
    TailLoses(b);
    LosesOwnConcat(a, [Continue], [Continue], 1);
    Unroll(a, Continue, []);
    Unroll(a, Continue, [Continue]);
    LosesOwnConcat(s, [Issue(REFRESH)], [Continue] + [Continue], 1);
    Unroll(s, Issue(REFRESH), []);
    Unroll(s, Issue(REFRESH), [Continue] + [Continue]);
    assert [Issue(REFRESH)] + ([Continue] + [Continue]) == [Issue(REFRESH), Continue, Continue];
  }

  lemma TailLoses(s: System)
    requires Coherent(s.pending) && Loses(s) && s.pending.command.id == 1
    ensures LosesOwn(s, [Continue], 1) && Run(s, [Continue]) == Next(s, Continue)
  {
    ContinueRuns(s);
  }

  lemma CancelEnds(s: System)
    requires Stands(s, Twice(U64_MAX, Some(1)), map[1 := Row1()], Idle)
    ensures LosesOwn(s, [Issue(CANCEL), Continue], 1)
    ensures Uncoupled(Run(s, [Issue(CANCEL), Continue]), 1)
  {
    CancelRuns(s);
    var a := Next(s, Issue(CANCEL));
    CancelFails(a);
    TailLoses(a);
    LosesOwnConcat(s, [Issue(CANCEL)], [Continue], 1);
    Unroll(s, Issue(CANCEL), []);
    Unroll(s, Issue(CANCEL), [Continue]);
    assert [Issue(CANCEL)] + [Continue] == [Issue(CANCEL), Continue];
  }

  /** A refresh can lose its record's protection, in a run from the first state. */
  lemma RefreshCanLose()
    ensures var steps := UsingUp() + [Issue(REFRESH), Continue, Continue];
      && LosesOwn(InitialSystem(false, 1), steps, 1)
      && Uncoupled(Run(InitialSystem(false, 1), steps), 1)
  {
    UsedUp();
    RefreshEnds(Run(InitialSystem(false, 1), UsingUp()));
    RunConcat(InitialSystem(false, 1), UsingUp(), [Issue(REFRESH), Continue, Continue]);
    LosesOwnConcat(InitialSystem(false, 1), UsingUp(), [Issue(REFRESH), Continue, Continue], 1);
  }

  /** So can a cancel. */
  lemma CancelCanLose()
    ensures var steps := UsingUp() + [Issue(CANCEL), Continue];
      && LosesOwn(InitialSystem(false, 1), steps, 1)
      && Uncoupled(Run(InitialSystem(false, 1), steps), 1)
  {
    UsedUp();
    CancelEnds(Run(InitialSystem(false, 1), UsingUp()));
    RunConcat(InitialSystem(false, 1), UsingUp(), [Issue(CANCEL), Continue]);
    LosesOwnConcat(InitialSystem(false, 1), UsingUp(), [Issue(CANCEL), Continue], 1);
  }
}
