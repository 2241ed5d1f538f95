/** Bounds of the clock over arbitrary runs. */
module ClockTheorems {
  import opened Prelude
  import opened ClockModel

  /** A freshly booted clock. */
  ghost predicate Booted(w: World, reading: Reading, mark: u64) {
    && w.issued == [] && !w.durable
    && exists allow, accepts :: Boot(reading, mark, allow, accepts) == Ok(w.clock)
  }

  /** Boot succeeds exactly when the mark is close enough, or ahead by at most a day and overridden on record. */
  lemma BootExact(reading: Reading, mark: u64, allow: bool, accepts: bool)
    ensures Boot(reading, mark, allow, accepts).Ok? <==>
      mark <= reading.wall + CLOCK_TOLERANCE
      || (mark <= reading.wall + MAX_PLAUSIBLE_FUTURE_MARK && allow && accepts)
  {
  }

  /** Where a boot starts from, and why one is refused. */
  lemma BootsAt(reading: Reading, mark: u64, allow: bool, accepts: bool)
    ensures match Boot(reading, mark, allow, accepts)
      case Ok(c) =>
        && c.anchorWall == reading.wall && c.anchorMonotonic == reading.monotonic
        && c.effective == (if mark > reading.wall then mark else reading.wall) && c.persisted == mark
        && c.safety == Ready && c.agreementSince == None
        && c.lastDurable == reading.monotonic && c.pending == None
      case Err(e) =>
        && (e == PersistedMarkImplausiblyAhead <==> mark > reading.wall + 86_400)
        && (e == BehindPersistedMark <==> reading.wall + 2 < mark <= reading.wall + 86_400 && !allow)
        && (e == OverrideAuditFailed <==> reading.wall + 2 < mark <= reading.wall + 86_400 && allow)
  {
  }

  // ---------------------------------------------------------------- what one call does

  /** What the monotonic clock says the wall should show. */
  ghost function Vouched(c: Clock, monotonic: Duration): nat
    requires monotonic >= c.anchorMonotonic
  {
    var shown := c.anchorWall + (monotonic - c.anchorMonotonic) / 1_000_000_000;
    if shown > U64_MAX then U64_MAX else shown
  }

  /** The monotonic clock has not gone back, and the wall is within two seconds of what it vouches for. */
  ghost predicate Agrees(c: Clock, r: Reading) {
    r.monotonic >= c.anchorMonotonic && r.wall <= Vouched(c, r.monotonic) + 2 && Vouched(c, r.monotonic) <= r.wall + 2
  }

  /** A reading is an anomaly exactly when it does not agree, and which one tells how. */
  lemma AnomalyExact(c: Clock, r: Reading)
    ensures AnomalyOf(c, r) == Some(MonotonicRegressed) <==> r.monotonic < c.anchorMonotonic
    ensures AnomalyOf(c, r) == Some(WallBehind) <==>
      r.monotonic >= c.anchorMonotonic && r.wall + 2 < Vouched(c, r.monotonic)
    ensures AnomalyOf(c, r) == Some(WallAhead) <==>
      r.monotonic >= c.anchorMonotonic && Vouched(c, r.monotonic) + 2 < r.wall
    ensures AnomalyOf(c, r) == None <==> Agrees(c, r)
  {
  }

  /** The effective time after a reading: never back, never past what is vouched for by more than the tolerance. */
  ghost function Lifted(c: Clock, r: Reading): nat {
    if r.monotonic < c.anchorMonotonic then c.effective
    else
      var vouched := Vouched(c, r.monotonic);
      var told := if Agrees(c, r) && r.wall > vouched then r.wall else vouched;
      if told > c.effective then told else c.effective
  }

  /**
    A disagreeing reading makes the clock unsafe and stops its timer. An agreeing one leaves a
    ready clock ready; otherwise the clock is ready again exactly ten seconds of agreement after
    the first, and recovering until then.
   */
  lemma ObserveExact(c: Clock, r: Reading)
    ensures var d := Observe(c, r);
      && d == c.(effective := d.effective, safety := d.safety, agreementSince := d.agreementSince)
      && d.effective == Lifted(c, r)
      && (!Agrees(c, r) <==> d.safety == Unsafe)
      && (!Agrees(c, r) ==> d.agreementSince == None)
      && (Agrees(c, r) && c.safety == Ready ==> d.safety == Ready && d.agreementSince == c.agreementSince)
      && (Agrees(c, r) && c.safety != Ready ==>
            var since := if c.agreementSince == None then r.monotonic else c.agreementSince.value;
            && (d.safety == Ready <==> r.monotonic >= since + 10_000_000_000)
            && (d.safety == Ready ==> d.agreementSince == None)
            && (d.safety != Ready ==> d.safety == Recovering && d.agreementSince == Some(since)))
  {
    AnomalyExact(c, r);
  }

  /** A watermark is issued exactly by a ready clock, for its effective time and a tenth of a second from now. */
  lemma CommandExact(c: Clock, kind: WatermarkKind, now: Duration)
    ensures match Command(c, kind, now)
      case Err(e) => c.safety != Ready && e == ClockUnsafe
      case Ok(m) =>
        && c.safety == Ready && m.expected == c.persisted && m.effective == c.effective && m.kind == kind
        && m.issuedAt == now
        && m.replacement == (if c.effective > c.persisted then c.effective else c.persisted)
        && m.deadline == (if now + 100_000_000 > U64_MAX * 1_000_000_000 + 999_999_999
                          then U64_MAX * 1_000_000_000 + 999_999_999 else now + 100_000_000)
  {
  }

  /** A checkpoint past its deadline makes the clock unsafe; nothing else does here. */
  lemma PollExact(c: Clock, now: Duration)
    ensures var (d, r) := Poll(c, now);
      if c.pending.Some? && now > c.pending.value.deadline
      then d == c.(safety := Unsafe) && r == Err(PersistenceFailed)
      else d == c && r == Ok(())
  {
  }

  /** One checkpoint at a time, thirty seconds after the last durable mark. */
  lemma IdleExact(c: Clock, now: Duration)
    ensures var (d, r) := IdleCheckpoint(c, now);
      && (r == Err(PersistenceFailed) <==> c.pending.Some? && now > c.pending.value.deadline)
      && (r == Ok(Coalesced) <==> c.pending.Some? && now <= c.pending.value.deadline)
      && (r == Ok(NotDue) <==> c.pending.None? && now < c.lastDurable + 30_000_000_000)
      && (r == Err(ClockUnsafe) <==> c.pending.None? && now >= c.lastDurable + 30_000_000_000 && c.safety != Ready)
      && (r.Ok? && r.value.Submit? <==> c.pending.None? && now >= c.lastDurable + 30_000_000_000 && c.safety == Ready)
      && (r.Ok? && r.value.Submit? ==>
            && Command(c, IdleCheckpointKind, now) == Ok(r.value.command)
            && d == c.(pending := Some(r.value.command)))
      && (r == Err(PersistenceFailed) ==> d == c.(safety := Unsafe))
      && ((r.Ok? && !r.value.Submit?) || r == Err(ClockUnsafe) ==> d == c)
  {
  }

  /** The command was issued for the mark as it stands, and an idle one is the one still awaited. */
  predicate Current(c: Clock, m: Watermark) {
    && m.expected == c.persisted && m.replacement >= c.persisted
    && (m.kind == IdleCheckpointKind ==> c.pending == Some(m))
  }

  /** A commit counts exactly when its command is current; every other completion makes the clock unsafe. */
  lemma CompleteExact(c: Clock, m: Watermark, committed: bool)
    ensures var (d, r) := CompleteWatermark(c, m, committed);
      && (r == Ok(()) <==> Current(c, m) && committed)
      && (r == Err(StaleCommand) <==> !Current(c, m))
      && (r == Err(PersistenceFailed) <==> Current(c, m) && !committed)
      && (r.Err? ==> d == c.(safety := Unsafe))
      && (r.Ok? ==>
            && d == c.(persisted := m.replacement, lastDurable := m.issuedAt, pending := d.pending)
            && d.pending == (if c.pending.Some? && c.pending.value.replacement > m.replacement then c.pending else None))
  {
  }

  // ---------------------------------------------------------------- nothing regresses

  ghost predicate SameAnchor(c: Clock, d: Clock) {
    d.anchorWall == c.anchorWall && d.anchorMonotonic == c.anchorMonotonic
  }

  ghost predicate Sound(w: World) {
    && w.clock.persisted <= w.clock.effective
    && (forall i :: 0 <= i < |w.issued| ==> w.issued[i].replacement <= w.clock.effective)
  }

  lemma StepNeverRegresses(w: World, step: Step)
    requires Sound(w)
    ensures var v := Next(w, step);
      && Sound(v) && SameAnchor(w.clock, v.clock)
      && w.clock.effective <= v.clock.effective && w.clock.persisted <= v.clock.persisted
      && w.issued <= v.issued && (w.durable ==> v.durable)
      && (!step.Observed? ==> v.clock.effective == w.clock.effective)
  {
  }

  /** The largest whole number of seconds any reading of the run is past the anchor. */
  function LargestElapsed(anchor: Duration, steps: seq<Step>): nat {
    if steps == [] then 0
    else
      var rest := LargestElapsed(anchor, steps[1..]);
      if steps[0].Observed? && steps[0].reading.monotonic >= anchor
      then Max(Seconds(steps[0].reading.monotonic - anchor), rest)
      else rest
  }

  /** No reading can lift effective time beyond what the monotonic clock vouches for. */
  lemma StepCeiling(w: World, step: Step, top: nat)
    requires w.clock.effective <= top
    requires step.Observed? && step.reading.monotonic >= w.clock.anchorMonotonic ==>
      w.clock.anchorWall + Seconds(step.reading.monotonic - w.clock.anchorMonotonic) + CLOCK_TOLERANCE <= top
    ensures Next(w, step).clock.effective <= top
  {
  }

  lemma {:induction false} RunCeiling(w: World, steps: seq<Step>, top: nat)
    requires Sound(w) && w.clock.effective <= top
    requires w.clock.anchorWall + LargestElapsed(w.clock.anchorMonotonic, steps) + CLOCK_TOLERANCE <= top
    ensures var v := Run(w, steps);
      && Sound(v)
      && w.clock.effective <= v.clock.effective <= top && w.clock.persisted <= v.clock.persisted
    decreases |steps|
  {
    if steps != [] {
      StepNeverRegresses(w, steps[0]);
      StepCeiling(w, steps[0], top);
      RunCeiling(Next(w, steps[0]), steps[1..], top);
    }
  }

  /**
    Over every run of issued commands and arbitrary readings, effective and durable time never
    fall, durable time never passes effective time, and effective time stays below the boot mark
    or what the monotonic clock accounts for: no jump of the wall clock can poison the mark.
   */
  lemma NeverRegressesOrPoisons(w: World, reading: Reading, mark: u64, steps: seq<Step>)
    requires Booted(w, reading, mark)
    ensures var v := Run(w, steps);
      && w.clock.effective <= v.clock.effective && w.clock.persisted <= v.clock.persisted
      && v.clock.persisted <= v.clock.effective
      && v.clock.effective <= Max(mark, reading.wall + LargestElapsed(reading.monotonic, steps) + CLOCK_TOLERANCE)
  {
    RunCeiling(w, steps, Max(mark, reading.wall + LargestElapsed(reading.monotonic, steps) + CLOCK_TOLERANCE));
  }

  // ---------------------------------------------------------------- the restart bound

  /** Readings never run backwards and commands are issued at the latest one. */
  ghost predicate Disciplined(latest: Duration, steps: seq<Step>)
    decreases |steps|
  {
    steps != [] ==>
      match steps[0]
      case Observed(r) => r.monotonic >= latest && Disciplined(r.monotonic, steps[1..])
      case Issued(_, now) => now == latest && Disciplined(latest, steps[1..])
      case Idled(now) => now == latest && Disciplined(latest, steps[1..])
      case _ => Disciplined(latest, steps[1..])
  }

  function LatestAfter(latest: Duration, steps: seq<Step>): Duration
    decreases |steps|
  {
    if steps == [] then latest
    else LatestAfter(if steps[0].Observed? then steps[0].reading.monotonic else latest, steps[1..])
  }

  /** A command covers everything the monotonic clock accounted for when it was issued. */
  ghost predicate Covers(c: Clock, m: Watermark, latest: Duration) {
    c.anchorMonotonic <= m.issuedAt <= latest && ExpectedWall(c, m.issuedAt) <= m.replacement
  }

  ghost predicate Tight(w: World, latest: Duration) {
    var c := w.clock;
    && Sound(w)
    && c.anchorMonotonic <= latest
    && ExpectedWall(c, latest) <= c.effective
    && c.effective <= Max(c.persisted, ExpectedWall(c, latest) + CLOCK_TOLERANCE)
    && (forall i :: 0 <= i < |w.issued| ==> Covers(c, w.issued[i], latest))
    && (w.durable ==> c.anchorMonotonic <= c.lastDurable <= latest && ExpectedWall(c, c.lastDurable) <= c.persisted)
  }

  lemma ExpectedGrows(c: Clock, d: Clock, a: Duration, b: Duration)
    requires SameAnchor(c, d) && c.anchorMonotonic <= a <= b
    ensures ExpectedWall(c, a) <= ExpectedWall(d, b)
  {
    assert (a - c.anchorMonotonic) / SECOND <= (b - c.anchorMonotonic) / SECOND;
  }

  lemma ObserveTight(w: World, latest: Duration, r: Reading)
    requires Tight(w, latest) && r.monotonic >= latest
    ensures Tight(Next(w, Observed(r)), r.monotonic)
  {
    var v := Next(w, Observed(r));
    StepNeverRegresses(w, Observed(r));
    ExpectedGrows(w.clock, w.clock, latest, r.monotonic);
    forall i | 0 <= i < |v.issued|
      ensures Covers(v.clock, v.issued[i], r.monotonic)
    {
      assert Covers(w.clock, w.issued[i], latest);
      ExpectedGrows(w.clock, v.clock, w.issued[i].issuedAt, w.issued[i].issuedAt);
    }
  }

  lemma CompleteTight(w: World, latest: Duration, which: nat, committed: bool)
    requires Tight(w, latest)
    ensures Tight(Next(w, Completed(which, committed)), latest)
  {
    var v := Next(w, Completed(which, committed));
    StepNeverRegresses(w, Completed(which, committed));
    if which < |w.issued| { assert Covers(w.clock, w.issued[which], latest); }
    forall i | 0 <= i < |v.issued|
      ensures Covers(v.clock, v.issued[i], latest)
    {
      assert Covers(w.clock, w.issued[i], latest);
    }
  }

  lemma OtherTight(w: World, latest: Duration, step: Step)
    requires Tight(w, latest) && !step.Observed? && !step.Completed?
    requires step.Issued? || step.Idled? ==> step.now == latest
    ensures Tight(Next(w, step), latest)
  {
    var v := Next(w, step);
    StepNeverRegresses(w, step);
    forall i | 0 <= i < |v.issued|
      ensures Covers(v.clock, v.issued[i], latest)
    {
      if i < |w.issued| { assert Covers(w.clock, w.issued[i], latest); }
    }
  }

  lemma {:induction false} RunTight(w: World, latest: Duration, steps: seq<Step>)
    requires Tight(w, latest) && Disciplined(latest, steps)
    ensures Tight(Run(w, steps), LatestAfter(latest, steps))
    decreases |steps|
  {
    if steps != [] {
      match steps[0]
      case Observed(r) =>
        ObserveTight(w, latest, r);
        RunTight(Next(w, steps[0]), r.monotonic, steps[1..]);
      case Completed(which, committed) =>
        CompleteTight(w, latest, which, committed);
        RunTight(Next(w, steps[0]), latest, steps[1..]);
      case _ =>
        OtherTight(w, latest, steps[0]);
        RunTight(Next(w, steps[0]), latest, steps[1..]);
    }
  }

  lemma ShortGap(a: nat, b: nat)
    requires a <= b < a + 30 * SECOND
    ensures b / SECOND <= a / SECOND + 30
  {
  }

  /**
    After a first committed watermark, whenever the idle checkpoint at the latest reading says
    nothing is due, a restart would lose at most 32 seconds: inside the declared 32.1.
   */
  lemma RestartBound(w: World, reading: Reading, mark: u64, steps: seq<Step>)
    requires Booted(w, reading, mark) && Disciplined(reading.monotonic, steps)
    requires var v := Run(w, steps);
      v.durable && IdleCheckpoint(v.clock, LatestAfter(reading.monotonic, steps)).1 == Ok(NotDue)
    ensures var c := Run(w, steps).clock;
      && c.effective - c.persisted <= 32
      && (c.effective - c.persisted) * SECOND <= MAX_RESTART_TTL_EXTENSION
  {
    var latest := LatestAfter(reading.monotonic, steps);
    RunTight(w, reading.monotonic, steps);
    var c := Run(w, steps).clock;
    ShortGap(c.lastDurable - c.anchorMonotonic, latest - c.anchorMonotonic);
  }

  /** Until a commit, neither the durable mark nor its time moves. */
  lemma {:induction false} UncommittedStays(w: World, steps: seq<Step>)
    requires !Run(w, steps).durable
    ensures !w.durable && Run(w, steps).clock.persisted == w.clock.persisted
            && Run(w, steps).clock.lastDurable == w.clock.lastDurable
    decreases |steps|
  {
    if steps != [] {
      UncommittedStays(Next(w, steps[0]), steps[1..]);
    }
  }

  /** Seconds the monotonic clock can still count before a checkpoint of a new clock falls due. */
  function Unchecked(monotonic: Duration): nat {
    Min(29, (U64_MAX * SECOND + 999_999_999 - monotonic) / SECOND)
  }

  /** The furthest a new clock can be taken before its first checkpoint falls due. */
  function Reach(reading: Reading): u64 {
    SaturatingAdd(reading.wall, Unchecked(reading.monotonic) + CLOCK_TOLERANCE)
  }

  lemma UncheckedSeconds(from: Duration, to: Duration)
    requires from <= to < from + IDLE_CHECKPOINT_INTERVAL
    ensures Seconds(to - from) <= Unchecked(from)
  {
    assert (to - from) / SECOND <= (U64_MAX * SECOND + 999_999_999 - from) / SECOND;
  }

  /** Before the first commit the gap is at most what the clock can reach past the mark it booted on. */
  lemma UncommittedBound(w: World, reading: Reading, mark: u64, steps: seq<Step>)
    requires Booted(w, reading, mark) && Disciplined(reading.monotonic, steps)
    requires var v := Run(w, steps);
      !v.durable && IdleCheckpoint(v.clock, LatestAfter(reading.monotonic, steps)).1 == Ok(NotDue)
    ensures var c := Run(w, steps).clock;
      c.persisted == mark && c.effective - c.persisted <= SaturatingSub(Reach(reading), mark)
  {
    var latest := LatestAfter(reading.monotonic, steps);
    RunTight(w, reading.monotonic, steps);
    UncommittedStays(w, steps);
    RunKeepsAnchor(w, steps);
    UncheckedSeconds(reading.monotonic, latest);
  }

  lemma {:induction false} RunKeepsAnchor(w: World, steps: seq<Step>)
    ensures SameAnchor(w.clock, Run(w, steps).clock)
    decreases |steps|
  {
    if steps != [] { RunKeepsAnchor(Next(w, steps[0]), steps[1..]); }
  }

  /**
    In every run, committed or not, whenever the idle checkpoint at the latest reading says nothing
    is due, the gap is at most 32 seconds more than the boot wall was ahead of the mark.
   */
  lemma GapBound(w: World, reading: Reading, mark: u64, steps: seq<Step>)
    requires Booted(w, reading, mark) && Disciplined(reading.monotonic, steps)
    requires IdleCheckpoint(Run(w, steps).clock, LatestAfter(reading.monotonic, steps)).1 == Ok(NotDue)
    ensures var c := Run(w, steps).clock; c.effective - c.persisted <= 32 + SaturatingSub(reading.wall, mark)
  {
    if Run(w, steps).durable {
      RestartBound(w, reading, mark, steps);
    } else {
      UncommittedBound(w, reading, mark, steps);
    }
  }

  /** The bound of 32 seconds holds of this run, if it ends uncommitted with nothing due. */
  ghost predicate Within(w: World, reading: Reading, steps: seq<Step>) {
    var v := Run(w, steps);
    (&& Disciplined(reading.monotonic, steps) && !v.durable
     && IdleCheckpoint(v.clock, LatestAfter(reading.monotonic, steps)).1 == Ok(NotDue)) ==>
      v.clock.effective - v.clock.persisted <= 32
  }

  /** One agreeing reading, as late and as far ahead as both may be, takes a new clock to its reach. */
  lemma ReachIsReached(w: World, reading: Reading, mark: u64)
    requires Booted(w, reading, mark)
    ensures var far := Reading(Reach(reading), reading.monotonic + Unchecked(reading.monotonic) * SECOND);
      var v := Run(w, [Observed(far)]);
      && Disciplined(reading.monotonic, [Observed(far)]) && LatestAfter(reading.monotonic, [Observed(far)]) == far.monotonic
      && !v.durable && IdleCheckpoint(v.clock, far.monotonic).1 == Ok(NotDue)
      && v.clock.effective == Max(mark, Reach(reading)) && v.clock.persisted == mark
  {
    var far := Reading(Reach(reading), reading.monotonic + Unchecked(reading.monotonic) * SECOND);
    assert [Observed(far)][1..] == [];
    assert Seconds(far.monotonic - reading.monotonic) == Unchecked(reading.monotonic);
    assert AnomalyOf(w.clock, far).None?;
  }

  /**
    Exactly the boots whose reach is at most 32 seconds past the mark keep the restart bound before
    a first commit; away from the ends of the ranges, those are the boots with wall <= mark + 1.
   */
  lemma UncommittedBoundExactly(w: World, reading: Reading, mark: u64)
    requires Booted(w, reading, mark)
    ensures (forall steps :: Within(w, reading, steps)) <==> Reach(reading) <= mark + 32
    ensures reading.wall + 31 <= U64_MAX && Unchecked(reading.monotonic) == 29 ==>
      (Reach(reading) <= mark + 32 <==> reading.wall <= mark + 1)
  {
    ReachIsReached(w, reading, mark);
    var far := Reading(Reach(reading), reading.monotonic + Unchecked(reading.monotonic) * SECOND);
    if Reach(reading) > mark + 32 {
      assert !Within(w, reading, [Observed(far)]);
    } else {
      forall steps
        ensures Within(w, reading, steps)
      {
        var v := Run(w, steps);
        if Disciplined(reading.monotonic, steps) && !v.durable
           && IdleCheckpoint(v.clock, LatestAfter(reading.monotonic, steps)).1 == Ok(NotDue)
        {
          UncommittedBound(w, reading, mark, steps);
        }
      }
    }
  }

  // ---------------------------------------------------------------- settling

  /** An agreeing reading at time `m`, with only agreeing readings from there to the end. */
  ghost predicate AgreementFrom(c: Clock, done: seq<Step>, i: int, m: Duration) {
    && 0 <= i < |done| && done[i].Observed? && done[i].reading.monotonic == m
    && forall j :: i <= j < |done| && done[j].Observed? ==> Agrees(c, done[j].reading)
  }

  /** A running timer marks the start of an unbroken agreement; a ready clock runs none. */
  ghost predicate TimerOk(w: World, done: seq<Step>) {
    && (w.clock.safety == Ready ==> w.clock.agreementSince.None?)
    && (w.clock.agreementSince.Some? ==>
          exists i :: AgreementFrom(w.clock, done, i, w.clock.agreementSince.value))
  }

  lemma AgreementExtends(c: Clock, d: Clock, done: seq<Step>, i: int, m: Duration, step: Step)
    requires AgreementFrom(c, done, i, m) && SameAnchor(c, d)
    requires step.Observed? ==> Agrees(c, step.reading)
    ensures AgreementFrom(d, done + [step], i, m)
  {
  }

  /** Only observations touch the timer: a persistence failure does not restart it. */
  lemma OnlyObservationsTouchTimer(w: World, step: Step)
    requires !step.Observed?
    ensures Next(w, step).clock.agreementSince == w.clock.agreementSince
    ensures Next(w, step).clock.safety == w.clock.safety || Next(w, step).clock.safety == Unsafe
    ensures SameAnchor(w.clock, Next(w, step).clock)
  {
  }

  lemma TimerStep(w: World, done: seq<Step>, step: Step)
    requires TimerOk(w, done)
    ensures TimerOk(Next(w, step), done + [step])
  {
    var v := Next(w, step);
    if !step.Observed? { OnlyObservationsTouchTimer(w, step); }
    if v.clock.agreementSince.Some? {
      var m := v.clock.agreementSince.value;
      if w.clock.agreementSince.Some? {
        var i :| AgreementFrom(w.clock, done, i, w.clock.agreementSince.value);
        AgreementExtends(w.clock, v.clock, done, i, m, step);
      } else {
        assert AgreementFrom(v.clock, done + [step], |done|, m);
      }
    }
  }

  lemma {:induction false} TimerRun(w: World, done: seq<Step>, steps: seq<Step>)
    requires TimerOk(w, done)
    ensures TimerOk(Run(w, steps), done + steps)
    decreases |steps|
  {
    if steps == [] {
      assert done + steps == done;
    } else {
      TimerStep(w, done, steps[0]);
      TimerRun(Next(w, steps[0]), done + [steps[0]], steps[1..]);
      assert done + [steps[0]] + steps[1..] == done + steps;
    }
  }

  /**
    Every step from a state that is not ready to ready is an agreeing observation that ends an
    unbroken run of agreeing observations at least the settle period long; and a ready clock runs
    no agreement timer.
   */
  lemma ReadyOnlyAfterSettling(w: World, reading: Reading, mark: u64, steps: seq<Step>, step: Step)
    requires Booted(w, reading, mark)
    ensures var v := Run(w, steps);
      && (v.clock.safety == Ready ==> v.clock.agreementSince.None?)
      && (v.clock.safety != Ready && Next(v, step).clock.safety == Ready ==>
            && step.Observed? && Agrees(v.clock, step.reading)
            && exists i :: 0 <= i < |steps| && steps[i].Observed?
                 && AgreementFrom(v.clock, steps, i, steps[i].reading.monotonic)
                 && step.reading.monotonic >= steps[i].reading.monotonic + CLOCK_SETTLE_PERIOD)
  {
    TimerRun(w, [], steps);
    assert [] + steps == steps;
    var v := Run(w, steps);
    if v.clock.safety != Ready && Next(v, step).clock.safety == Ready {
      if !step.Observed? { OnlyObservationsTouchTimer(v, step); }
      var i :| AgreementFrom(v.clock, steps, i, v.clock.agreementSince.value);
    }
  }

  /** The clock is not ready at any point of the run, and every reading agrees. */
  ghost predicate StaysSettling(w: World, steps: seq<Step>)
    decreases |steps|
  {
    && w.clock.safety != Ready
    && (steps != [] ==>
          (steps[0].Observed? ==> Agrees(w.clock, steps[0].reading)) && StaysSettling(Next(w, steps[0]), steps[1..]))
  }

  lemma {:induction false} TimerHolds(w: World, steps: seq<Step>, since: Duration)
    requires w.clock.agreementSince == Some(since) && StaysSettling(w, steps)
    ensures Run(w, steps).clock.agreementSince == Some(since) && Run(w, steps).clock.safety != Ready
    decreases |steps|
  {
    if steps != [] {
      if steps[0].Observed? {
        ObserveExact(w.clock, steps[0].reading);
      } else {
        OnlyObservationsTouchTimer(w, steps[0]);
      }
      TimerHolds(Next(w, steps[0]), steps[1..], since);
    }
  }

  /**
    The converse: with the timer stopped, an agreeing reading and nothing but agreement after it
    make the clock ready at exactly the first reading ten seconds later, whatever else happens.
   */
  lemma SettlesExactly(w: World, first: Reading, steps: seq<Step>, last: Reading)
    requires w.clock.safety != Ready && w.clock.agreementSince == None && Agrees(w.clock, first)
    requires StaysSettling(Next(w, Observed(first)), steps)
    requires Agrees(Run(Next(w, Observed(first)), steps).clock, last)
    ensures Next(Run(Next(w, Observed(first)), steps), Observed(last)).clock.safety == Ready <==>
      last.monotonic >= first.monotonic + 10_000_000_000
  {
    ObserveExact(w.clock, first);
    TimerHolds(Next(w, Observed(first)), steps, first.monotonic);
    ObserveExact(Run(Next(w, Observed(first)), steps).clock, last);
  }
}
