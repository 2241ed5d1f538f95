/**
  The non-regressing clock as a value, and runs of it.

  A `Duration` is counted in nanoseconds with Rust's own upper limit; wall time is whole seconds.
 */
module ClockModel {
  import opened Prelude

  const SECOND: nat := 1_000_000_000

  type Duration = d: nat | d <= 0xFFFF_FFFF_FFFF_FFFF * 1_000_000_000 + 999_999_999

  const CLOCK_TOLERANCE: nat := 2
  const CLOCK_SETTLE_PERIOD: nat := 10 * SECOND
  const IDLE_CHECKPOINT_INTERVAL: nat := 30 * SECOND
  const CHECKPOINT_COMMIT_DEADLINE: nat := SECOND / 10
  const MAX_PLAUSIBLE_FUTURE_MARK: nat := 24 * 60 * 60
  const MAX_RESTART_TTL_EXTENSION: nat := 32 * SECOND + SECOND / 10

  datatype Reading = Reading(wall: u64, monotonic: Duration)

  datatype Safety = Ready | Recovering | Unsafe

  datatype Anomaly = WallBehind | WallAhead | MonotonicRegressed

  datatype ClockError =
    | BehindPersistedMark | PersistedMarkImplausiblyAhead | OverrideAuditFailed
    | ClockUnsafe | StaleCommand | PersistenceFailed

  datatype WatermarkKind = ApplicationCommit | IdleCheckpointKind | CleanShutdown

  datatype Watermark = Watermark(
    expected: u64, replacement: u64, effective: u64, kind: WatermarkKind, issuedAt: Duration, deadline: Duration)

  datatype CheckpointRequest = NotDue | Coalesced | Submit(command: Watermark)

  datatype Clock = Clock(
    anchorWall: u64,
    anchorMonotonic: Duration,
    effective: u64,
    persisted: u64,
    safety: Safety,
    agreementSince: Option<Duration>,
    lastDurable: Duration,
    pending: Option<Watermark>)

  function Seconds(d: Duration): u64 {
    assert d / SECOND <= (0xFFFF_FFFF_FFFF_FFFF * SECOND + 999_999_999) / SECOND;
    d / SECOND
  }

  /** `Duration::saturating_add`. */
  function Later(d: Duration, more: nat): Duration {
    Min(d + more, U64_MAX * SECOND + 999_999_999)
  }

  function Boot(reading: Reading, mark: u64, allowBehindOnce: bool, auditAccepts: bool)
    : Result<Clock, ClockError>
  {
    var ahead := SaturatingSub(mark, reading.wall);
    if ahead > MAX_PLAUSIBLE_FUTURE_MARK then Err(PersistedMarkImplausiblyAhead)
    else if ahead > CLOCK_TOLERANCE && !allowBehindOnce then Err(BehindPersistedMark)
    else if ahead > CLOCK_TOLERANCE && !auditAccepts then Err(OverrideAuditFailed)
    else Ok(Clock(reading.wall, reading.monotonic, Max(reading.wall, mark), mark, Ready, None,
                  reading.monotonic, None))
  }

  /** What the wall should show, by the monotonic clock. */
  function ExpectedWall(c: Clock, monotonic: Duration): u64
    requires monotonic >= c.anchorMonotonic
  {
    SaturatingAdd(c.anchorWall, Seconds(monotonic - c.anchorMonotonic))
  }

  function AnomalyOf(c: Clock, r: Reading): Option<Anomaly> {
    if r.monotonic < c.anchorMonotonic then Some(MonotonicRegressed)
    else
      var expected := ExpectedWall(c, r.monotonic);
      if r.wall + CLOCK_TOLERANCE < expected then Some(WallBehind)
      else if expected + CLOCK_TOLERANCE < r.wall then Some(WallAhead)
      else None
  }

  /** One agreeing observation of a clock that is not ready: start, keep or finish settling. */
  function Settle(c: Clock, monotonic: Duration): Clock {
    if c.safety == Ready then c
    else
      var since := if c.agreementSince.Some? then c.agreementSince.value else monotonic;
      if SaturatingSub(monotonic, since) >= CLOCK_SETTLE_PERIOD
      then c.(safety := Ready, agreementSince := None)
      else c.(safety := Recovering, agreementSince := Some(since))
  }

  function Observe(c: Clock, r: Reading): Clock {
    match AnomalyOf(c, r)
    case Some(MonotonicRegressed) => c.(safety := Unsafe, agreementSince := None)
    case Some(_) =>
      c.(effective := Max(c.effective, ExpectedWall(c, r.monotonic)), safety := Unsafe, agreementSince := None)
    case None =>
      Settle(c.(effective := Max(Max(c.effective, ExpectedWall(c, r.monotonic)), r.wall)), r.monotonic)
  }

  function Command(c: Clock, kind: WatermarkKind, now: Duration): Result<Watermark, ClockError> {
    if c.safety != Ready then Err(ClockUnsafe)
    else Ok(Watermark(c.persisted, Max(c.persisted, c.effective), c.effective, kind, now,
                      Later(now, CHECKPOINT_COMMIT_DEADLINE)))
  }

  function Poll(c: Clock, now: Duration): (Clock, Result<(), ClockError>) {
    if c.pending.Some? && now > c.pending.value.deadline
    then (c.(safety := Unsafe), Err(PersistenceFailed))
    else (c, Ok(()))
  }

  function IdleCheckpoint(c: Clock, now: Duration): (Clock, Result<CheckpointRequest, ClockError>) {
    var (polled, r) := Poll(c, now);
    if r.Err? then (polled, Err(r.error))
    else if polled.pending.Some? then (polled, Ok(Coalesced))
    else if SaturatingSub(now, polled.lastDurable) < IDLE_CHECKPOINT_INTERVAL then (polled, Ok(NotDue))
    else
      var command := Command(polled, IdleCheckpointKind, now);
      if command.Err? then (polled, Err(command.error))
      else (polled.(pending := Some(command.value)), Ok(Submit(command.value)))
  }

  function CompleteWatermark(c: Clock, command: Watermark, committed: bool): (Clock, Result<(), ClockError>) {
    if command.expected != c.persisted || command.replacement < c.persisted then
      (c.(safety := Unsafe), Err(StaleCommand))
    else if command.kind == IdleCheckpointKind && c.pending != Some(command) then
      (c.(safety := Unsafe), Err(StaleCommand))
    else if !committed then (c.(safety := Unsafe), Err(PersistenceFailed))
    else
      (c.(persisted := command.replacement,
          lastDurable := command.issuedAt,
          pending := if c.pending.Some? && c.pending.value.replacement <= command.replacement
                     then None else c.pending),
       Ok(()))
  }

  // ---------------------------------------------------------------- runs

  datatype Step =
    | Observed(reading: Reading)
    | Issued(kind: WatermarkKind, now: Duration)
    | Idled(now: Duration)
    | Polled(now: Duration)
    | Completed(which: nat, committed: bool)

  /** The clock, the commands it has issued, and whether one has been committed. */
  datatype World = World(clock: Clock, issued: seq<Watermark>, durable: bool)

  function Next(w: World, step: Step): World {
    match step
    case Observed(r) => w.(clock := Observe(w.clock, r))
    case Issued(kind, now) =>
      var command := Command(w.clock, kind, now);
      if command.Ok? then w.(issued := w.issued + [command.value]) else w
    case Idled(now) =>
      var (c, r) := IdleCheckpoint(w.clock, now);
      w.(clock := c, issued := if r.Ok? && r.value.Submit? then w.issued + [r.value.command] else w.issued)
    case Polled(now) => w.(clock := Poll(w.clock, now).0)
    case Completed(which, committed) =>
      if which >= |w.issued| then w
      else
        var (c, r) := CompleteWatermark(w.clock, w.issued[which], committed);
        w.(clock := c, durable := w.durable || r.Ok?)
  }

  function Run(w: World, steps: seq<Step>): World
    decreases |steps|
  {
    if steps == [] then w else Run(Next(w, steps[0]), steps[1..])
  }
}
