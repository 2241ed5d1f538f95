/** `ClockMonitor` as the object it is. */
module ClockMonitor {
  import opened Prelude
  import M = ClockModel

  class Monitor {
    var anchorWall: u64
    var anchorMonotonic: M.Duration
    var effective: u64
    var persisted: u64
    var safety: M.Safety
    var agreementSince: Option<M.Duration>
    var lastDurable: M.Duration
    var pending: Option<M.Watermark>

    ghost function Model(): M.Clock
      reads this
    {
      M.Clock(anchorWall, anchorMonotonic, effective, persisted, safety, agreementSince, lastDurable, pending)
    }

    constructor (reading: M.Reading, mark: u64)
      ensures Model() == M.Clock(reading.wall, reading.monotonic, Max(reading.wall, mark), mark, M.Ready, None,
                                 reading.monotonic, None)
    {
      anchorWall := reading.wall;
      anchorMonotonic := reading.monotonic;
      effective := Max(reading.wall, mark);
      persisted := mark;
      safety := M.Ready;
      agreementSince := None;
      lastDurable := reading.monotonic;
      pending := None;
    }

    static method Boot(reading: M.Reading, mark: u64, allowBehindOnce: bool, auditAccepts: bool)
      returns (r: Result<Monitor, M.ClockError>)
      ensures r.Ok? ==> fresh(r.value)
      ensures r.Ok? ==> M.Boot(reading, mark, allowBehindOnce, auditAccepts) == Ok(r.value.Model())
      ensures r.Err? ==> M.Boot(reading, mark, allowBehindOnce, auditAccepts) == Err(r.error)
    {
      var ahead := SaturatingSub(mark, reading.wall);
      if ahead > M.MAX_PLAUSIBLE_FUTURE_MARK { return Err(M.PersistedMarkImplausiblyAhead); }
      if ahead > M.CLOCK_TOLERANCE {
        if !allowBehindOnce { return Err(M.BehindPersistedMark); }
        if !auditAccepts { return Err(M.OverrideAuditFailed); }
      }
      var monitor := new Monitor(reading, mark);
      return Ok(monitor);
    }

    method Observe(reading: M.Reading) returns (anomaly: Option<M.Anomaly>)
      modifies this
      ensures Model() == M.Observe(old(Model()), reading)
      ensures anomaly == M.AnomalyOf(old(Model()), reading)
    {
      if reading.monotonic < anchorMonotonic {
        safety := M.Unsafe;
        agreementSince := None;
        return Some(M.MonotonicRegressed);
      }
      var expected := SaturatingAdd(anchorWall, M.Seconds(reading.monotonic - anchorMonotonic));
      effective := Max(effective, expected);
      var difference := if reading.wall < expected then expected - reading.wall else reading.wall - expected;
      if difference > M.CLOCK_TOLERANCE {
        safety := M.Unsafe;
        agreementSince := None;
        return Some(if reading.wall < expected then M.WallBehind else M.WallAhead);
      }
      effective := Max(effective, reading.wall);
      if safety != M.Ready {
        if agreementSince.None? { agreementSince := Some(reading.monotonic); }
        var since := agreementSince.value;
        if SaturatingSub(reading.monotonic, since) >= M.CLOCK_SETTLE_PERIOD {
          agreementSince := None;
          safety := M.Ready;
        } else {
          safety := M.Recovering;
        }
      }
      return None;
    }

    method Command(kind: M.WatermarkKind, now: M.Duration) returns (r: Result<M.Watermark, M.ClockError>)
      ensures r == M.Command(Model(), kind, now)
    {
      if safety != M.Ready { return Err(M.ClockUnsafe); }
      return Ok(M.Watermark(persisted, Max(persisted, effective), effective, kind, now,
                            M.Later(now, M.CHECKPOINT_COMMIT_DEADLINE)));
    }

    method PollCheckpointDeadline(now: M.Duration) returns (r: Result<(), M.ClockError>)
      modifies this
      ensures (Model(), r) == M.Poll(old(Model()), now)
    {
      if pending.Some? && now > pending.value.deadline {
        safety := M.Unsafe;
        return Err(M.PersistenceFailed);
      }
      return Ok(());
    }

    method IdleCheckpoint(now: M.Duration) returns (r: Result<M.CheckpointRequest, M.ClockError>)
      modifies this
      ensures (Model(), r) == M.IdleCheckpoint(old(Model()), now)
    {
      var polled := PollCheckpointDeadline(now);
      if polled.Err? { return Err(polled.error); }
      if pending.Some? { return Ok(M.Coalesced); }
      if SaturatingSub(now, lastDurable) < M.IDLE_CHECKPOINT_INTERVAL { return Ok(M.NotDue); }
      var command := Command(M.IdleCheckpointKind, now);
      if command.Err? { return Err(command.error); }
      pending := Some(command.value);
      return Ok(M.Submit(command.value));
    }

    method CompleteWatermark(command: M.Watermark, committed: bool) returns (r: Result<(), M.ClockError>)
      modifies this
      ensures (Model(), r) == M.CompleteWatermark(old(Model()), command, committed)
    {
      if command.expected != persisted || command.replacement < persisted {
        safety := M.Unsafe;
        return Err(M.StaleCommand);
      }
      if command.kind == M.IdleCheckpointKind && pending != Some(command) {
        safety := M.Unsafe;
        return Err(M.StaleCommand);
      }
      if !committed {
        safety := M.Unsafe;
        return Err(M.PersistenceFailed);
      }
      persisted := command.replacement;
      lastDurable := command.issuedAt;
      if pending.Some? && pending.value.replacement <= persisted {
        pending := None;
      }
      return Ok(());
    }
  }
}
