# Verified core of ops-light-secrets-server

A Dafny 4.11 model of the parts of the secrets server that carry its hardest promises, with proofs
about every input, every run and every interleaving at a lock boundary. `dafny verify dfyconfig.toml`
checks the whole project.

Each stateful component appears twice. A value model has one function per critical section, and the
results are lemmas about those functions and about runs of them. A class holds the same fields as the
Rust object and changes them in place, loops included. Every method of a class is proved to leave the
object in exactly the state, and give exactly the answer, that the function says, so what is proved
about runs holds of the objects.

| files | component |
|---|---|
| `Prelude`, `Text`, `Sequences`, `Endpoints` | widths, byte strings, ordered sets, stable sorting, endpoints |
| `KvModel`, `KvRetention`, `KvInvariant`, `KvHistory`, `KvAnswers`, `KvStore` | versioned secrets: writes with check-and-set, retention, destroy, purge, rotation primitives |
| `RotationModel`, `RotationInvariant`, `RotationRecords`, `RotationSections`, `RotationSteps`, `RotationIsolation`, `RotationTheorems`, `RotationRestore`, `RotationCommands`, `RotationLeftovers`, `RotationExhaustion`, `RotationCloseout`, `RotationStore` | rotations as a machine over their critical sections, with data-plane steps at every lock boundary |
| `Adoption`, `AdoptionReads`, `AdoptionProofs` | who has adopted a rotated secret, and the closeout gate |
| `ClockModel`, `ClockTheorems`, `ClockMonitor` | effective time, its durable mark, settling after an anomaly |
| `RawSegment`, `RawQuery`, `RawTarget`, `RawUtf8`, `RawAnswers` | raw request targets and their one spelling |
| `RateLimitModel`, `RateLimitProofs`, `RateLimitEviction`, `RateLimiter` | fixed-memory rate limiting and drop accounting |
| `AuthModel`, `AuthProofs`, `AuthAnswers`, `AuthStore` | AppRole logins and secret-id uses |
| `Paging`, `AuditQuery` | pages of the audit log |
| `RowKeys`, `ReconcileModel`, `ReconcileProofs`, `ReconcileAnswers`, `Reconciliation` | consumer reconciliation and its pages |

## Conventions

- Identifiers of sixteen bytes are numbers below 2^128, so their order is the byte order. 64-, 32- and
  16-bit fields are bounded naturals, and every `checked_add`, `saturating_add` and `saturating_sub` is
  written out.
- Strings are their UTF-8 bytes.
- A lock held for a whole call makes the call one step. Where the Rust code releases the lock inside a
  command (rotation commands), each locked part is a step of its own and any data-plane steps may run
  before it.
- Authorization decisions, parsed credentials, message authentication, random draws, hash buckets,
  clock readings and whether the audit store accepts a record are parameters. Digests and
  authenticators are modelled by what they are computed from, so they do not collide.

## Where the code and what is said of it differ

- At an exhausted 64-bit generation four properties fail, because the code changes the entry before it
  reports the failure. `StepKeepsExactly` says which sections of rotation commands lose the protection
  of an open record (`RefreshCanLose` and `CancelCanLose` are runs that do), `AppendKeepsCurrentExactly`
  when a write loses the current version, `RefusedMutationExactly` when a refused soft delete, undelete
  or destroy has changed its versions and logged nothing, and `ExhaustedPreflightIsStale` when a purge
  removes what was not preflighted.
- A begin that fails can leave its protection behind. `FailedBeginExactly` says when, and
  `GuardedUntilReleased` that the path is then kept until a rotation releases the protected version.
  Closing out does not release one either (`CompletedKeepsProtection`).
- A replayed closeout answers that the rotation is closed even when the request was spent on another
  command of the record; `TruthEndsExactly` says which steps make the answer untrue. The gate is proved
  for first executions.
- The restart bound of 32 seconds holds before the first committed watermark only for some boots:
  `UncommittedBoundExactly` says which, and `GapBound` bounds the rest.
- The limiter's per-window budget needs requests to a bucket in windows that never fall. The clock is
  read before the lock is taken, so that order is the caller's to provide; `EntriesBound` is what holds
  without it.
- What the limiter's code calls the oldest aggregate is the least key (class, reason, bucket, window).
  It can be in a later window than others (`EvictsLaterWindow`); `EvictsEarliestExactly` says when not.
- The bounds an overflow aggregate is handed out with need not contain the drops it counts, because it
  takes in an evicted aggregate of any window (`DropsCanLeaveTheirBounds`). `BoundsKeptExactly` says
  which runs keep all bounds, and `RequestBoundsContainDrops` that other classes always do.
- A login request can commit twice after a credential replacement moves its token to another request
  (`RequestCanCommitTwice`); `RequestsKeptExactly` says which replacements do that.
- An audit filter with a lower bound and no upper bound is refused (`InvalidExactly`).
- In a reconciliation a declaration without an instance covers an instance's reads without showing them
  (`ReadShownExactly`), and the report can flag a migrated declaration unobserved although its identity
  has read (`MigratedFlaggedExactly`).

## Model

| member | source | states |
|---|---|---|
| KvRetention.PruneMeets | src/kv.rs:280-297 | the pruning loop ends with a table that keeps the current and the protected version, drops only versions older than every other kept one, and is within the limit unless it is deferred with nothing left but those two |
| KvRetention.PruneUnique | src/kv.rs:280-297 | that rule determines the result: any entry that meets it is the one the loop computes |
| KvRetention.PruneIgnoresMark | src/kv.rs:280-297 | the deferral mark is recomputed, never consulted |
| KvInvariant.StepKeepsInvariant | src/kv.rs:315-946 | every critical section keeps every entry well formed, lets entries only evolve, removes one only by a purge of an unprotected entry, and moves no protection unless it is a rotation primitive |
| KvInvariant.AppendKeeps | src/kv.rs:470-487 | appending a version gives the next number, keeps the old versions as they were and the version keys within 1..current |
| KvInvariant.UnprotectKeeps | src/kv.rs:340-384 | lifting a protection and pruning keeps the entry well formed and only drops old versions |
| KvHistory.ReachableWellFormed | src/kv.rs:137-149 | in every run from an empty store each entry keeps its version keys in 1..current, with current present once nonzero unless the generation is exhausted |
| KvHistory.RunEvolves | src/kv.rs:499-639 | until it is purged an entry only evolves: versions never change their bytes except to be destroyed, and numbers never fall |
| KvHistory.CasWinsOnce | src/kv.rs:499-570 | between purges of a path at most one write with a given cas succeeds, and it creates the version after it |
| KvHistory.WriteIsReadBack | src/kv.rs:499-639 | a version is read back with the bytes and time it was written with, whatever ran in between, as long as it can be read |
| KvHistory.UndeleteUndoes | src/kv.rs:991-1054 | undeleting the versions of a soft delete restores the table exactly when all of them were live |
| KvHistory.AppendKeepsCurrentExactly | src/kv.rs:542-559 | a write leaves the current version present exactly when the generation was not used up |
| KvHistory.RefusedMutationExactly | src/kv.rs:991-1054 | a soft delete, undelete or destroy that fails logs nothing, and leaves the store as it was exactly when the batch was refused by its own checks or changes nothing; otherwise the generation was used up and the versions have changed |
| KvHistory.ReadsAgree | src/kv.rs:572-639 | two successful reads of one version between purges return the same bytes and creation time |
| KvHistory.DestroyedStaysUnreadable | src/kv.rs:572-639 | a destroyed version is never readable again |
| KvHistory.DestroyDestroys | src/kv.rs:991-1054 | a destroy that succeeds leaves every named version destroyed and without bytes |
| KvHistory.ReadsMatchLog | src/kv.rs:572-639 | in every run the read successes in the log match the successful reads one for one, in order |
| KvHistory.PurgeRemovesWhatWasPreflighted | src/kv.rs:844-946 | a purge that succeeds on the numbers of an earlier preflight removes exactly the entry preflighted, which is unprotected, if the path was not purged in between and its generation is not exhausted |
| KvHistory.ExhaustedPreflightIsStale | src/kv.rs:844-946 | at an exhausted generation a refused metadata write changes the entry, and a purge on the numbers of an earlier preflight then succeeds and removes an entry other than the one preflighted |
| KvAnswers.ReadExact | src/kv.rs:572-639 | a read answers a given version, bytes and time exactly when it is allowed, well placed and unhindered, asks for that version or for none while that one is current, and the store holds that version live with those bytes and that time |
| KvAnswers.ReadRefusedExactly | src/kv.rs:572-639 | an allowed read is told "not found" exactly when the path or version is not held, and a deletion time and whether destroyed exactly when it is held and not live |
| KvAnswers.ReadLogs | src/kv.rs:572-639 | a read changes no entry; what it discloses, and every denial, is one event of the log |
| KvAnswers.MissedReadLogs | src/kv.rs:572-639 | a miss is logged under the version asked for |
| KvAnswers.WrittenIsReadExactly | src/kv.rs:499-639 | whatever ran in between without a purge, a written version is read back with its bytes and time exactly while it is held and live |
| KvAnswers.WriteExact | src/kv.rs:499-570 | a write succeeds with a given version and time exactly when it fits, is allowed, its cas is none where none is needed, zero for a new path or the current version, and the generation has room; the version is the next one |
| KvAnswers.WriteLeaves | src/kv.rs:499-570 | a successful write leaves one more version and generation, then the retention rule, one event, and every other entry alone |
| KvAnswers.WriteRefusedExactly | src/kv.rs:499-570 | which refusal is answered and logged, and that entries change under one only at a used-up generation |
| KvAnswers.MutateExact | src/kv.rs:694-713 | a batch is deleted, undeleted or destroyed exactly when it is one to 64 different nonzero versions, all held, none destroyed before a soft delete, and the generation has room |
| KvAnswers.MutateLeaves | src/kv.rs:991-1054 | each named version and no other has undergone the action: marked deleted now, live again, or destroyed without bytes; one event each |
| KvAnswers.SoftDeleteLatestExact | src/kv.rs:715-738 | deleting the latest is deleting the current version, exactly when it is held and not destroyed |
| KvAnswers.MetadataExact | src/kv.rs:790-842 | when a metadata update is accepted |
| KvAnswers.MetadataLeaves | src/kv.rs:790-842 | only what the update names is set, and a limit of zero falls back to the mount's |
| KvAnswers.PreflightExact | src/kv.rs:844-864 | a preflight answers the numbers of the entry exactly when it is allowed and the entry is known to be unprotected |
| KvAnswers.PreflightRefusedExactly | src/kv.rs:844-864 | which refusal a preflight is answered with |
| KvAnswers.PurgeExact | src/kv.rs:869-946 | a purge goes through exactly when it names the target, gives a reason, is allowed, carries the numbers of an unprotected entry and is confirmed for that very target, those numbers and that reason |
| KvAnswers.PurgeLeaves | src/kv.rs:869-946 | a purge removes its path and nothing else and logs the stated reason, or removes nothing |
| KvAnswers.PurgeRefusedExactly | src/kv.rs:869-946 | the first obstacle of the ceremony is the one answered and logged |
| KvAnswers.DenialsAreLogged | src/kv.rs:499-946 | only calls that are not allowed are denied, and all a denial does is log itself under its operation |
| KvAnswers.FaultsFireOnce | src/kv.rs:572-946 | an armed fault fails one call that would have gone through, and is spent by it |
| KvAnswers.SettingsExact | src/kv.rs:137-149 | a new store is empty and keeps ten versions; a settings step sets what it names |
| KvAnswers.SnapshotExact | src/kv.rs:315-338 | a rotation snapshot answers the current version and protection exactly when that version is live and not empty |
| KvAnswers.ProtectExact | src/kv.rs:340-384 | protecting succeeds exactly on the current, live, nonempty version, and then sets the protection and one generation |
| KvAnswers.ReleaseExact | src/kv.rs:340-384 | releasing succeeds exactly on the version protected |
| KvAnswers.ReleaseLeaves | src/kv.rs:340-384 | releasing lifts the protection and applies the retention rule |
| KvAnswers.CopyExact | src/kv.rs:408-439 | the copy is of the protected version's bytes, exactly while live and protected versions are as expected and it is not destroyed |
| KvAnswers.PrimitivesRefuse | src/kv.rs:315-439 | what the rotation primitives answer when the entry is not as expected |
| KvAnswers.RotationWriteExact | src/kv.rs:449-497 | a rotation write goes through exactly on a protected entry at the expected version with room, and adds just those bytes as the next version |
| KvAnswers.CutoverExact | src/kv.rs:386-406 | a cutover stores the replacement and nothing else, exactly when it fits and the entry can take it |
| RotationTheorems.ReachableSafe | src/rotation.rs:503-917 | with data-plane steps at any lock boundary: in every run one open rotation per resource and sound records; every record whose own protection the run does not lose, whatever happens to the others, has history versions that never fall and, if open between commands, an entry that exists, protects the record's version and holds it; no run of up to 2^64 - 3 steps loses one |
| RotationTheorems.CouplingLostExactly | src/kv.rs:340-384 | between commands an open record that had lost nothing before is coupled to its entry exactly when the step before did not lose the protection of that very record |
| RotationTheorems.RunKeepsExactly | src/rotation.rs:503-917 | a run keeps the whole invariant at every step exactly when none of its steps loses a protection |
| RotationIsolation.StepKeepsBut | src/rotation.rs:503-917 | one record's loss takes nothing from the others: every step keeps the whole invariant of all records but those in the set of lost ones, which grows exactly by the record whose own protection the step loses |
| RotationIsolation.LostExactly | src/rotation.rs:503-917 | a record is in that set after a run exactly when it was before or some step of the run lost its own protection |
| RotationExhaustion.RefreshCanLose | src/kv.rs:340-384 | a run from the empty catalogue uses a generation up and then a refresh fails and leaves its open record without its protection |
| RotationExhaustion.CancelCanLose | src/kv.rs:340-384 | such a run in which a cancel does |
| RotationLeftovers.FailedBeginExactly | src/rotation.rs:503-573 | a begin installs its record exactly when it reaches sealing with a caller other than zero and a resource within bounds; one that fails before has changed the store exactly when it failed to count the protection of a used-up entry not protected at that version, and one that fails to seal leaves its protection |
| RotationLeftovers.LeftoverIsKept | src/kv.rs:340-384 | a path that a failed begin left protected stays protected in every run that does not release that version |
| RotationLeftovers.ProtectionEndsExactly | src/kv.rs:340-384 | a step ends the protection of a path exactly when it is a release of the version protected there |
| RotationLeftovers.GuardedUntilReleased | src/kv.rs:869-946 | in every run without such a step a protected path is never purged and its entry only evolves |
| RotationLeftovers.CompletedKeepsProtection | src/rotation.rs:889-917 | closing out leaves the record's version protected, until a later rotation's release |
| RotationRecords.TerminalIsFinal | src/rotation.rs:1064-1113 | in every run no record disappears, histories only grow and a terminal record never changes |
| RotationRecords.ReachableRecords | src/rotation.rs:142-166 | in every run, whatever happens to the store: one open rotation per resource, generation equal to history length (at most 32), history Prepared+ then optionally Cancelled or Cutover (Completed or Superseded)?, and target = protected + 1 = expected_cas + 1 once cut over |
| RotationRecords.StepMovesRows | src/rotation.rs:1045-1051 | a step leaves a record alone or adds one transition to an open one |
| RotationTheorems.DriveIsRun | src/rotation.rs:503-917 | what a command does between issue and answer, with others at its boundaries, is a run of the machine |
| RotationSteps.StepKeepsExactly | src/kv.rs:340-384 | a step breaks the invariant exactly when the command's own entry is out of generations and the step is a release, or the protecting section of a refresh to another version; the command then fails and its open record is uncoupled |
| RotationSteps.ReplacementOk | src/rotation.rs:142-166 | the record each command builds is sealable, well spelled and consistent in its versions |
| RotationSteps.ReleaseSection | src/rotation.rs:685-730 | releasing fails only where the command's own entry is out of generations: the claim guarantees the protection it expects |
| RotationInvariant.ElsewhereKeeps | src/rotation.rs:503-917 | a data-plane step at any boundary keeps the invariant, whatever command is in flight |
| RotationRestore.RollbackRestores | src/rotation.rs:733-787 | a rollback that gets past its write has created version live+1 with exactly the bytes the protected version held, whatever ran before or between its locks, unless a step lost the protection of this very record |
| RotationRestore.RollbackRestoresProtected | src/rotation.rs:733-787 | from the section that protected a version to a rollback to it, the bytes written are those held when it was protected, unless a step lost the protection of this very record |
| RotationRestore.RollbackConcludes | src/rotation.rs:733-787 | once its write is done a rollback whose own record's protection is not lost cannot fail: it is on its way or has left the record superseded at the version it wrote |
| RotationRestore.CutoverStores | src/rotation.rs:630-682 | a cutover gets past its write exactly when the replacement fits and the entry is at the version the record expects, protected, with room; the next version then holds the replacement's bytes, and the log says who wrote it |
| RotationRestore.CutoverIsReadBack | src/rotation.rs:630-682 | in every later run that keeps the path, readers of the new version get the replacement exactly while it is held and live |
| RotationRestore.RollbackIsReadBack | src/rotation.rs:733-787 | likewise for what a rollback wrote |
| RotationCommands.StartsExactly | src/rotation.rs:1064-1113 | a command gets past its own checks exactly when it is allowed, not spent, dated, and its row or resource, generation, state, history, snapshot, reason and adoption report fit |
| RotationCommands.StartsWith | src/rotation.rs:503-917 | the row, endpoint and first section each command starts with |
| RotationCommands.RefusedExactly | src/rotation.rs:503-917 | a command turned down changes nothing; who is not allowed, repeats or gives no time is told so |
| RotationCommands.RowRefusedExactly | src/rotation.rs:1064-1113 | a missing row, another generation, another state or a full history is what the caller is told |
| RotationCommands.BeginRefusedExactly | src/rotation.rs:503-540 | a begin on a resource with an open rotation is told that rotation's state |
| RotationCommands.CloseoutRefusedExactly | src/rotation.rs:862-889 | a closeout of another version than the target is a conflict, one that adoption blocks is invalid |
| RotationCommands.EndpointExact | src/rotation.rs:1115-1130 | a resource names a data endpoint exactly when it is a mount and segments, all nonempty, joined by slashes |
| RotationCommands.SnapshotSectionExact | src/rotation.rs:503-817 | what follows on looking at the live version, for each command, and what is answered when it is not to be had |
| RotationCommands.ProtectSectionExact | src/rotation.rs:503-627 | how the protecting section ends, by the state of the entry |
| RotationCommands.CopySectionExact | src/rotation.rs:733-787 | how a rollback's copy ends, and that it goes on with the protected version's bytes |
| RotationCommands.WriteSectionExact | src/rotation.rs:630-787 | how a cutover's or rollback's write ends, by the state of the entry |
| RotationCommands.ReleaseSectionExact | src/rotation.rs:685-817 | how a release ends, by the state of the entry |
| RotationCommands.InstalledAdds | src/rotation.rs:1045-1051 | an installed command adds one transition with its own time to the state it leads to, names the versions it should, spends its request and shows the row |
| RotationCommands.RecordsSay | src/rotation.rs:503-917 | in every run a record has the resource and actor of its begin, the snapshot and time of its last preparation and the time of its cutover |
| RotationRestore.ProtectOrigin | src/rotation.rs:503-573 | a version is protected only while it is current, live and not empty |
| RotationRestore.PlainWriteBlocksCutover | src/rotation.rs:630-682 | once the entry has moved past the prepared version, every cutover of the unchanged record, its own protection not lost, is refused and changes nothing |
| RotationCloseout.CloseoutExact | src/rotation.rs:862-889 | a first closeout over an adoption report goes ahead exactly when the reads prove adoption or an acknowledgement with a reason is given |
| RotationCloseout.CloseoutCompletes | src/rotation.rs:889-917 | a closeout that goes ahead completes the record and says so |
| RotationCloseout.ReplayedCloseoutReportsAnyway | src/rotation.rs:847-857 | in every run a replayed closeout answers "closed out" over an existing record, and the answer is true exactly when the record is not cut over, cancelled or superseded |
| RotationCloseout.ReplayAnswersExactly | src/rotation.rs:847-857 | a closeout is answered without being run exactly when it is allowed and its request is spent |
| RotationCloseout.TruthEndsExactly | src/rotation.rs:847-857 | a step makes replays of a closeout request untrue exactly by installing a cutover, cancel or rollback of the record under it |
| RotationCloseout.KeptRequestsAreTruthful | src/rotation.rs:847-857 | in every run that keeps a request for closing out, a replay under it says what is so |
| RotationCloseout.SharedRequestMisreports | src/rotation.rs:847-857 | right after a cutover, cancel or rollback a closeout under its request answers "closed out" of a cut over, cancelled or superseded record |
| Adoption.LatestIsLatest | src/rotation.rs:424-441 | the read picked is the greatest in sequence and, among equals, the last |
| AdoptionReads.LatestIsLastRead | src/rotation.rs:424-441 | what the report goes by is the reader's last read among the observations: through that very instance, or by that identity through none, after the cutover and up to the cutoff, greatest in sequence and last among equals |
| AdoptionProofs.InstanceReport | src/rotation.rs:265-285 | class, version, time and lookback mark of an instance, each by its last read and whether it is retired |
| AdoptionProofs.DirectExact | src/rotation.rs:295-319 | the same of an identity without instances, by its own last read |
| AdoptionProofs.IdentityExact | src/rotation.rs:320-345 | an identity with instances is on-current exactly when all of them are, otherwise the class furthest from adoption: prior before silent before retired |
| AdoptionProofs.IdentityReadAt | src/rotation.rs:346-354 | its time is that of the latest read through any of its instances |
| AdoptionProofs.IdentityFetched | src/rotation.rs:355-360 | its version is that of the first instance, in order, that has read |
| AdoptionProofs.ConsumerExact | src/rotation.rs:375-414 | a consumer is on-current exactly when it has an identity and all its identities are, otherwise the class furthest from adoption, unseen ones as silent |
| AdoptionProofs.GateExact | src/rotation.rs:872-888 | the report blocks nothing if and only if every active instance is retired or its last read in the window fetched the target, every identity without instances did so itself, and every consumer has an identity; all told from the observations and the two maps |
| AdoptionProofs.InMembers | src/rotation.rs:242-422 | the report holds the member of each snapshot element and nothing else |
| AdoptionProofs.OneMemberEach | src/rotation.rs:242-422 | strictly ordered by kind and identifier: one member per active instance, authorized identity and declared consumer |
| AdoptionProofs.LookbackOnlyAnnotates | src/rotation.rs:443-452 | reports that differ only in lookback and current time agree on members, order, classes and fetched versions |
| AdoptionProofs.ClassifyAdoption | src/rotation.rs:242-422 | the three loops over one growing list and the final sort produce exactly the report that InstanceReport, DirectExact, IdentityExact and ConsumerExact tell |
| ClockTheorems.BootExact | src/clock.rs:139-174 | boot succeeds exactly when the mark is close enough, or is at most a day ahead and overridden on record |
| ClockTheorems.BootsAt | src/clock.rs:139-174 | where a boot starts from, and why one is refused |
| ClockTheorems.AnomalyExact | src/clock.rs:176-207 | with x the anchor wall plus the whole seconds elapsed, capped: regressed exactly when the monotonic reading is before the anchor, otherwise behind exactly when wall + 2 < x, ahead exactly when x + 2 < wall |
| ClockTheorems.ObserveExact | src/clock.rs:176-207 | a reading makes the clock unsafe and stops its timer exactly when it disagrees; an agreeing one keeps a ready clock ready and any other recovering until ten seconds after the first |
| ClockTheorems.SettlesExactly | src/clock.rs:176-207 | in every run of agreeing readings from a stopped timer the clock is ready at exactly the first reading ten seconds later, whatever persistence does |
| ClockTheorems.CommandExact | src/clock.rs:284-296 | a watermark is issued exactly by a ready clock, for its effective time and a tenth of a second |
| ClockTheorems.PollExact | src/clock.rs:242-251 | a checkpoint past its deadline makes the clock unsafe, and nothing else does |
| ClockTheorems.IdleExact | src/clock.rs:229-240 | one checkpoint at a time, thirty seconds after the last durable mark, and only of a ready clock |
| ClockTheorems.CompleteExact | src/clock.rs:253-282 | a commit counts exactly when its command is for the mark as it stands and, if idle, the one awaited; every other completion makes the clock unsafe |
| ClockTheorems.NeverRegressesOrPoisons | src/clock.rs:176-296 | over every run effective and durable time never fall, durable never passes effective, and effective stays below what boot and the monotonic clock account for |
| ClockTheorems.RestartBound | src/clock.rs:229-240 | after a first commit, whenever the idle checkpoint at the latest reading says nothing is due, effective is at most 32 s past durable time |
| ClockTheorems.UncommittedBound | src/clock.rs:139-174 | before a first commit, when nothing is due, effective is at most what the clock can reach in 29 s and the tolerance past the mark it booted on |
| ClockTheorems.GapBound | src/clock.rs:229-240 | in every run, committed or not, when nothing is due, effective is at most 32 s past durable time plus what the boot wall was ahead of the mark |
| ClockTheorems.UncommittedBoundExactly | src/clock.rs:139-174 | the 32 s bound holds of all uncommitted runs of a boot exactly when its reach is within 32 s of the mark, which away from the ends of the ranges is wall <= mark + 1 |
| ClockTheorems.OnlyObservationsTouchTimer | src/clock.rs:242-272 | a persistence failure does not restart the agreement timer |
| ClockTheorems.ReadyOnlyAfterSettling | src/clock.rs:176-207 | every step to ready ends an unbroken run of agreeing observations at least 10 s long, and a ready clock runs no timer |
| RawSegment.DecodeExact | src/raw_target.rs:288-388 | a spelling decodes to a name exactly when it is that name's canonical spelling (section 2.1 of RFC 3986, section 4 of RFC 3629) |
| RawSegment.SpelledDecodes | src/raw_target.rs:288-388 | the canonical spelling of a name decodes to it |
| RawSegment.DecodeSegment | src/raw_target.rs:288-388 | the decoding loop returns the specified result or the first error with its offset |
| RawUtf8.Utf8Exact | src/raw_target.rs:382-383 | decoded bytes are accepted as text exactly when they are the encoding of some scalar values (section 3 of RFC 3629) |
| RawUtf8.ControlExact | src/rotation.rs:1091-1097 | a text has a control character exactly when one of its scalar values is C0, DEL or C1 |
| RawAnswers.SegmentErrorExact | src/raw_target.rs:288-388 | which error a segment gives and where: empty, not ASCII, its first character at fault, no UTF-8, or dots |
| RawQuery.AcceptedQueryIsCanonical | src/raw_target.rs:244-286 | an accepted query that does not ask for both version and list is its own canonical spelling |
| RawQuery.CanonicalQueryParses | src/raw_target.rs:244-286 | a canonical query is accepted and means what it was rendered from |
| RawQuery.ValidateQueryLoop | src/input_hygiene.rs:45-91 | the loop reports the first shape error with its offset, or none |
| RawQuery.ParseQueryLoop | src/raw_target.rs:244-286 | the loop returns the specified query or the first error with its offset |
| RawTarget.PathExact | src/raw_target.rs:114-216 | a split path is accepted for an endpoint exactly when it is that endpoint's path and the method fits |
| RawTarget.AcceptedIsCanonical | src/raw_target.rs:114-216 | an accepted target that is not a listing is the canonical target of a well-formed endpoint |
| RawTarget.AcceptedListing | src/raw_target.rs:114-216 | an accepted listing is its endpoint's canonical target up to one trailing slash and `?list=true` |
| RawTarget.OneSpelling | src/raw_target.rs:114-216 | two accepted targets of one endpoint that is not a listing are the same bytes |
| RawTarget.CanonicalIsAccepted | src/raw_target.rs:114-216 | every well-formed endpoint whose canonical target fits is accepted under it |
| RawTarget.ListingIsAccepted | src/raw_target.rs:114-216 | every spelling of a well-formed listing is accepted under a fitting method |
| RawTarget.KeysAreDistinct | src/kv.rs:1247-1249 | different decoded segment lists get different KV keys |
| RawTarget.DecodeSegments | src/raw_target.rs:114-216 | the loop with a running offset decodes every segment or returns the first error |
| RawTarget.ParseRawTarget | src/raw_target.rs:114-216 | the whole parser returns the specified endpoint or error |
| RawAnswers.Words | src/raw_target.rs:114-216 | the words and separators of the interface, letter by letter |
| RawAnswers.PlainExact | src/raw_target.rs:349-379 | the characters that stand for themselves |
| RawAnswers.ShapeErrorExact | src/input_hygiene.rs:45-91 | the shape check reports the first parameter at fault, why, and its offset |
| RawAnswers.ShapeIsReported | src/raw_target.rs:244-259 | a query is refused at its first misshapen parameter |
| RawAnswers.QueryErrorExact | src/raw_target.rs:260-286 | one in good shape is refused at exactly its first bad value |
| RawAnswers.HeadErrorExact | src/raw_target.rs:134-173 | what the first four segments must be, and the error and offset when they are not |
| RawAnswers.NamesErrorExact | src/raw_target.rs:179-197 | only a listing may end in a slash or name nothing |
| RawAnswers.FirstUnspelled | src/raw_target.rs:199-207 | of several segments the first that is no name's spelling is reported, with its own error and offset |
| RawAnswers.UnspelledIsFirst | src/raw_target.rs:199-207 | and what is reported is such a segment |
| RawAnswers.TargetErrorExact | src/raw_target.rs:114-132 | a target is cut at its first question mark and is too long, empty, or refused for its query before its path |
| RawAnswers.PathErrorExact | src/raw_target.rs:134-216 | a path is refused for its head before its names, which are counted from where they start |
| RateLimitProofs.NothingIsLost | src/rate_limit.rs:300-334 | in every run the table stays within its limit, counts held plus counts taken equal drops recorded through any eviction, and no count exceeds the drops |
| RateLimitProofs.RecordKeeps | src/rate_limit.rs:300-334 | recording a drop adds exactly one to the table and never overfills it |
| RateLimitProofs.KeysCountTheirOwn | src/rate_limit.rs:240-267 | while nothing is evicted each key holds exactly its own drops less those handed out |
| RateLimitProofs.KeysNeverOvercount | src/rate_limit.rs:300-334 | through any eviction a key of a request class holds at most its own drops less those handed out |
| RateLimitProofs.DropsAreAccountedFor | src/rate_limit.rs:240-267 | from a new limiter every drop of a run is held or has been handed out, once |
| RateLimitProofs.HandedOutIs | src/rate_limit.rs:258-267 | entry by entry the list handed out is the table in key order |
| RateLimitProofs.KeyOrderRises | src/rate_limit.rs:258-267 | the keys of that list strictly rise |
| RateLimitProofs.HandedOutAddsUp | src/rate_limit.rs:258-267 | the list has one entry per key and its counts add up to the table's |
| RateLimitEviction.RecordIsAddedExactly | src/rate_limit.rs:300-334 | a drop is counted under its own key, and nothing else changes, exactly when the key is there or there is room |
| RateLimitEviction.CountsOwnExactly | src/rate_limit.rs:300-334 | a run holds each key's own drops, less those handed out, at every step exactly when every drop found its key or room |
| RateLimitEviction.EvictsEarliestExactly | src/rate_limit.rs:300-334 | the entry evicted is in the earliest window exactly when some entry of that window has the least class, reason and bucket |
| RateLimitEviction.EvictsLaterWindow | src/rate_limit.rs:300-334 | a login drop of window 5 is evicted before a probe drop of window 0 |
| RateLimitEviction.StepBoundedExactly | src/rate_limit.rs:300-347 | with the times of the drops each entry counts carried along: a step takes one out of its entry's bounds exactly when it evicts an entry of another window than the drop's own |
| RateLimitEviction.BoundsKeptExactly | src/rate_limit.rs:300-347 | a run keeps every counted drop within the bounds of its entry at every step exactly when no step does that |
| RateLimitEviction.RequestBoundsContainDrops | src/rate_limit.rs:336-347 | in every run, through any eviction, entries other than overflow keep the times of their drops within their bounds |
| RateLimitEviction.DropsCanLeaveTheirBounds | src/rate_limit.rs:300-347 | with room for one entry, two drops leave an overflow entry with bounds [5, 5] that counts a drop at time 0 |
| RateLimitProofs.AggregateTells | src/rate_limit.rs:336-347 | an aggregate is handed out with its own class, reason, bucket and count and the span of its window |
| RateLimitProofs.KeysAscend | src/rate_limit.rs:122-128 | keys are ordered by class, reason, bucket and window, in the order of their declaration |
| RateLimitProofs.ConfigExact | src/rate_limit.rs:84-104 | what a configuration must give |
| RateLimitProofs.WindowBudget | src/rate_limit.rs:367-377 | a bucket whose own requests come in windows that never fall, in any order inside a window, spends at most its allowance in each |
| RateLimitProofs.IntervalBudget | src/rate_limit.rs:367-377 | such a bucket spends at most twice its allowance over any interval one window long |
| RateLimitProofs.AdmittedExactly | src/rate_limit.rs:179-238 | after any run in which each bucket a request needs saw windows that never fall, up to its own, the request passes exactly when each has spent less than its allowance in that window |
| RateLimitProofs.AdmittedSpends | src/rate_limit.rs:179-238 | a request let through has spent from every bucket it needs |
| RateLimitProofs.OutOfOrderTimesRefill | src/rate_limit.rs:367-377 | the bound of EntriesBound is met: a run that enters a window twice spends its allowance twice |
| RateLimitProofs.EntriesBound | src/rate_limit.rs:367-377 | in every run, requests in any order, a bucket spends in a window at most its allowance for each time it enters it |
| RateLimitProofs.OrderedEntersOnce | src/rate_limit.rs:367-377 | windows that never fall are entered at most once each |
| AuthProofs.UsesMatchLogins | src/auth.rs:192-203 | in every run initial minus remaining uses, generation minus one and the successful logins logged for a secret-id are one number, at most what it was issued with |
| AuthProofs.FailedLoginChangesNothing | src/auth.rs:570-659 | a failed login changes no record and adds at most one denial |
| AuthProofs.LoginSpendsOne | src/auth.rs:570-659 | a successful login spends one use, adds one fresh token for the identity role and secret-id share, and logs it |
| AuthAnswers.LoginDeniedExactly | src/auth.rs:570-615 | a login is denied exactly for a zero request, a bad role id, or, under an unused request, unless the secret is genuine and a live data-plane secret-id of this epoch with a use left, under an active role of its own record and identity |
| AuthAnswers.LoginExact | src/auth.rs:621-659 | an entitled login succeeds with a given token exactly when that is the token of its role, secret-id, clock and request under the first free identifiers drawn, it can be recorded, and counters and randomness suffice |
| AuthAnswers.LoginAnswers | src/auth.rs:653-659 | the caller gets the role's lease, name and identity |
| AuthAnswers.DenialLogs | src/auth.rs:570-615 | all a denial does is log itself under the accessor presented |
| AuthAnswers.RetryIsTold | src/auth.rs:580-584 | exactly a used request is answered with a credential issued under it, and nothing changes |
| AuthAnswers.DrawnMeaning | src/auth.rs:1080-1092 | the value taken is the first of eight draws that is neither zero nor taken |
| AuthAnswers.ExpiredStaysDenied | src/auth.rs:371-377 | in every run an expired secret-id stays denied, unless its credential is replaced with a later expiry |
| AuthAnswers.TimeNeverFalls | src/auth.rs:371-377 | in every run the time never falls and the epoch stays |
| AuthAnswers.NewCatalogExact | src/auth.rs:345-369 | a new catalogue is empty, at an epoch and time that are not zero |
| AuthAnswers.InsertRoleExact | src/auth.rs:395-411 | a role is inserted exactly when it is well formed, its identity is active, and its record, public id and name are new |
| AuthAnswers.DeleteRoleExact | src/auth.rs:442-455 | a role is deleted exactly when it is active and at the expected generation |
| AuthAnswers.InsertSecretIdExact | src/auth.rs:457-478 | a secret-id is inserted exactly with one to a thousand uses, a new accessor, and an active role of that record and identity |
| AuthAnswers.InsertTokenExact | src/auth.rs:480-492 | a token is inserted exactly with a new accessor and an active identity |
| AuthAnswers.ReplaceCredentialExact | src/auth.rs:528-544 | a credential is replaced exactly by the next generation of the same record |
| AuthAnswers.IdentitiesExact | src/auth.rs:413-440 | identities are inserted when new, and replaced by their next generation of the same name and kind |
| AuthProofs.ConsumeNeverFails | src/auth.rs:192-203 | an admitted login never fails in consuming its use |
| AuthProofs.DeletedNeverLogsIn | src/auth.rs:442-455 | after a role is deleted, in every run its record stays, no login under it succeeds, and its secret-ids spend nothing more under any role |
| AuthProofs.RequestCommitsOnce | src/auth.rs:502-506 | no request id commits two logins in any run whose replacements orphan no committed request |
| AuthProofs.RequestsKeptExactly | src/auth.rs:528-544 | a step breaks the record of committed requests exactly when it is an accepted replacement that takes the last credential of one to another request |
| AuthProofs.RequestCanCommitTwice | src/auth.rs:528-544 | in a run of a new catalogue a login, a replacement that moves its token to another request and a second login commit one request twice |
| AuthProofs.RemoveRevokesAll | src/auth.rs:546-568 | a count means every secret-id of the role is revoked and no other credential moved |
| AuthStore.DrawUsable | src/auth.rs:1080-1092 | the loop returns the first drawn value that is neither zero nor taken, within eight attempts |
| Paging.WalkCovers | src/audit_export.rs:292-355 | following cursors sees the rows in order once each, at least one a page until it ends |
| AuditQuery.QuerySnapshot | src/audit_export.rs:292-355 | the loop that breaks at the first match too many returns the specified page or error |
| AuditQuery.PageFits | src/audit_export.rs:292-355 | a page resumed at a cursor is the next matching entries, with a cursor exactly when more remain |
| AuditQuery.WalkVisitsAll | src/audit_export.rs:292-355 | for any limits, following cursors over one snapshot visits every matching entry exactly once, in order |
| AuditQuery.WalkShowsExactly | src/audit_export.rs:109-124 | a walk that has ended has shown exactly the entries in the filter's ranges of time and sequence with its identity, outcome, operation and path prefix, once each and in order |
| AuditQuery.CutoffIsHighest | src/audit_export.rs:305-310 | the cutoff is the highest sequence number of the log |
| AuditQuery.UnauthorizedExactly | src/audit_export.rs:299-304 | a well-formed query is refused exactly without permission, without a store, or for a page of none or more than a hundred |
| AuditQuery.BarrierWithholds | src/audit_export.rs:290-298 | the last check can still withhold a page, and then its error is all that is answered |
| AuditQuery.CursorBinds | src/audit_export.rs:311-322 | a cursor is refused exactly when it was not sealed for this key, store, filter and highest sequence number |
| AuditQuery.InvalidExactly | src/audit_export.rs:78-90 | a query is invalid exactly for a range without an upper bound or upside down, a sequence range from zero, or an empty, overlong or zero-holding prefix |
| AuditQuery.CryptoExactly | src/audit_export.rs:325-338 | a well-formed query fails to decrypt exactly when an unreadable entry in range comes before its page has one match too many |
| RowKeys.KeyInjective | src/reconciliation.rs:356-361 | equal row keys belong to the same consumer, instance and identity |
| RowKeys.PartReads | src/reconciliation.rs:409-411 | an identifier is spelled with 32 lower-case hexadecimal digits that stand for it, none with a dash |
| RowKeys.KeyOrder | src/reconciliation.rs:356-361 | the byte order of row keys is the order of consumer, instance and identity, none first |
| ReconcileAnswers.ObservedExact | src/reconciliation.rs:174-189 | under each identity and instance the newest read of the resource within the lookback is kept, the first among equals |
| ReconcileAnswers.RowTells | src/reconciliation.rs:307-374 | every row tells whose it is, whether the identity is known and may read, its newest read in the window, and exactly the flags these call for, all from the snapshot |
| ReconcileAnswers.UndeclaredRowsExact | src/reconciliation.rs:227-278 | there is a row nobody declared for exactly the readers no active declaration covers and the identities that may read, have none and have not read |
| ReconcileAnswers.DeclaredRowsExact | src/reconciliation.rs:197-225 | there is a declared row for exactly the declarations of the resource |
| ReconcileAnswers.RowsInOrder | src/reconciliation.rs:280-281 | rows are in the order of consumer, instance and identity, none first |
| ReconcileAnswers.PageTells | src/reconciliation.rs:285-305 | the three counts are the declarations of the resource, the identities that may read it and the readers in the window |
| ReconcileAnswers.RefusedExactly | src/reconciliation.rs:109-172 | for which obstacle, in order, a reconciliation is refused |
| ReconcileProofs.ObservedLatest | src/reconciliation.rs:174-189 | every relevant read has its key observed by a read that is not older |
| ReconcileProofs.AllRowsExact | src/reconciliation.rs:191-278 | exactly the rows of declarations, of authorized identities without an active one, and of uncovered reads are built |
| ReconcileProofs.TidyExact | src/reconciliation.rs:280-281 | sorting and deduplicating leaves, in strictly rising key order, exactly the first row built under each key |
| ReconcileProofs.AuthorizedUndeclaredReported | src/reconciliation.rs:227-247 | an authorized identity without an active declaration has an undeclared row, observed exactly when it has a relevant read, with the time and version of its latest one |
| ReconcileProofs.ObservedCoveredOrReported | src/reconciliation.rs:249-278 | every read key has a covering active declaration or its own row with its latest read |
| ReconcileProofs.DeclarationReported | src/reconciliation.rs:197-225 | under a declaration's key the report has exactly the row of the first declaration with that key, in all its fields |
| ReconcileProofs.EveryRowIsActionable | src/reconciliation.rs:307-374 | every row carries at least one flag |
| ReconcileProofs.ReadShownExactly | src/reconciliation.rs:210-278 | a read key has a row that shows it exactly when no active declaration covers it or some declaration names its very instance; reads without an instance are always shown |
| ReconcileProofs.MigratedFlaggedExactly | src/reconciliation.rs:320-355 | the report flags a declaration's owner (consumer, instance and identity) migrated but unobserved exactly when the first declaration of that owner is migrated, its identity is authorized and every relevant read of the identity came through another instance |
| ReconcileProofs.PageFits | src/reconciliation.rs:288-296 | a page resumed at a row's key is the rows after it, with a cursor exactly when more remain |
| ReconcileProofs.WalkVisitsAll | src/reconciliation.rs:288-305 | for any limits, following cursors over one snapshot visits every row exactly once, in order |
| Reconciliation.GatherObserved | src/reconciliation.rs:174-189 | the loop leaves the latest relevant read under each key |
| Reconciliation.InsertFlags | src/reconciliation.rs:320-355 | the flags inserted are exactly those of the row's state |
| Reconciliation.PushDeclared | src/reconciliation.rs:197-225 | the loop pushes one row per declaration, in order |
| Reconciliation.PushAuthorized | src/reconciliation.rs:227-247 | the loop pushes one row per authorized identity without an active declaration |
| Reconciliation.PushObserved | src/reconciliation.rs:249-278 | the loop pushes one row per uncovered key that has none yet |
| Reconciliation.ReconcileSnapshot | src/reconciliation.rs:109-305 | the whole call returns the specified page or error |
| KvStore.KvCatalog.constructor | src/kv.rs:137-149 | a new catalogue is the initial state of every run |
| KvStore.KvCatalog.Prune | src/kv.rs:280-297 | the removing loop changes one entry, to the one the retention rule determines |
| KvStore.KvCatalog.Write | src/kv.rs:499-570 | state and reply are those of the write step: order of refusals, cas, new version, pruning and log |
| KvStore.KvCatalog.CasConflicts | src/kv.rs:515-526 | the verdict on cas is that of the write step |
| KvStore.KvCatalog.PutVersion | src/kv.rs:538-561 | the entry is made if missing, grows by one version and is pruned, as the write step says |
| KvStore.KvCatalog.AppendVersion | src/kv.rs:542-559 | counter, generation and table change in the source's order, including what is left behind on exhaustion |
| KvStore.KvCatalog.Read | src/kv.rs:572-639 | state and reply are those of the read step, which ReadExact, ReadRefusedExactly and ReadLogs tell, with the log written before the bytes are released |
| KvStore.KvCatalog.MutateLocked | src/kv.rs:991-1054 | state and reply are those of the mutation step: all named versions change or none does, with one event for each when it succeeds and none when the generation is used up |
| KvStore.KvCatalog.ChangeBatch | src/kv.rs:991-1054 | the loop over a batch leaves each named version changed and the others alone |
| KvStore.KvCatalog.LogBatch | src/kv.rs:991-1054 | the loop over a batch logs one success for each version, in order |
| KvStore.KvCatalog.MutateVersions | src/kv.rs:694-713 | state and reply are those of the mutation step |
| KvStore.KvCatalog.SoftDeleteLatest | src/kv.rs:715-738 | state and reply are those of the soft delete of the current version |
| KvStore.KvCatalog.UpdateMetadata | src/kv.rs:790-842 | state and reply are those of the metadata step, including the update kept when the generation is exhausted |
| KvStore.KvCatalog.PurgePreflight | src/kv.rs:844-864 | the numbers are those of the current entry, and a protected entry gives none |
| KvStore.KvCatalog.Purge | src/kv.rs:869-946 | state and reply are those of the purge step: order of refusals, and nothing removed when the log fails |
| KvStore.KvCatalog.RotationSnapshot | src/kv.rs:315-338 | the reply is the live version's number, or the refusal |
| KvStore.KvCatalog.SetProtection | src/kv.rs:340-384 | state and reply are those of protecting or releasing, both directions in one method |
| KvStore.KvCatalog.CopyProtected | src/kv.rs:408-439 | the reply is the protected version's bytes, only while live and protected versions are as expected |
| KvStore.KvCatalog.RotationWrite | src/kv.rs:449-497 | state and reply are those of the rotation write |
| KvStore.KvCatalog.RotationCutover | src/kv.rs:386-406 | state and reply are those of the cutover write, which CutoverExact tells, bounds first |
| RotationStore.RotationCatalog.constructor | src/rotation.rs:493-501 | a new catalogue has no rows and no completed requests |
| RotationStore.RotationCatalog.Begin | src/rotation.rs:503-573 | store, rows and answer are those of driving the command with the given interference |
| RotationStore.RotationCatalog.Refresh | src/rotation.rs:576-627 | store, rows and answer are those of driving the command with the given interference |
| RotationStore.RotationCatalog.CutOver | src/rotation.rs:630-682 | store, rows and answer are those of driving the command with the given interference; CutoverStores and InstalledAdds tell what that leaves |
| RotationStore.RotationCatalog.Cancel | src/rotation.rs:685-730 | store, rows and answer are those of driving the command with the given interference |
| RotationStore.RotationCatalog.Rollback | src/rotation.rs:733-787 | store, rows and answer are those of driving the command with interference at its start and between its locks |
| RotationStore.RotationCatalog.SupersedeAfterPlainWrite | src/rotation.rs:789-817 | store, rows and answer are those of driving the command with the given interference |
| RotationStore.RotationCatalog.Complete | src/rotation.rs:833-917 | store, rows and answer are those of driving the command, replay branch included |
| RotationStore.RotationCatalog.InstallRecord | src/rotation.rs:1045-1051 | the record is stored and its request remembered only if it seals |
| RotationStore.RotationCatalog.RequireRow | src/rotation.rs:1064-1113 | generation, state and history room are refused in this order |
| ClockMonitor.Monitor.Boot | src/clock.rs:139-174 | a fresh monitor in the boot state, or the refusal |
| ClockMonitor.Monitor.Observe | src/clock.rs:176-207 | state and anomaly are those of the observation step, which AnomalyExact and ObserveExact tell in arithmetic |
| ClockMonitor.Monitor.Command | src/clock.rs:284-296 | the watermark command is the one for the current effective time, or the refusal |
| ClockMonitor.Monitor.IdleCheckpoint | src/clock.rs:229-240 | state and request are those of the checkpoint step |
| ClockMonitor.Monitor.PollCheckpointDeadline | src/clock.rs:242-251 | state and reply are those of the deadline step |
| ClockMonitor.Monitor.CompleteWatermark | src/clock.rs:253-282 | state and reply are those of the completion step, failures included |
| RateLimiter.LimiterState.constructor | src/rate_limit.rs:150-165 | fresh tables of the configured sizes, all blank |
| RateLimiter.LimiterState.ConsumeAt | src/rate_limit.rs:367-377 | one bucket of the table is refreshed and charged, the others are untouched |
| RateLimiter.LimiterState.ConsumeGlobal | src/rate_limit.rs:367-377 | the shared bucket is refreshed and charged |
| RateLimiter.LimiterState.RecordLocked | src/rate_limit.rs:300-334 | the table is the one the accounting results are about |
| RateLimiter.LimiterState.CheckUnauthenticated | src/rate_limit.rs:179-213 | buckets, table and verdict are those of the request step, the shared bucket first |
| RateLimiter.LimiterState.CheckAuthenticated | src/rate_limit.rs:215-238 | buckets, table and verdict are those of the request step |
| RateLimiter.LimiterState.RecordDrop | src/rate_limit.rs:240-256 | the drop is counted in its window and nothing else changes |
| RateLimiter.LimiterState.TakeAggregates | src/rate_limit.rs:258-267 | the whole table is handed out as a list in key order with its bounds in milliseconds, and left empty |
| AuthStore.AuthCatalog.constructor | src/auth.rs:345-369 | a new catalogue is the initial state of every run |
| AuthStore.AuthCatalog.InsertRole | src/auth.rs:395-411 | state and reply are those of the step: identifier, name and public id stay unique |
| AuthStore.AuthCatalog.DeleteRole | src/auth.rs:442-455 | state and reply are those of the step |
| AuthStore.AuthCatalog.InsertSecretId | src/auth.rs:457-478 | state and reply are those of the step |
| AuthStore.AuthCatalog.InsertToken | src/auth.rs:480-492 | state and reply are those of the step |
| AuthStore.AuthCatalog.ReplaceCredential | src/auth.rs:528-544 | state and reply are those of the step |
| AuthStore.AuthCatalog.RemoveSecretIds | src/auth.rs:546-568 | the loop keeps what it did when it stops at a failure, as the step says |
| AuthStore.AuthCatalog.Issue | src/credential.rs:420-474 | the token is the specified one, or the first failure in order |
| AuthStore.AuthCatalog.Login | src/auth.rs:570-659 | state and reply are those of the login step, every failure included; LoginDeniedExactly and LoginExact tell when and with what |

## Left out

- KV listing and the metadata read (`list`, `metadata` in src/kv.rs): they only read, and add easy members.
- `set_version_state`, `set_rotation_protection`, `set_unknown_rotation_protection` and the `set_path_*` setters of src/kv.rs are not steps of a run; mount-wide settings are.
- Rotation `status`, `list`, interval policies and the secret age view: read-only or single-branch arithmetic.
- Clock repair: a confirmation dialogue around one store call.
- JSON values and their bounds: a secret is its encoded bytes and whether it is within bounds.
- Sealing, encryption, message authentication and hashing: what they protect is assumed to be what comes back.
- Grants: authorization is a decision passed in; for reconciliation it is the set of identities the grants allow.
- `lookup_self`, `authenticate` and renewal of src/auth.rs: they enter runs as audit events of their own operations; their answers are not modelled.
- Identity changes and the clock of the AppRole catalogue are functions of the model only, not methods of its class.
- Counts of dropped requests are unbounded in the model; no count exceeds the number of drops, so a 64-bit count cannot overflow before 2^64 of them.
- Audit views are the entry's number and event; the projection to fields and the export container are not modelled.
- Locks that are poisoned, the HTTP routers, the command line, configuration, files and the store below the catalogues.
- RateLimitProofs.KeysCountTheirOwn: exact only while nothing is evicted or overflows, because eviction merges the counts of different classes and reasons into one entry; CountsOwnExactly says it holds of no other runs, and KeysNeverOvercount is what holds through eviction.
- AuthProofs.RequestCommitsOnce: for runs that orphan no committed request, because the replacement call does not check the request id, as RequestCanCommitTwice shows.
- RotationTheorems.ReachableSafe: coupling and rising versions of a record whose own protection the run does not lose, because a used-up generation can lose it, as StepKeepsExactly, RefreshCanLose and CancelCanLose show.
- RotationRestore.RollbackRestores: like the other results of its file, for runs in which the record's own protection is not lost; after a loss the entry can be purged and made anew under the same version numbers.
- KvHistory.PurgeRemovesWhatWasPreflighted: assumes a confirmation that does not collide.
