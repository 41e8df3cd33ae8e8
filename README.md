# PhaseLock timer — a verified model of the phase sequencer and the session timer

PhaseLock splits a block of work time into a sequence of phases and runs one session of that
sequence at a time with a timer that ticks every second.

This project models the two parts of the program that carry its logic.

**The phase sequencer** (`BlockService`):
- `calculateNumberOfPomodoros` decides how many pomodoros fit in a block.
- `calculateSequence` builds the ordered list of pomodoros, short breaks and the final long break.
- The list comes back in a `BlockSequenceDTO` that derives its phase count from the list.

**The session timer** (`TimerService`):
- It stores a `TimerSession` row per session, keeps a ticking scheduler per running session, and caches each session's phase list.
- The control operations are start, pause, resume, restart, skip and cancel, plus the status query.
- The scheduler's per-second tick advances through the phases and completes the block.
- A completion schedules the delayed eviction of the session's cached list.
- Snapshots render times as "MM:SS" and "HH:MM:SS".

## Layout

- `domain.dfy` (module `Domain`): phases, statuses, sequence items, blocks and their validity bounds. Also the `Option`, `Result` and `Outcome` wrappers and the `Error` kinds, one per exception the core throws.
- `block_sequence_dto.dfy` (module `BlockSequenceDto`): the sequence wrapper as a class whose setters keep or break the derived phase count.
- `block_service.dfy` (module `BlockService`):
  - the pomodoro count, as a function;
  - the sequence, specified position by position, and `CalculateSequence`, the loop that builds it;
  - lemmas about the sequence's shape, counts and total length.
- `time_format.dfy` (module `TimeFormat`): Java's truncating `/` and `%`, the `%02d` padding, both renderings, and parsers that prove the renderings read back.
- `timer_session.dfy` (module `TimerSessionEntity`): the mutable session entity, with its constructor defaults, pre-persist hook and setters, and the row it is stored as.
- `timer_spec.dfy` (module `TimerSpec`): the timer as a state machine over values.
  - An `Engine` holds the stored blocks and rows, the next identity value, the set of ids with a ticking scheduler, the cached lists, and the pending evictions.
  - Every operation is a function from one engine to the next. Each one, except the as-written tick `TickAsWritten` and the `Complete` helper it shares with skip and tick, is proved to keep a well-formedness invariant `Wf`: the phase index stays inside the sequence and the remaining time within the current phase's length.
- `timer_properties.dfy` (module `TimerProperties`): what the operations promise, stated and proved over `TimerSpec`.
- `timer_service.dfy` (module `Service`): the `TimerService` class.
  - Its fields are the store, the scheduler set, the cache and the pending evictions.
  - Its methods load a session entity, change it through its setters, save it, and update the scheduler set and the cache in place.
  - Each method is proved to produce exactly the reply and the new state of its `TimerSpec` counterpart.

## Modelling decisions

**Sessions and transactions**
- The store hands out copies of rows: loading a session gives a fresh entity, and saving writes the entity's fields back as a row.
- The control operations run inside a transaction. When one fails after saving, the saved row is rolled back. The scheduler set and the cache are plain in-memory maps, so their changes stay.
  - A pause of a session without a cached list keeps its stopped scheduler.
  - A resume of such a session keeps its new scheduler.

**Ticks and timers**
- The tick is not transactional. A failure inside it (a missing cached list at the end of a phase) happens before it saves, so the tick changes nothing and the scheduler keeps running.
- Schedulers are a set of session ids. A tick is an operation the environment may apply to any id, at any time.
- The five-second delayed eviction is a pending entry in a multiset. `Evict` is an operation the environment applies later.
- Clock readings are an `Instant` parameter of each operation that stamps a time.

**Errors**
- Exceptions become `Error` values:
  - an unknown id gives `NotFound`;
  - a refused status gives `StateConflict`;
  - a missing cached list gives `NullSequence`;
  - the first phase of an empty sequence gives `IndexOutOfBounds`.
- A block whose sequence is empty, for example total 30, pomodoro 25, short break 10, no long break, makes the start fail with `IndexOutOfBounds`. This is modelled as an error outcome, not as a precondition.

**Behaviour of the code worth knowing**
- A restart checks no status and takes the phase list from the cache (TimerService.java:156-164). So a restart straight after a cancel fails, because the cancel dropped the cached list. A status query in between puts the list back, and the restart then succeeds. A restart can also make a second session active.
- The status query runs in a read-only transaction, but it stores the list it recomputes in the cache (TimerService.java:248-266).
- The tick that takes the remaining time to zero also moves to the next item with its full length, in that same tick (TimerService.java:333-338). So a phase of m ≥ 1 minutes runs for m·60 ticks, and a phase with time left never shows "00:00". A zero-minute short break, which the validation bounds allow, is the exception: it shows "00:00" for one tick (`ZeroMinuteBreakLastsOneTick`).

## Model

| member | source | states |
|---|---|---|
| BlockService.NumberOfPomodoros | src/main/java/com/portafolio/PhaseLock_timer/service/BlockService.java:36-48 | The count is exactly 1 when the time left after the long break is shorter than one pomodoro, even when the long break exceeds the total. Otherwise it is the largest n with n cycles of pomodoro plus short break fitting in that time, which can be 0. |
| BlockService.CalculateSequence | src/main/java/com/portafolio/PhaseLock_timer/service/BlockService.java:54-95 | The loop returns a new wrapper. It carries the input total, the pomodoro count, and exactly the position-wise sequence for that count, with a phase count that matches the list. |
| BlockService.SequenceFor | src/main/java/com/portafolio/PhaseLock_timer/service/BlockService.java:54-95 | A valid block's sequence has no negative duration. Its first and last items last at least one minute. |
| BlockService.SequenceShape | src/main/java/com/portafolio/PhaseLock_timer/service/BlockService.java:64-92 | The length is 2n-1, plus one when there is a long break. Items are numbered 1, 2, … in order, and each kind carries its own duration. A pomodoro comes first. Pomodoros and short breaks alternate, so no two breaks are adjacent. A long break is present exactly when its duration is positive, and then it is last. |
| BlockService.PrefixCounts | src/main/java/com/portafolio/PhaseLock_timer/service/BlockService.java:67-92 | Gives how many pomodoros, short breaks and long breaks each prefix of the sequence holds. |
| BlockService.PhaseCounts | src/main/java/com/portafolio/PhaseLock_timer/service/BlockService.java:67-92 | The sequence has exactly n pomodoros, n-1 short breaks (none for n = 0), and one long break exactly when its duration is positive. |
| BlockService.WeightedTotal | src/main/java/com/portafolio/PhaseLock_timer/service/BlockService.java:67-92 | When every item carries its kind's duration, the total is the sum over the kinds of count times duration. |
| BlockService.SequenceTotal | src/main/java/com/portafolio/PhaseLock_timer/service/BlockService.java:67-92 | The sequence lasts n pomodoros plus n-1 short breaks plus the long break. |
| BlockService.SequenceFits | src/main/java/com/portafolio/PhaseLock_timer/service/BlockService.java:32-47 | When the count comes from the division, the whole sequence fits in the block's total duration. |
| BlockService.FloorCanOverrun | src/main/java/com/portafolio/PhaseLock_timer/service/BlockService.java:43-45 | The one-pomodoro floor can exceed the block: a 10-minute block of 25-minute pomodoros lasts 25 minutes. |
| BlockService.DefaultBlockExample | src/main/java/com/portafolio/PhaseLock_timer/service/BlockService.java:50-52 | (120, 25, 5, 30) gives three pomodoros: P25, S5, P25, S5, P25, L30, numbered 1 to 6. |
| BlockService.EmptySequenceExample | src/main/java/com/portafolio/PhaseLock_timer/service/BlockService.java:40-47 | (30, 25, 10, 0) gives no pomodoro and an empty sequence. |
| BlockSequenceDto.BlockSequence.constructor | src/main/java/com/portafolio/PhaseLock_timer/dto/BlockSequenceDTO.java:14-20 | Stores the total, the count and the list unchanged. The phase count equals the list's size, and is 0 for a null list. |
| BlockSequenceDto.BlockSequence.SetSequence | src/main/java/com/portafolio/PhaseLock_timer/dto/BlockSequenceDTO.java:42-45 | Replaces the list and keeps the phase count equal to its size (0 for null). The other fields are unchanged. |
| BlockSequenceDto.BlockSequence.SetTotalPhases | src/main/java/com/portafolio/PhaseLock_timer/dto/BlockSequenceDTO.java:51-53 | Overwrites the phase count and nothing else. The wrapper stays consistent exactly when the new count is the list's size. |
| TimeFormat.Pad2 | src/main/java/com/portafolio/PhaseLock_timer/service/TimerService.java:450 | `%02d` of a non-negative value is at least two digits that denote the value, and exactly two below 100. A negative value keeps its minus sign in front. |
| TimeFormat.MinutesSeconds | src/main/java/com/portafolio/PhaseLock_timer/service/TimerService.java:447-451 | For s >= 0, the minutes s / 60 and the seconds s % 60 (below 60) recombine to s. |
| TimeFormat.HoursMinutesSeconds | src/main/java/com/portafolio/PhaseLock_timer/service/TimerService.java:456-461 | For s >= 0, the hours, the minutes (below 60) and the seconds (below 60) recombine to s. |
| TimeFormat.FormatTime | src/main/java/com/portafolio/PhaseLock_timer/service/TimerService.java:447-451 | For any s >= 0, the "MM:SS" rendering has at least five characters, and an independent parser reads it back to s. |
| TimeFormat.FormatElapsedTime | src/main/java/com/portafolio/PhaseLock_timer/service/TimerService.java:456-461 | For any s >= 0, the "HH:MM:SS" rendering has at least eight characters, and an independent parser reads it back to s. |
| TimeFormat.NegativeRemainingExample | src/main/java/com/portafolio/PhaseLock_timer/service/TimerService.java:447-451 | With Java's truncating arithmetic, -1 second renders as "00:-1". |
| TimerSessionEntity.TimerSession.constructor | src/main/java/com/portafolio/PhaseLock_timer/model/TimerSession.java:55-61 | A new session of a block is stopped, on a pomodoro at index 0, with nothing elapsed. Its id, its remaining time and its three stamps are unset. |
| TimerSessionEntity.TimerSession.Load | src/main/java/com/portafolio/PhaseLock_timer/model/TimerSession.java:52-53 | The entity loaded from a row has an id and a remaining time, and holds exactly that row. |
| TimerSessionEntity.TimerSession.OnCreate | src/main/java/com/portafolio/PhaseLock_timer/model/TimerSession.java:44-49 | Stamps the start time only when it is unset and the session is running. Otherwise, and for every other field, nothing changes. |
| TimerSessionEntity.TimerSession.SetId | src/main/java/com/portafolio/PhaseLock_timer/model/TimerSession.java:68-70 | Changes the id and no other field. |
| TimerSessionEntity.TimerSession.SetTimeBlock | src/main/java/com/portafolio/PhaseLock_timer/model/TimerSession.java:76-78 | Changes the block and no other field. |
| TimerSessionEntity.TimerSession.SetStatus | src/main/java/com/portafolio/PhaseLock_timer/model/TimerSession.java:84-86 | Changes the status and no other field. |
| TimerSessionEntity.TimerSession.SetCurrentPhase | src/main/java/com/portafolio/PhaseLock_timer/model/TimerSession.java:92-94 | Changes the phase and no other field. |
| TimerSessionEntity.TimerSession.SetCurrentPhaseIndex | src/main/java/com/portafolio/PhaseLock_timer/model/TimerSession.java:100-102 | Changes the phase index and no other field. |
| TimerSessionEntity.TimerSession.SetRemainingSeconds | src/main/java/com/portafolio/PhaseLock_timer/model/TimerSession.java:108-110 | Changes the remaining time and no other field. |
| TimerSessionEntity.TimerSession.SetTotalElapsedSeconds | src/main/java/com/portafolio/PhaseLock_timer/model/TimerSession.java:116-118 | Changes the elapsed time and no other field. |
| TimerSessionEntity.TimerSession.SetStartedAt | src/main/java/com/portafolio/PhaseLock_timer/model/TimerSession.java:124-126 | Changes the start stamp and no other field. |
| TimerSessionEntity.TimerSession.SetPausedAt | src/main/java/com/portafolio/PhaseLock_timer/model/TimerSession.java:132-134 | Changes the pause stamp and no other field. |
| TimerSessionEntity.TimerSession.SetCompletedAt | src/main/java/com/portafolio/PhaseLock_timer/model/TimerSession.java:140-142 | Changes the completion stamp and no other field. |
| TimerSpec.ToView | src/main/java/com/portafolio/PhaseLock_timer/service/TimerService.java:429-442 | The snapshot copies the row's id, block id, status, phase, index and both times, and counts the items of the list. ViewReadsBack proves that its two renderings read back to those times. |
| TimerSpec.StopScheduler | src/main/java/com/portafolio/PhaseLock_timer/service/TimerService.java:411-416 | Shutting a scheduler down leaves the session without one, removes no other session's scheduler, and changes nothing else. |
| TimerSpec.StartTimer | src/main/java/com/portafolio/PhaseLock_timer/service/TimerService.java:302-317 | Starting a timer leaves the session with a scheduler, keeps every other session's scheduler as it was, and changes nothing else. |
| TimerSpec.Start | src/main/java/com/portafolio/PhaseLock_timer/service/TimerService.java:56-104 | Starting keeps the state well formed. Every row's phase index stays inside its sequence, its remaining time stays within the phase's length, and every cached list is its block's sequence. |
| TimerSpec.Pause | src/main/java/com/portafolio/PhaseLock_timer/service/TimerService.java:109-128 | Pausing, including its rolled-back failure, keeps the state well formed. |
| TimerSpec.Resume | src/main/java/com/portafolio/PhaseLock_timer/service/TimerService.java:133-151 | Resuming, including its rolled-back failure, keeps the state well formed. |
| TimerSpec.Restart | src/main/java/com/portafolio/PhaseLock_timer/service/TimerService.java:156-183 | Restarting keeps the state well formed. The first item it reads always exists. |
| TimerSpec.Skip | src/main/java/com/portafolio/PhaseLock_timer/service/TimerService.java:188-226 | Skipping keeps the state well formed. The phase index never leaves the sequence, and a running or paused session on its last phase keeps at least one second. |
| TimerSpec.Complete | src/main/java/com/portafolio/PhaseLock_timer/service/TimerService.java:382-406 | Completing succeeds. The row becomes COMPLETED with a completion stamp, its phase and times kept. The session loses its scheduler, and one eviction of its cached list joins the pending ones. The cache itself stays. |
| TimerSpec.SkipAhead | src/main/java/com/portafolio/PhaseLock_timer/service/TimerService.java:203-225 | Moving an active session to the next item keeps the state well formed and succeeds. The row is on the next index with that item's full length, its status is kept, and it has a scheduler exactly when it is running. |
| TimerSpec.Cancel | src/main/java/com/portafolio/PhaseLock_timer/service/TimerService.java:231-243 | Cancelling keeps the state well formed. |
| TimerSpec.GetStatus | src/main/java/com/portafolio/PhaseLock_timer/service/TimerService.java:248-266 | The status query, with its cache recompute, keeps the state well formed. |
| TimerSpec.Tick | src/main/java/com/portafolio/PhaseLock_timer/service/TimerService.java:323-359 | The corrected tick keeps the state well formed, including through a phase change and a completion. |
| TimerSpec.TickAsWritten | src/main/java/com/portafolio/PhaseLock_timer/service/TimerService.java:322-359 | The tick as written agrees with the corrected Tick everywhere except on the last second of the last phase. There TickAsWrittenLosesCompletion shows it leaves the session RUNNING with nothing left. |
| TimerSpec.FinishLastPhase | src/main/java/com/portafolio/PhaseLock_timer/service/TimerService.java:338-343 | The tick that ends the last phase keeps the state well formed. The row is completed with nothing left, it has no scheduler, and one eviction of its cached list is added to the pending ones. |
| TimerSpec.NextPhase | src/main/java/com/portafolio/PhaseLock_timer/service/TimerService.java:344-352 | The tick that ends any other phase keeps the state well formed. The row stays running on the next index with that item's full length, and the schedulers and the cache are unchanged. |
| TimerSpec.Evict | src/main/java/com/portafolio/PhaseLock_timer/service/TimerService.java:398-403 | The delayed eviction keeps the state well formed. |
| TimerSpec.Ticks | src/main/java/com/portafolio/PhaseLock_timer/service/TimerService.java:309-316 | Any number of consecutive ticks keeps the state well formed. |
| TimerProperties.StartAdmission | src/main/java/com/portafolio/PhaseLock_timer/service/TimerService.java:58-85 | A start succeeds exactly when no session is running or paused, the block exists and its sequence is not empty. It is refused with a conflict while a session is active, and with NotFound for an unknown block. A refusal changes nothing. |
| TimerProperties.StartEffect | src/main/java/com/portafolio/PhaseLock_timer/service/TimerService.java:80-100 | A successful start adds one row under a fresh id: running, on the first item, with its full length and nothing elapsed. It caches the sequence and adds exactly one scheduler. The reply is that row's snapshot. |
| TimerProperties.StartLeavesOneActive | src/main/java/com/portafolio/PhaseLock_timer/service/TimerService.java:58-98 | A successful start happens only with no session active, and leaves the new session as the only active one. |
| TimerProperties.PauseOnlyWhenRunning | src/main/java/com/portafolio/PhaseLock_timer/service/TimerService.java:109-114 | A pause is refused with a conflict exactly when the session is not running, and the refusal changes nothing. |
| TimerProperties.ResumeOnlyWhenPaused | src/main/java/com/portafolio/PhaseLock_timer/service/TimerService.java:133-138 | A resume is refused with a conflict exactly when the session is not paused, and the refusal changes nothing. |
| TimerProperties.PauseResumeRoundTrip | src/main/java/com/portafolio/PhaseLock_timer/service/TimerService.java:109-151 | A pause makes the session paused and stamped, with no scheduler and its index and times untouched. A resume right after it restores the state exactly, except that the pause stamp is cleared. |
| TimerProperties.ResumeEffect | src/main/java/com/portafolio/PhaseLock_timer/service/TimerService.java:133-151 | Resuming any paused session that has a cached list succeeds. The session becomes running with the pause stamp cleared and its phase and times unchanged. It gains a scheduler, and nothing else changes. |
| TimerProperties.SkipOnlyWhenActive | src/main/java/com/portafolio/PhaseLock_timer/service/TimerService.java:188-193 | A skip is refused with a conflict exactly when the session is neither running nor paused. Every failed skip changes nothing. |
| TimerProperties.SkipAdvances | src/main/java/com/portafolio/PhaseLock_timer/service/TimerService.java:203-225 | A skip before the last phase moves to index + 1 with that item's full length, keeping the status and the elapsed time. A paused session keeps no scheduler and a running one keeps one. Other sessions and the cache are untouched. |
| TimerProperties.SkipOnLastPhaseCompletes | src/main/java/com/portafolio/PhaseLock_timer/service/TimerService.java:197-201 | A skip on the last phase completes the session and stamps it, keeping its index and times. It removes the scheduler, keeps the cache and schedules the cache's eviction. |
| TimerProperties.CancelEffect | src/main/java/com/portafolio/PhaseLock_timer/service/TimerService.java:231-243 | A cancel, whatever the status, leaves the session stopped with no scheduler and no cached list, and touches no other session. |
| TimerProperties.CancelIdempotent | src/main/java/com/portafolio/PhaseLock_timer/service/TimerService.java:231-243 | Cancelling twice gives the same reply and state as cancelling once, for any id. |
| TimerProperties.UnknownSessionRejected | src/main/java/com/portafolio/PhaseLock_timer/service/TimerService.java:421-424 | On an unknown id every session operation fails with NotFound and changes nothing. A tick only drops the scheduler. |
| TimerProperties.IdleTickStopsScheduler | src/main/java/com/portafolio/PhaseLock_timer/service/TimerService.java:323-330 | A tick on a stored session that is not running drops its scheduler and changes nothing else. |
| TimerProperties.RestartResets | src/main/java/com/portafolio/PhaseLock_timer/service/TimerService.java:156-183 | A restart with a cached list, from any status, leaves the session running on the first item with its full length and nothing elapsed. The start stamp is new, the pause and completion stamps are cleared, and it has a scheduler. The session joins the active ones. |
| TimerProperties.RestartWithoutCacheFails | src/main/java/com/portafolio/PhaseLock_timer/service/TimerService.java:156-164 | Without a cached list, a restart fails with NullSequence after stopping the scheduler. The row is unchanged. |
| TimerProperties.RestartAfterCancelFails | src/main/java/com/portafolio/PhaseLock_timer/service/TimerService.java:156-164 | A restart straight after a cancel fails with the null-list error and changes nothing, because the cancel dropped the list the restart reads. |
| TimerProperties.RestartAfterCancelAndStatusSucceeds | src/main/java/com/portafolio/PhaseLock_timer/service/TimerService.java:248-266 | After a cancel, a status query caches the block's list again, and a restart then succeeds: the session runs again on item 0 with a scheduler. |
| TimerProperties.RestartIgnoresOtherActiveSession | src/main/java/com/portafolio/PhaseLock_timer/service/TimerService.java:156-166 | A restart checks no other session. Restarting one session while another is active leaves two active sessions. |
| TimerProperties.SecondActiveSessionReachable | src/main/java/com/portafolio/PhaseLock_timer/service/TimerService.java:156-166 | From an empty store, the sequence start, cancel, start, status query of the first session, restart of the first session leaves two running sessions. |
| TimerProperties.ReplaceActivatesNone | src/main/java/com/portafolio/PhaseLock_timer/service/TimerService.java:60 | Replacing one row by one that is active only if the old one was adds no active id. |
| TimerProperties.PauseActivatesNone | src/main/java/com/portafolio/PhaseLock_timer/service/TimerService.java:109-128 | A pause never makes a session active that was not. |
| TimerProperties.ResumeActivatesNone | src/main/java/com/portafolio/PhaseLock_timer/service/TimerService.java:133-151 | A resume never makes a session active that was not. |
| TimerProperties.SkipActivatesNone | src/main/java/com/portafolio/PhaseLock_timer/service/TimerService.java:188-226 | A skip never makes a session active that was not. |
| TimerProperties.CancelActivatesNone | src/main/java/com/portafolio/PhaseLock_timer/service/TimerService.java:231-243 | A cancel never makes a session active that was not. |
| TimerProperties.TickActivatesNone | src/main/java/com/portafolio/PhaseLock_timer/service/TimerService.java:323-359 | A tick never makes a session active that was not. |
| TimerProperties.SingleActiveKept | src/main/java/com/portafolio/PhaseLock_timer/service/TimerService.java:58-65 | Start, pause, resume, skip, cancel and tick all keep at most one session running or paused. |
| TimerProperties.SubsetKeepsSingle | src/main/java/com/portafolio/PhaseLock_timer/service/TimerService.java:58-65 | A store whose active ids are among those of a store with at most one active session has at most one as well. |
| TimerProperties.RestartKeepsSingleActiveWhenAlone | src/main/java/com/portafolio/PhaseLock_timer/service/TimerService.java:156-183 | A restart keeps at most one session active when the restarted session is the active one, or when none is active. |
| TimerProperties.StartKeepsInv | src/main/java/com/portafolio/PhaseLock_timer/service/TimerService.java:92-98 | A start keeps the invariant that every active session has a cached list, and that exactly the running sessions have a scheduler. |
| TimerProperties.PauseKeepsInv | src/main/java/com/portafolio/PhaseLock_timer/service/TimerService.java:117-122 | A pause keeps that invariant. |
| TimerProperties.ResumeKeepsInv | src/main/java/com/portafolio/PhaseLock_timer/service/TimerService.java:141-145 | A resume keeps that invariant. |
| TimerProperties.RestartKeepsInv | src/main/java/com/portafolio/PhaseLock_timer/service/TimerService.java:156-178 | A restart keeps that invariant. |
| TimerProperties.SkipKeepsInv | src/main/java/com/portafolio/PhaseLock_timer/service/TimerService.java:188-226 | A skip keeps that invariant. |
| TimerProperties.CancelKeepsInv | src/main/java/com/portafolio/PhaseLock_timer/service/TimerService.java:231-243 | A cancel keeps that invariant. |
| TimerProperties.GetStatusKeepsInv | src/main/java/com/portafolio/PhaseLock_timer/service/TimerService.java:248-266 | A status query keeps that invariant. |
| TimerProperties.TickKeepsInv | src/main/java/com/portafolio/PhaseLock_timer/service/TimerService.java:323-359 | The corrected tick keeps that invariant. |
| TimerProperties.EvictKeepsInv | src/main/java/com/portafolio/PhaseLock_timer/service/TimerService.java:398-403 | The delayed eviction keeps that invariant as long as the evicted session is not active again. |
| TimerProperties.RunsToPhaseEnd | src/main/java/com/portafolio/PhaseLock_timer/service/TimerService.java:333-352 | A running phase other than the last lasts as many ticks as it has seconds left, and a phase with nothing left lasts exactly one tick. Then the session is on the next item with its full length, still running, with that many more seconds elapsed, and nothing else changed. |
| TimerProperties.TickCountsDown | src/main/java/com/portafolio/PhaseLock_timer/service/TimerService.java:333-336 | A tick of a running session with more than one second left takes one second off the remaining time and adds one to the elapsed time, and changes nothing else. |
| TimerProperties.LastTickAdvances | src/main/java/com/portafolio/PhaseLock_timer/service/TimerService.java:338-352 | The last second of a phase other than the last moves the session to the next item with its full length, still running, one second more elapsed. |
| TimerProperties.ZeroMinuteBreakLastsOneTick | src/main/java/com/portafolio/PhaseLock_timer/service/TimerService.java:333-352 | For the block of 2 minutes with 1-minute pomodoros and no breaks, the list is [P1, S0, P1]. After 60 ticks the session is on the zero-minute short break with nothing left, and the next tick moves it to the last pomodoro with 60 seconds. |
| TimerProperties.LastPhaseRunsToCompletion | src/main/java/com/portafolio/PhaseLock_timer/service/TimerService.java:338-343 | With the corrected tick, after as many ticks as the last phase has seconds left, the session is completed and stamped with nothing left. Its elapsed time counts every tick, its scheduler is gone and its eviction is scheduled. |
| TimerProperties.LastTickCompletes | src/main/java/com/portafolio/PhaseLock_timer/service/TimerService.java:338-343 | With the corrected tick, the last second of the last phase completes and stamps the session. It takes the scheduler away and schedules the eviction. |
| TimerProperties.TickAsWrittenLosesCompletion | src/main/java/com/portafolio/PhaseLock_timer/service/TimerService.java:341-355 | The tick as written, on the last second of the last phase, leaves the session running with nothing left, no scheduler and an eviction pending. That state is not well formed. The corrected tick completes the session instead. |
| TimerProperties.UncachedSessionStalls | src/main/java/com/portafolio/PhaseLock_timer/service/TimerService.java:338-341 | A running session with no cached list, at the end of its phase, is left unchanged by any number of ticks. |
| TimerProperties.EvictionStrandsRestartedSession | src/main/java/com/portafolio/PhaseLock_timer/service/TimerService.java:398-403 | If a completed session is restarted before its eviction fires, the eviction leaves it running with a scheduler but without a cached list. |
| TimerProperties.GetStatusRecomputesCache | src/main/java/com/portafolio/PhaseLock_timer/service/TimerService.java:248-266 | The status of a stored session is its row's snapshot with the phase count of its block's sequence. That sequence is cached afterwards, and nothing else changes. |
| TimerProperties.ViewReadsBack | src/main/java/com/portafolio/PhaseLock_timer/service/TimerService.java:429-442 | A snapshot copies the row's identity and status, and its phase count is the list's size. Its rendered times ("MM:SS" and "HH:MM:SS") read back to the row's non-negative times. |
| TimerProperties.StoredViewsReadBack | src/main/java/com/portafolio/PhaseLock_timer/service/TimerService.java:436-440 | In a well-formed state, every stored session's snapshot renders times that read back to its row's times. |
| Service.TimerService.constructor | src/main/java/com/portafolio/PhaseLock_timer/service/TimerService.java:36-51 | A new service has no session, no scheduler, an empty cache and no pending eviction. |
| Service.TimerService.GetSession | src/main/java/com/portafolio/PhaseLock_timer/service/TimerService.java:421-424 | Returns a fresh entity holding the stored row, or NotFound exactly when there is no row with that id. |
| Service.TimerService.Save | src/main/java/com/portafolio/PhaseLock_timer/service/TimerService.java:122 | A save writes the entity's row over the stored row with its id. Nothing else changes: the other rows, the schedulers, the cache and the pending evictions stay as they were. |
| Service.TimerService.Insert | src/main/java/com/portafolio/PhaseLock_timer/service/TimerService.java:91-92 | Saving a new entity runs its pre-persist hook, gives it the next identity value and stores its row under that id. |
| Service.TimerService.StopScheduler | src/main/java/com/portafolio/PhaseLock_timer/service/TimerService.java:411-416 | Removes the session's scheduler, if any, and nothing else. |
| Service.TimerService.StartTimer | src/main/java/com/portafolio/PhaseLock_timer/service/TimerService.java:302-317 | Leaves exactly one scheduler for the session, and nothing else changed. |
| Service.TimerService.StartBlock | src/main/java/com/portafolio/PhaseLock_timer/service/TimerService.java:56-104 | Produces the reply and new state of TimerSpec.Start and keeps the state well formed. |
| Service.TimerService.PauseTimer | src/main/java/com/portafolio/PhaseLock_timer/service/TimerService.java:109-128 | Produces the reply and new state of TimerSpec.Pause, including the rollback, and keeps the state well formed. |
| Service.TimerService.ResumeTimer | src/main/java/com/portafolio/PhaseLock_timer/service/TimerService.java:133-151 | Produces the reply and new state of TimerSpec.Resume, including the rollback, and keeps the state well formed. |
| Service.TimerService.RestartBlock | src/main/java/com/portafolio/PhaseLock_timer/service/TimerService.java:156-183 | Produces the reply and new state of TimerSpec.Restart and keeps the state well formed. |
| Service.TimerService.SkipToNextPhase | src/main/java/com/portafolio/PhaseLock_timer/service/TimerService.java:188-226 | Produces the reply and new state of TimerSpec.Skip and keeps the state well formed. |
| Service.TimerService.SkipAheadOf | src/main/java/com/portafolio/PhaseLock_timer/service/TimerService.java:203-225 | Stops the scheduler, moves the session to the next item, saves it and restarts the scheduler only for a running session. This produces exactly the reply and the state of TimerSpec.SkipAhead. |
| Service.TimerService.MoveTo | src/main/java/com/portafolio/PhaseLock_timer/service/TimerService.java:207-212 | Sets the session's index, phase and remaining time to the given item and its full length, and changes no other field. |
| Service.TimerService.CancelBlock | src/main/java/com/portafolio/PhaseLock_timer/service/TimerService.java:231-243 | Produces the outcome and new state of TimerSpec.Cancel and keeps the state well formed. |
| Service.TimerService.GetTimerStatus | src/main/java/com/portafolio/PhaseLock_timer/service/TimerService.java:248-266 | Produces the reply and new state of TimerSpec.GetStatus, recomputing the list with CalculateSequence, and keeps the state well formed. |
| Service.TimerService.UpdateTimer | src/main/java/com/portafolio/PhaseLock_timer/service/TimerService.java:323-359 | Produces the new state of the corrected TimerSpec.Tick and keeps the state well formed. |
| Service.TimerService.CompleteBlock | src/main/java/com/portafolio/PhaseLock_timer/service/TimerService.java:382-406 | Marks the session completed and stamped, stops its scheduler, returns its snapshot and schedules the eviction of its cached list, as TimerSpec.Complete does. |
| Service.TimerService.EvictSequence | src/main/java/com/portafolio/PhaseLock_timer/service/TimerService.java:398-403 | Drops the session's cached list and one pending eviction, as TimerSpec.Evict does, and keeps the state well formed. |

## Left out

**Operations not modelled**
- `getActiveSession` (TimerService.java:271-297) is not modelled. It picks the most recently started active session through a database query ordered by start stamp, and the order among equal or missing stamps is left to the database. Its cache recompute is the one `GetStatus` models.
- The rest of `BlockService` is not modelled: `createBlock`, `createBlockWithDefaults`, `getBlockById`, `getAllBlocks`, `previewSequence` and its `toDTO`. They wrap `calculateSequence` in repository and DTO plumbing. The blocks are a read-only map here.
- The plain accessors are not modelled: the getters, the no-argument constructor of `BlockSequenceDTO` and its setters for the total and the count. They read or write one field and carry no logic.

**Runtime, persistence and messaging**
- Thread scheduling is replaced by explicit operations that the environment may apply in any order: the executor, `shutdownNow`, the 1-second fixed rate, `@Async` and the `java.util.Timer` behind the delayed eviction. Each operation is atomic, so the interleaving of a tick with a control operation on the same row, inside one operation, is not modelled.
- The WebSocket push of `sendTimerUpdate` is left out. It is a fire-and-forget side effect whose failures are swallowed, and it never changes the state.
- Persistence is a map of rows with an identity counter. The lazy block association is a copy of the block value. `@Transactional` is modelled only through the rollbacks it causes.
- The cache holds the list of items, not the `BlockSequenceDTO` object. The timer reads nothing from the wrapper but the list.
- ToView: the snapshot's two rendered times are members derived from the seconds it carries, not stored string fields. The service builds them once from those same seconds, so they agree for every snapshot it returns.

**Values**
- Timestamps are an abstract `Instant` passed in by the caller. `LocalDateTime.now()` is not modelled.
- Pad2: the renderings assume a default format locale with Latin digits. `String.format` is called without a locale (TimerService.java:450, :460), so a default locale with other digit shapes, such as Arabic-Indic or Devanagari, would print other characters. The read-back properties hold only for ASCII digits.
- 32-bit `Integer` overflow is not modelled: `minutes * 60` and the elapsed-seconds counter are unbounded integers.

**The as-written tick**
- TickAsWritten: the state it leaves is outside `Wf`, and the other operations are proved only over `Wf` states. So the model does not follow the stuck session further. What a later skip, pause or resume does to it is stated in the Findings row from the code, not proved.

**Not modelled at all**
- The HTTP controllers, the configuration and bootstrap classes, and all front-end JavaScript.

## Findings

| source | as written | input that shows it | evidently intended | confidence | as-written member | corrected member |
|---|---|---|---|---|---|---|
| src/main/java/com/portafolio/PhaseLock_timer/service/TimerService.java:341-355 | On the last phase, `updateTimer` calls `completeBlock`, which loads its own copy of the row and saves it as COMPLETED. `updateTimer` then saves its own stale copy, still RUNNING, over it. The scheduler is already stopped, so the session stays RUNNING with 0 seconds left and is not ticked again. It blocks every later start until it is cancelled. A skip completes it only while its list is cached: within the 5 s before the eviction (:398-403), or after a status or active-session query caches the list again (:248-297). Otherwise the skip fails on the missing list (:197). A pause after the eviction fails in `toDTO` and is rolled back. When a pause and a resume do go through, the session gets exactly one more tick. That tick takes it to "00:-1" and calls `completeBlock` again (:342), and the stale save leaves it stuck again. | A running session on the last phase of a block with total 1, pomodoro 1, short break 0, long break 0 (sequence [P1]), after 59 ticks, with 1 second left; the next tick. | The final tick saves the ticked row and then completes the session, which stays COMPLETED. | high (reasoned from the code, not executed) | TimerProperties.TickAsWrittenLosesCompletion (over TimerSpec.TickAsWritten) | TimerSpec.Tick, with TimerProperties.LastPhaseRunsToCompletion; Service.TimerService.UpdateTimer implements it |
