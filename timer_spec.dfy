// The session timer as a state machine over values: what each control operation, the per-second tick
// and the delayed cache eviction do to the session store, the ticking set and the sequence cache.
module TimerSpec {
  import opened Domain
  import opened BlockService
  import opened TimerSessionEntity
  import opened TimeFormat

  /**
   * The status snapshot a control operation returns. Its two rendered times are built from the
   * seconds it carries when the snapshot is made, so they are members derived from those fields.
   */
  datatype StatusView = StatusView(
    sessionId: int,
    blockId: int,
    status: TimerStatus,
    currentPhase: Phase,
    currentPhaseIndex: int,
    remainingSeconds: int,
    totalElapsedSeconds: int,
    totalPhases: int)
  {
    /** The remaining time of the current phase as "MM:SS". */
    function FormattedRemainingTime(): string {
      FormatTime(remainingSeconds)
    }

    /** The elapsed time of the block as "HH:MM:SS". */
    function FormattedElapsedTime(): string {
      FormatElapsedTime(totalElapsedSeconds)
    }
  }

  /** The snapshot of a session row together with its phase list. */
  function ToView(row: SessionRow, items: seq<PhaseSequenceItem>): (v: StatusView)
    ensures v.sessionId == row.id && v.blockId == row.timeBlock.id && v.status == row.status
    ensures v.currentPhase == row.currentPhase && v.currentPhaseIndex == row.currentPhaseIndex
    ensures v.remainingSeconds == row.remainingSeconds && v.totalElapsedSeconds == row.totalElapsedSeconds
    ensures v.totalPhases == |items|
  {
    StatusView(row.id, row.timeBlock.id, row.status, row.currentPhase, row.currentPhaseIndex,
               row.remainingSeconds, row.totalElapsedSeconds, |items|)
  }

  /**
   * Everything the timer service acts on: the stored blocks, the stored session rows, the next
   * identity value, the ids that have a live ticking scheduler, the cached phase lists, and the ids
   * whose cache entry is due to be dropped by a delayed eviction.
   */
  datatype Engine = Engine(
    blocks: map<int, TimeBlock>,
    store: map<int, SessionRow>,
    nextId: int,
    tickers: set<int>,
    sequences: map<int, seq<PhaseSequenceItem>>,
    evictions: multiset<int>)

  /** What an operation returns, and the state it leaves. */
  datatype Step<R> = Step(reply: R, next: Engine)

  type Reply = Result<StatusView, Error>

  predicate IsActive(r: SessionRow) {
    r.status == Running || r.status == Paused
  }

  /** Some stored session is running or paused. */
  predicate AnyActive(store: map<int, SessionRow>) {
    exists id :: id in store && IsActive(store[id])
  }

  /**
   * A stored row is consistent with its block's sequence: the phase index is in range, the phase is
   * that item's, the remaining time lies between zero and the item's full length, and a running or
   * paused session on the last phase has at least one second left.
   */
  predicate RowWf(r: SessionRow) {
    && ValidBlock(r.timeBlock)
    && var items := SequenceFor(r.timeBlock);
    && 0 <= r.currentPhaseIndex < |items|
    && r.currentPhase == items[r.currentPhaseIndex].phase
    && 0 <= r.remainingSeconds <= items[r.currentPhaseIndex].durationMinutes * 60
    && r.totalElapsedSeconds >= 0
    && (IsActive(r) && r.currentPhaseIndex == |items| - 1 ==> r.remainingSeconds >= 1)
  }

  /** The state every operation keeps: valid blocks, consistent rows under their own ids, and a faithful cache. */
  predicate Wf(e: Engine) {
    && (forall b :: b in e.blocks ==> e.blocks[b].id == b && ValidBlock(e.blocks[b]))
    && (forall id :: id in e.store ==> e.store[id].id == id && id < e.nextId && RowWf(e.store[id]))
    && (forall id :: id in e.sequences ==>
          id in e.store && ValidBlock(e.store[id].timeBlock) && e.sequences[id] == SequenceFor(e.store[id].timeBlock))
  }

  /** Shuts down the session's scheduler, if it has one. */
  function StopScheduler(e: Engine, id: int): (r: Engine)
    ensures id !in r.tickers && r.tickers <= e.tickers && e.tickers - r.tickers <= {id}
    ensures r == e.(tickers := r.tickers)
  {
    e.(tickers := e.tickers - {id})
  }

  /** Stops any scheduler of the session, then starts a fresh one. */
  function StartTimer(e: Engine, id: int): (r: Engine)
    ensures id in r.tickers && r.tickers - {id} == e.tickers - {id}
    ensures r == e.(tickers := r.tickers)
  {
    var stopped := StopScheduler(e, id);
    stopped.(tickers := stopped.tickers + {id})
  }

  /** Saves a row under its id, replacing what was stored there. */
  function Put(e: Engine, row: SessionRow): Engine {
    e.(store := e.store[row.id := row])
  }

  /** Saving a consistent row over a stored one of the same block keeps the state well formed. */
  lemma PutKeepsWf(e: Engine, row: SessionRow)
    requires Wf(e) && row.id in e.store && row.timeBlock == e.store[row.id].timeBlock && RowWf(row)
    ensures Wf(Put(e, row))
  {
  }

  /** Moving a row that is not on its last item to the following item, with that item's full length, makes it consistent. */
  lemma AdvanceKeepsRowWf(row: SessionRow, items: seq<PhaseSequenceItem>)
    requires ValidBlock(row.timeBlock) && items == SequenceFor(row.timeBlock)
    requires 0 <= row.currentPhaseIndex < |items| - 1 && row.totalElapsedSeconds >= 0
    ensures var next := items[row.currentPhaseIndex + 1];
            RowWf(row.(currentPhaseIndex := row.currentPhaseIndex + 1, currentPhase := next.phase,
                       remainingSeconds := next.durationMinutes * 60))
  {
    var next := items[row.currentPhaseIndex + 1];
    assert next.durationMinutes >= 0;
    assert row.currentPhaseIndex + 1 == |items| - 1 ==> next.durationMinutes >= 1;
  }

  /**
   * Starts a block: refused while some session is running or paused, or for an unknown block; fails
   * on an empty sequence; otherwise stores a new running session on the first phase with its full
   * length, caches the sequence and starts the session's scheduler.
   */
  function Start(e: Engine, blockId: int, now: Instant): (r: Step<Reply>)
    requires Wf(e)
    ensures Wf(r.next)
  {
    if AnyActive(e.store) then Step(Failure(StateConflict), e)
    else if blockId !in e.blocks then Step(Failure(NotFound), e)
    else
      var block := e.blocks[blockId];
      var items := SequenceFor(block);
      if |items| == 0 then Step(Failure(IndexOutOfBounds), e)
      else
        var row := SessionRow(e.nextId, block, Running, items[0].phase, 0, items[0].durationMinutes * 60, 0,
                              Some(now), None, None);
        var saved := Put(e, row).(nextId := e.nextId + 1);
        Step(Success(ToView(row, items)), StartTimer(saved.(sequences := saved.sequences[row.id := items]), row.id))
  }

  /**
   * Pauses a running session. The scheduler is stopped first; if the session has no cached sequence
   * the snapshot cannot be built, the transaction rolls the row back and only the stop remains.
   */
  function Pause(e: Engine, id: int, now: Instant): (r: Step<Reply>)
    requires Wf(e)
    ensures Wf(r.next)
  {
    if id !in e.store then Step(Failure(NotFound), e)
    else if e.store[id].status != Running then Step(Failure(StateConflict), e)
    else
      var stopped := StopScheduler(e, id);
      var paused := e.store[id].(status := Paused, pausedAt := Some(now));
      if id !in e.sequences then Step(Failure(NullSequence), stopped)
      else Step(Success(ToView(paused, e.sequences[id])), Put(stopped, paused))
  }

  /**
   * Resumes a paused session and restarts its scheduler; without a cached sequence the row is rolled
   * back but the new scheduler stays.
   */
  function Resume(e: Engine, id: int): (r: Step<Reply>)
    requires Wf(e)
    ensures Wf(r.next)
  {
    if id !in e.store then Step(Failure(NotFound), e)
    else if e.store[id].status != Paused then Step(Failure(StateConflict), e)
    else
      var resumed := e.store[id].(status := Running, pausedAt := None);
      if id !in e.sequences then Step(Failure(NullSequence), StartTimer(e, id))
      else Step(Success(ToView(resumed, e.sequences[id])), StartTimer(Put(e, resumed), id))
  }

  /**
   * Restarts a session whatever its status: stops its scheduler, then, from the cached sequence,
   * puts it back on the first phase, running, with nothing elapsed, and starts a scheduler.
   * Without a cached sequence it fails after the stop.
   */
  function Restart(e: Engine, id: int, now: Instant): (r: Step<Reply>)
    requires Wf(e)
    ensures Wf(r.next)
  {
    if id !in e.store then Step(Failure(NotFound), e)
    else
      var stopped := StopScheduler(e, id);
      if id !in e.sequences then Step(Failure(NullSequence), stopped)
      else
        var items := e.sequences[id];
        var row := e.store[id].(status := Running, currentPhase := items[0].phase, currentPhaseIndex := 0,
                                remainingSeconds := items[0].durationMinutes * 60, totalElapsedSeconds := 0,
                                startedAt := Some(now), pausedAt := None, completedAt := None);
        Step(Success(ToView(row, items)), StartTimer(Put(stopped, row), id))
  }

  /** Completes a session: stops its scheduler, marks it completed and schedules the eviction of its cache. */
  function Complete(e: Engine, id: int, now: Instant): (r: Step<Reply>)
    requires id in e.store && e.store[id].id == id && id in e.sequences
    ensures r.reply.Success? && id in r.next.store && id !in r.next.tickers
    ensures r.next.store == e.store[id := e.store[id].(status := Completed, completedAt := Some(now))]
    ensures r.next.tickers == e.tickers - {id} && r.next.sequences == e.sequences
    ensures r.next.evictions == e.evictions + multiset{id}
  {
    var row := e.store[id].(status := Completed, completedAt := Some(now));
    var done := Put(StopScheduler(e, id), row);
    Step(Success(ToView(row, e.sequences[id])), done.(evictions := done.evictions + multiset{id}))
  }

  /**
   * Skips to the next phase of a running or paused session; on the last phase it completes the
   * session instead. The new phase starts with its full length; a paused session stays paused
   * without a scheduler, a running one gets a fresh scheduler.
   */
  function Skip(e: Engine, id: int, now: Instant): (r: Step<Reply>)
    requires Wf(e)
    ensures Wf(r.next)
  {
    if id !in e.store then Step(Failure(NotFound), e)
    else if !IsActive(e.store[id]) then Step(Failure(StateConflict), e)
    else if id !in e.sequences then Step(Failure(NullSequence), e)
    else
      var row := e.store[id];
      var items := e.sequences[id];
      if row.currentPhaseIndex >= |items| - 1 then Complete(e, id, now)
      else SkipAhead(e, id)
  }

  /**
   * Skips an active session that is not on its last phase to the next item with its full length:
   * the scheduler is stopped, and restarted only when the session is running.
   */
  function SkipAhead(e: Engine, id: int): (r: Step<Reply>)
    requires Wf(e) && id in e.store && IsActive(e.store[id]) && id in e.sequences
    requires e.store[id].currentPhaseIndex < |e.sequences[id]| - 1
    ensures Wf(r.next)
    ensures var row := e.store[id];
            && r.reply.Success?
            && id in r.next.store
            && r.next.store[id].status == row.status
            && r.next.store[id].currentPhaseIndex == row.currentPhaseIndex + 1
            && r.next.store[id].remainingSeconds == e.sequences[id][row.currentPhaseIndex + 1].durationMinutes * 60
            && (id in r.next.tickers <==> row.status == Running)
  {
    var row := e.store[id];
    var items := e.sequences[id];
    var next := items[row.currentPhaseIndex + 1];
    var moved := row.(currentPhaseIndex := row.currentPhaseIndex + 1, currentPhase := next.phase,
                      remainingSeconds := next.durationMinutes * 60);
    var stopped := StopScheduler(e, id);
    AdvanceKeepsRowWf(row, items);
    PutKeepsWf(stopped, moved);
    if row.status == Paused then Step(Success(ToView(moved, items)), Put(stopped, moved))
    else Step(Success(ToView(moved, items)), StartTimer(Put(stopped, moved), id))
  }

  /** A skip before the last phase is the skip ahead. */
  lemma SkipGoesAhead(e: Engine, id: int, now: Instant)
    requires Wf(e) && id in e.store && IsActive(e.store[id]) && id in e.sequences
    requires e.store[id].currentPhaseIndex < |e.sequences[id]| - 1
    ensures Skip(e, id, now) == SkipAhead(e, id)
  {
  }

  /** The state and reply after a skip ahead, unfolded for the proofs that need them. */
  lemma SkipAheadState(e: Engine, id: int)
    requires Wf(e) && id in e.store && IsActive(e.store[id]) && id in e.sequences
    requires e.store[id].currentPhaseIndex < |e.sequences[id]| - 1
    ensures var row := e.store[id];
            var next := e.sequences[id][row.currentPhaseIndex + 1];
            var moved := row.(currentPhaseIndex := row.currentPhaseIndex + 1, currentPhase := next.phase,
                              remainingSeconds := next.durationMinutes * 60);
            var r := SkipAhead(e, id);
            && r.reply == Success(ToView(moved, e.sequences[id]))
            && r.next == if row.status == Paused then Put(StopScheduler(e, id), moved)
                         else StartTimer(Put(StopScheduler(e, id), moved), id)
  {
  }

  /** Cancels a session whatever its status: no scheduler, status stopped, cache entry dropped. */
  function Cancel(e: Engine, id: int): (r: Step<Outcome<Error>>)
    requires Wf(e)
    ensures Wf(r.next)
  {
    if id !in e.store then Step(Fail(NotFound), e)
    else
      var stopped := Put(StopScheduler(e, id), e.store[id].(status := Stopped));
      Step(Pass, stopped.(sequences := stopped.sequences - {id}))
  }

  /** The snapshot of a session, recomputing and caching its sequence from its block when the cache has none. */
  function GetStatus(e: Engine, id: int): (r: Step<Reply>)
    requires Wf(e)
    ensures Wf(r.next)
  {
    if id !in e.store then Step(Failure(NotFound), e)
    else if id in e.sequences then Step(Success(ToView(e.store[id], e.sequences[id])), e)
    else
      var items := SequenceFor(e.store[id].timeBlock);
      Step(Success(ToView(e.store[id], items)), e.(sequences := e.sequences[id := items]))
  }

  /**
   * One scheduler tick. A missing or not-running session only loses its scheduler. A running one
   * loses a second of its phase and gains one of elapsed time; when that empties the phase the same
   * tick moves to the next phase with its full length, or completes the session on the last phase.
   * Without a cached sequence the tick fails before saving and changes nothing.
   */
  function Tick(e: Engine, id: int, now: Instant): (r: Engine)
    requires Wf(e)
    ensures Wf(r)
  {
    if id !in e.store || e.store[id].status != Running then StopScheduler(e, id)
    else
      var row := e.store[id];
      var ticked := row.(remainingSeconds := row.remainingSeconds - 1,
                         totalElapsedSeconds := row.totalElapsedSeconds + 1);
      if ticked.remainingSeconds > 0 then PutKeepsWf(e, ticked); Put(e, ticked)
      else if id !in e.sequences then e
      else if row.currentPhaseIndex >= |e.sequences[id]| - 1 then FinishLastPhase(e, id, now)
      else NextPhase(e, id)
  }

  /** The last second of the last phase: the ticked row is saved, then the session completes. */
  function FinishLastPhase(e: Engine, id: int, now: Instant): (r: Engine)
    requires Wf(e) && id in e.store && e.store[id].status == Running && e.store[id].remainingSeconds <= 1
    requires id in e.sequences && e.store[id].currentPhaseIndex >= |e.sequences[id]| - 1
    ensures Wf(r)
    ensures id in r.store && r.store[id].status == Completed && r.store[id].remainingSeconds == 0
    ensures id !in r.tickers && r.evictions == e.evictions + multiset{id}
  {
    var row := e.store[id];
    var ticked := row.(remainingSeconds := row.remainingSeconds - 1,
                       totalElapsedSeconds := row.totalElapsedSeconds + 1);
    PutKeepsWf(e, ticked.(status := Completed, completedAt := Some(now)));
    Complete(Put(e, ticked), id, now).next
  }

  /** The last second of any other phase: the session moves to the next item with its full length. */
  function NextPhase(e: Engine, id: int): (r: Engine)
    requires Wf(e) && id in e.store && e.store[id].status == Running && e.store[id].remainingSeconds <= 1
    requires id in e.sequences && e.store[id].currentPhaseIndex < |e.sequences[id]| - 1
    ensures Wf(r)
    ensures var row := e.store[id];
            && id in r.store && r.store[id].status == Running
            && r.store[id].currentPhaseIndex == row.currentPhaseIndex + 1
            && r.store[id].remainingSeconds == e.sequences[id][row.currentPhaseIndex + 1].durationMinutes * 60
            && r.tickers == e.tickers && r.sequences == e.sequences
  {
    var row := e.store[id];
    var ticked := row.(remainingSeconds := row.remainingSeconds - 1,
                       totalElapsedSeconds := row.totalElapsedSeconds + 1);
    var items := e.sequences[id];
    var next := items[row.currentPhaseIndex + 1];
    AdvanceKeepsRowWf(ticked, items);
    Put(e, ticked.(currentPhaseIndex := row.currentPhaseIndex + 1, currentPhase := next.phase,
                   remainingSeconds := next.durationMinutes * 60))
  }

  /**
   * The tick as the service writes it: on the last phase it completes the session from a separately
   * loaded copy of the row, then saves its own stale copy, which is still running, over the completion.
   */
  function TickAsWritten(e: Engine, id: int, now: Instant): (r: Engine)
    requires Wf(e)
    ensures !(id in e.store && e.store[id].status == Running && e.store[id].remainingSeconds <= 1
              && id in e.sequences && e.store[id].currentPhaseIndex >= |e.sequences[id]| - 1)
            ==> r == Tick(e, id, now)
  {
    if id !in e.store || e.store[id].status != Running then StopScheduler(e, id)
    else
      var row := e.store[id];
      var ticked := row.(remainingSeconds := row.remainingSeconds - 1,
                         totalElapsedSeconds := row.totalElapsedSeconds + 1);
      if ticked.remainingSeconds > 0 then Put(e, ticked)
      else if id !in e.sequences then e
      else
        var items := e.sequences[id];
        if row.currentPhaseIndex >= |items| - 1 then Put(Complete(e, id, now).next, ticked)
        else
          var next := items[row.currentPhaseIndex + 1];
          Put(e, ticked.(currentPhaseIndex := row.currentPhaseIndex + 1, currentPhase := next.phase,
                         remainingSeconds := next.durationMinutes * 60))
  }

  /** The delayed eviction scheduled by a completion: drops the session's cache entry, whatever its status is by then. */
  function Evict(e: Engine, id: int): (r: Engine)
    requires Wf(e) && id in e.evictions
    ensures Wf(r)
  {
    e.(sequences := e.sequences - {id}, evictions := e.evictions - multiset{id})
  }

  /** k consecutive ticks of one session. */
  function Ticks(e: Engine, id: int, k: nat, now: Instant): (r: Engine)
    requires Wf(e)
    ensures Wf(r)
    decreases k
  {
    if k == 0 then e else Ticks(Tick(e, id, now), id, k - 1, now)
  }
}
