// The timer service: the stored blocks and sessions, the per-session schedulers and the sequence
// cache, changed in place by the control operations and the scheduler's tick. Each operation is
// proved to do exactly what its TimerSpec counterpart does.
module Service {
  import opened Domain
  import opened BlockService
  import opened BlockSequenceDto
  import opened TimerSessionEntity
  import opened TimerSpec

  class TimerService {
    var blocks: map<int, TimeBlock>
    var store: map<int, SessionRow>
    var nextId: int
    var activeTimers: set<int>
    var sessionSequences: map<int, seq<PhaseSequenceItem>>
    var pendingEvictions: multiset<int>

    /** The service's state as a TimerSpec engine. */
    function State(): Engine
      reads this
    {
      Engine(blocks, store, nextId, activeTimers, sessionSequences, pendingEvictions)
    }

    predicate Valid()
      reads this
    {
      Wf(State())
    }

    /** A service over a set of configured blocks, with no session, no scheduler and an empty cache. */
    constructor (configured: map<int, TimeBlock>)
      requires forall b :: b in configured ==> configured[b].id == b && ValidBlock(configured[b])
      ensures State() == Engine(configured, map[], 1, {}, map[], multiset{})
      ensures Valid()
    {
      blocks := configured;
      store := map[];
      nextId := 1;
      activeTimers := {};
      sessionSequences := map[];
      pendingEvictions := multiset{};
    }

    /** Loads a session entity from its row, or fails with NotFound. */
    method GetSession(id: int) returns (r: Result<TimerSession, Error>)
      ensures r.Success? <==> id in store
      ensures r.Failure? ==> r.error == NotFound
      ensures r.Success? ==> fresh(r.value) && r.value.Persistable() && r.value.Row() == store[id]
    {
      if id !in store {
        return Failure(NotFound);
      }
      var session := new TimerSession.Load(store[id]);
      return Success(session);
    }

    /** Writes an entity over the row with its id. */
    method Save(session: TimerSession)
      requires session.Persistable()
      modifies this
      ensures State() == Put(old(State()), session.Row())
    {
      store := store[session.id.value := session.Row()];
    }

    /** Persists a new entity: runs its pre-persist hook, gives it the next identity value and writes its row. */
    method Insert(session: TimerSession, now: Instant)
      requires session.id.None? && session.remainingSeconds.Some?
      modifies this, session
      ensures var f := old(session.Fields());
              var stamped := if f.startedAt.None? && f.status == Running then f.(startedAt := Some(now)) else f;
              session.Fields() == stamped.(id := Some(old(nextId)))
      ensures session.Persistable()
      ensures State() == Put(old(State()), session.Row()).(nextId := old(nextId) + 1)
    {
      session.OnCreate(now);
      session.SetId(Some(nextId));
      store := store[nextId := session.Row()];
      nextId := nextId + 1;
    }

    /** Shuts down and forgets the session's scheduler, if it has one. */
    method StopScheduler(id: int)
      modifies this
      ensures State() == TimerSpec.StopScheduler(old(State()), id)
    {
      activeTimers := activeTimers - {id};
    }

    /** Replaces any scheduler of the session by a fresh one ticking every second. */
    method StartTimer(id: int)
      modifies this
      ensures State() == TimerSpec.StartTimer(old(State()), id)
    {
      StopScheduler(id);
      activeTimers := activeTimers + {id};
    }

    method StartBlock(blockId: int, now: Instant) returns (r: Reply)
      requires Valid()
      modifies this
      ensures Step(r, State()) == Start(old(State()), blockId, now)
      ensures Valid()
    {
      if AnyActive(store) {
        return Failure(StateConflict);
      }
      if blockId !in blocks {
        return Failure(NotFound);
      }
      ghost var e0 := State();
      var block := blocks[blockId];
      var dto := CalculateSequence(block.totalDurationMinutes, block.pomodoroDurationMinutes,
                                   block.shortBreakDurationMinutes, block.longBreakDurationMinutes);
      var session := new TimerSession(block);
      session.SetStatus(Running);
      session.SetStartedAt(Some(now));
      var items := dto.sequence.value;
      assert items == SequenceFor(block);
      if |items| == 0 {
        return Failure(IndexOutOfBounds);
      }
      var first := items[0];
      session.SetCurrentPhase(first.phase);
      session.SetCurrentPhaseIndex(0);
      session.SetRemainingSeconds(Some(first.durationMinutes * 60));
      session.SetTotalElapsedSeconds(0);
      assert session.Fields() == SessionFields(None, block, Running, first.phase, 0, Some(first.durationMinutes * 60), 0,
                                               Some(now), None, None);
      Insert(session, now);
      ghost var row := SessionRow(e0.nextId, block, Running, first.phase, 0, first.durationMinutes * 60, 0,
                                  Some(now), None, None);
      assert session.Row() == row;
      var id := session.id.value;
      ghost var saved := Put(e0, row).(nextId := e0.nextId + 1);
      assert State() == saved;
      sessionSequences := sessionSequences[id := items];
      assert State() == saved.(sequences := saved.sequences[row.id := items]);
      StartTimer(id);
      r := Success(ToView(session.Row(), items));
      assert Start(e0, blockId, now)
          == Step(Success(ToView(row, items)), TimerSpec.StartTimer(saved.(sequences := saved.sequences[row.id := items]), row.id));
    }

    method PauseTimer(id: int, now: Instant) returns (r: Reply)
      requires Valid()
      modifies this
      ensures Step(r, State()) == Pause(old(State()), id, now)
      ensures Valid()
    {
      var found := GetSession(id);
      if found.Failure? {
        return Failure(NotFound);
      }
      var session := found.value;
      if session.status != Running {
        return Failure(StateConflict);
      }
      StopScheduler(id);
      session.SetStatus(Paused);
      session.SetPausedAt(Some(now));
      var before := store;
      Save(session);
      if id !in sessionSequences {
        // the snapshot cannot be built: the transaction rolls the row back, the scheduler stays stopped
        store := before;
        return Failure(NullSequence);
      }
      r := Success(ToView(session.Row(), sessionSequences[id]));
    }

    method ResumeTimer(id: int) returns (r: Reply)
      requires Valid()
      modifies this
      ensures Step(r, State()) == Resume(old(State()), id)
      ensures Valid()
    {
      var found := GetSession(id);
      if found.Failure? {
        return Failure(NotFound);
      }
      var session := found.value;
      if session.status != Paused {
        return Failure(StateConflict);
      }
      session.SetStatus(Running);
      session.SetPausedAt(None);
      var before := store;
      Save(session);
      StartTimer(id);
      if id !in sessionSequences {
        // the transaction rolls the row back; the new scheduler is not part of it
        store := before;
        return Failure(NullSequence);
      }
      r := Success(ToView(session.Row(), sessionSequences[id]));
    }

    method RestartBlock(id: int, now: Instant) returns (r: Reply)
      requires Valid()
      modifies this
      ensures Step(r, State()) == Restart(old(State()), id, now)
      ensures Valid()
    {
      var found := GetSession(id);
      if found.Failure? {
        return Failure(NotFound);
      }
      var session := found.value;
      StopScheduler(id);
      if id !in sessionSequences {
        return Failure(NullSequence);
      }
      var items := sessionSequences[id];
      var first := items[0];
      session.SetStatus(Running);
      session.SetCurrentPhase(first.phase);
      session.SetCurrentPhaseIndex(0);
      session.SetRemainingSeconds(Some(first.durationMinutes * 60));
      session.SetTotalElapsedSeconds(0);
      session.SetStartedAt(Some(now));
      session.SetPausedAt(None);
      session.SetCompletedAt(None);
      Save(session);
      StartTimer(id);
      r := Success(ToView(session.Row(), items));
    }

    method SkipToNextPhase(id: int, now: Instant) returns (r: Reply)
      requires Valid()
      modifies this
      ensures Step(r, State()) == Skip(old(State()), id, now)
      ensures Valid()
    {
      ghost var e0 := State();
      var found := GetSession(id);
      if found.Failure? {
        return Failure(NotFound);
      }
      var session := found.value;
      if session.status != Running && session.status != Paused {
        return Failure(StateConflict);
      }
      if id !in sessionSequences {
        return Failure(NullSequence);
      }
      var items := sessionSequences[id];
      if session.currentPhaseIndex >= |items| - 1 {
        r := CompleteBlock(id, now);
        return;
      }
      r := SkipAheadOf(session, items);
      SkipGoesAhead(e0, id, now);
    }

    /** Puts a session on the item at a given index, with that item's full length. */
    static method MoveTo(session: TimerSession, index: int, item: PhaseSequenceItem)
      modifies session
      ensures session.Fields() == old(session.Fields()).(currentPhaseIndex := index, currentPhase := item.phase,
                                                         remainingSeconds := Some(item.durationMinutes * 60))
    {
      session.SetCurrentPhaseIndex(index);
      session.SetCurrentPhase(item.phase);
      session.SetRemainingSeconds(Some(item.durationMinutes * 60));
    }

    /** The part of a skip that moves an active session that is not on its last phase to the next item. */
    method SkipAheadOf(session: TimerSession, items: seq<PhaseSequenceItem>) returns (r: Reply)
      requires Valid() && session.Persistable() && session.id.value in store && session.Row() == store[session.id.value]
      requires IsActive(session.Row()) && session.id.value in sessionSequences && items == sessionSequences[session.id.value]
      requires session.currentPhaseIndex < |items| - 1
      modifies this, session
      ensures Step(r, State()) == SkipAhead(old(State()), old(session.id.value))
    {
      ghost var e0 := State();
      var id := session.id.value;
      ghost var row := store[id];
      SkipAheadState(e0, id);
      StopScheduler(id);
      ghost var stopped := State();
      var nextIndex := session.currentPhaseIndex + 1;
      MoveTo(session, nextIndex, items[nextIndex]);
      ghost var moved := row.(currentPhaseIndex := nextIndex, currentPhase := items[nextIndex].phase,
                              remainingSeconds := items[nextIndex].durationMinutes * 60);
      if session.status == Paused {
        assert session.Row() == moved;
        Save(session);
        assert State() == Put(stopped, moved);
      } else {
        session.SetStatus(Running);
        assert session.Row() == moved;
        Save(session);
        assert State() == Put(stopped, moved);
        StartTimer(id);
        assert State() == TimerSpec.StartTimer(Put(stopped, moved), id);
      }
      r := Success(ToView(session.Row(), items));
      assert r == SkipAhead(e0, id).reply;
      assert State() == SkipAhead(e0, id).next;
    }

    method CancelBlock(id: int) returns (r: Outcome<Error>)
      requires Valid()
      modifies this
      ensures Step(r, State()) == Cancel(old(State()), id)
      ensures Valid()
    {
      var found := GetSession(id);
      if found.Failure? {
        return Fail(NotFound);
      }
      var session := found.value;
      StopScheduler(id);
      session.SetStatus(Stopped);
      Save(session);
      sessionSequences := sessionSequences - {id};
      r := Pass;
    }

    method GetTimerStatus(id: int) returns (r: Reply)
      requires Valid()
      modifies this
      ensures Step(r, State()) == GetStatus(old(State()), id)
      ensures Valid()
    {
      var found := GetSession(id);
      if found.Failure? {
        return Failure(NotFound);
      }
      var session := found.value;
      if id !in sessionSequences {
        var block := session.timeBlock;
        var dto := CalculateSequence(block.totalDurationMinutes, block.pomodoroDurationMinutes,
                                     block.shortBreakDurationMinutes, block.longBreakDurationMinutes);
        sessionSequences := sessionSequences[id := dto.sequence.value];
      }
      r := Success(ToView(session.Row(), sessionSequences[id]));
    }

    /**
     * One tick of a session's scheduler. The ticked row is saved before a completion of the last
     * phase, so the completion is the last write.
     */
    method UpdateTimer(id: int, now: Instant)
      requires Valid()
      modifies this
      ensures State() == Tick(old(State()), id, now)
      ensures Valid()
    {
      ghost var e0 := State();
      var found := GetSession(id);
      if found.Failure? || found.value.status != Running {
        StopScheduler(id);
        return;
      }
      var session := found.value;
      ghost var row := store[id];
      var remaining := session.remainingSeconds.value - 1;
      session.SetRemainingSeconds(Some(remaining));
      session.SetTotalElapsedSeconds(session.totalElapsedSeconds + 1);
      ghost var ticked := row.(remainingSeconds := remaining, totalElapsedSeconds := row.totalElapsedSeconds + 1);
      assert session.Persistable() && session.Row() == ticked;
      if remaining <= 0 {
        if id !in sessionSequences {
          // the tick fails before it saves anything
          assert Tick(e0, id, now) == e0;
          return;
        }
        var items := sessionSequences[id];
        if session.currentPhaseIndex >= |items| - 1 {
          Save(session);
          assert State() == Put(e0, ticked);
          var _ := CompleteBlock(id, now);
          assert State() == Complete(Put(e0, ticked), id, now).next;
          return;
        }
        var nextIndex := session.currentPhaseIndex + 1;
        var nextPhase := items[nextIndex];
        session.SetCurrentPhaseIndex(nextIndex);
        session.SetCurrentPhase(nextPhase.phase);
        session.SetRemainingSeconds(Some(nextPhase.durationMinutes * 60));
        ghost var moved := ticked.(currentPhaseIndex := nextIndex, currentPhase := nextPhase.phase,
                                   remainingSeconds := nextPhase.durationMinutes * 60);
        assert session.Row() == moved;
        assert Tick(e0, id, now) == Put(e0, moved);
        Save(session);
        return;
      }
      assert Tick(e0, id, now) == Put(e0, ticked);
      Save(session);
    }

    /** Completes a stored session whose sequence is cached, and schedules the eviction of that cache entry. */
    method CompleteBlock(id: int, now: Instant) returns (r: Reply)
      requires id in store && store[id].id == id && id in sessionSequences
      modifies this
      ensures Step(r, State()) == Complete(old(State()), id, now)
    {
      var found := GetSession(id);
      var session := found.value;
      StopScheduler(id);
      session.SetStatus(Completed);
      session.SetCompletedAt(Some(now));
      Save(session);
      r := Success(ToView(session.Row(), sessionSequences[id]));
      pendingEvictions := pendingEvictions + multiset{id};
    }

    /** The delayed task a completion schedules: drops the session's cache entry. */
    method EvictSequence(id: int)
      requires Valid() && id in pendingEvictions
      modifies this
      ensures State() == Evict(old(State()), id)
      ensures Valid()
    {
      sessionSequences := sessionSequences - {id};
      pendingEvictions := pendingEvictions - multiset{id};
    }
  }
}
