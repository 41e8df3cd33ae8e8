// What the timer operations promise, proved over the state machine of TimerSpec.
module TimerProperties {
  import opened Domain
  import opened BlockService
  import opened TimerSessionEntity
  import opened TimeFormat
  import opened TimerSpec

  /** The ids of the running or paused sessions. */
  function ActiveIds(store: map<int, SessionRow>): set<int> {
    set id | id in store && IsActive(store[id])
  }

  /** At most one session is running or paused. */
  predicate AtMostOneActive(store: map<int, SessionRow>) {
    forall a, b :: a in store && b in store && IsActive(store[a]) && IsActive(store[b]) ==> a == b
  }

  /**
   * The behavioural invariant: the state is well formed, every running or paused session has a
   * cached sequence, and exactly the running sessions have a ticking scheduler.
   */
  predicate Inv(e: Engine) {
    Wf(e) && Links(e)
  }

  /** The links between the rows, the cache and the schedulers that the invariant adds to well-formedness. */
  predicate Links(e: Engine) {
    && (forall id :: id in e.store && IsActive(e.store[id]) ==> id in e.sequences)
    && (forall id :: id in e.tickers ==> id in e.store && e.store[id].status == Running)
    && (forall id :: id in e.store && e.store[id].status == Running ==> id in e.tickers)
  }

  /**
   * Replacing one stored row keeps the links when the cache is unchanged, an active new row has a
   * cached sequence, and the session has a scheduler exactly when the new row is running.
   */
  lemma ReplaceKeepsLinks(e: Engine, e': Engine, id: int, row: SessionRow)
    requires Links(e) && id in e.store
    requires e'.store == e.store[id := row] && e'.sequences == e.sequences
    requires e'.tickers - {id} == e.tickers - {id}
    requires IsActive(row) ==> id in e.sequences
    requires id in e'.tickers <==> row.status == Running
    ensures Links(e')
  {
    forall x | x in e'.tickers ensures x in e'.store && e'.store[x].status == Running {
      if x != id {
        assert x in e.tickers - {id};
      }
    }
    forall x | x in e'.store && e'.store[x].status == Running ensures x in e'.tickers {
      if x != id {
        assert x in e.tickers - {id};
      }
    }
  }

  // ----- Starting a block -----

  /** A start succeeds exactly when nothing is active, the block exists and its sequence is not empty; a refusal changes nothing. */
  lemma StartAdmission(e: Engine, blockId: int, now: Instant)
    requires Wf(e)
    ensures var r := Start(e, blockId, now);
            && (r.reply.Success? <==> !AnyActive(e.store) && blockId in e.blocks && |SequenceFor(e.blocks[blockId])| > 0)
            && (AnyActive(e.store) ==> r.reply == Failure(StateConflict))
            && (!AnyActive(e.store) && blockId !in e.blocks ==> r.reply == Failure(NotFound))
            && (r.reply.Failure? ==> r.next == e)
  {
  }

  /**
   * A successful start adds one session under a fresh id, running on the first phase with its full
   * length and nothing elapsed, caches the block's sequence and gives the session a scheduler;
   * every other row is kept.
   */
  lemma StartEffect(e: Engine, blockId: int, now: Instant)
    requires Wf(e) && Start(e, blockId, now).reply.Success?
    ensures var r := Start(e, blockId, now);
            var id := e.nextId;
            var items := SequenceFor(e.blocks[blockId]);
            && id !in e.store
            && r.next.store == e.store[id := SessionRow(id, e.blocks[blockId], Running, items[0].phase, 0,
                                                        items[0].durationMinutes * 60, 0, Some(now), None, None)]
            && r.next.nextId == id + 1
            && r.next.sequences == e.sequences[id := items]
            && r.next.tickers == e.tickers + {id}
            && r.reply.value == ToView(r.next.store[id], items)
  {
  }

  /** A successful start happens only with no session active, and leaves the new session the only active one. */
  lemma StartLeavesOneActive(e: Engine, blockId: int, now: Instant)
    requires Wf(e) && Start(e, blockId, now).reply.Success?
    ensures ActiveIds(e.store) == {}
    ensures ActiveIds(Start(e, blockId, now).next.store) == {e.nextId}
  {
    assert !AnyActive(e.store);
    StartEffect(e, blockId, now);
    var s := Start(e, blockId, now).next.store;
    assert forall x :: x in e.store ==> !IsActive(e.store[x]);
    assert forall x :: x !in ActiveIds(e.store);
    assert e.nextId in ActiveIds(s);
    assert forall x :: x in ActiveIds(s) ==> x == e.nextId;
  }

  // ----- Pause and resume -----

  /** A session can be paused only while it is running; otherwise the pause is refused and nothing changes. */
  lemma PauseOnlyWhenRunning(e: Engine, id: int, now: Instant)
    requires Wf(e) && id in e.store
    ensures var r := Pause(e, id, now);
            && (r.reply == Failure(StateConflict) <==> e.store[id].status != Running)
            && (e.store[id].status != Running ==> r.next == e)
  {
  }

  /** A session can be resumed only while it is paused; otherwise the resume is refused and nothing changes. */
  lemma ResumeOnlyWhenPaused(e: Engine, id: int)
    requires Wf(e) && id in e.store
    ensures var r := Resume(e, id);
            && (r.reply == Failure(StateConflict) <==> e.store[id].status != Paused)
            && (e.store[id].status != Paused ==> r.next == e)
  {
  }

  /**
   * Pausing a running session freezes it: paused, stamped, without a scheduler, its phase and times
   * kept. Resuming it then restores the state exactly, except that the pause stamp is cleared.
   */
  lemma PauseResumeRoundTrip(e: Engine, id: int, now: Instant)
    requires Inv(e) && id in e.store && e.store[id].status == Running
    ensures var p := Pause(e, id, now);
            && p.reply.Success?
            && p.next == e.(store := e.store[id := e.store[id].(status := Paused, pausedAt := Some(now))],
                            tickers := e.tickers - {id})
    ensures var q := Resume(Pause(e, id, now).next, id);
            && q.reply.Success?
            && q.next == e.(store := e.store[id := e.store[id].(pausedAt := None)])
  {
    var p := Pause(e, id, now).next;
    var q := Resume(p, id).next;
    assert id in e.tickers;
    assert q.tickers == e.tickers;
    assert q.store == e.store[id := e.store[id].(pausedAt := None)];
  }

  /**
   * Resuming any paused session with a cached sequence makes it running again with the pause stamp
   * cleared, its phase and times as they were, and a scheduler; nothing else changes.
   */
  lemma ResumeEffect(e: Engine, id: int)
    requires Wf(e) && id in e.store && e.store[id].status == Paused && id in e.sequences
    ensures var r := Resume(e, id);
            && r.reply.Success?
            && r.next.store == e.store[id := e.store[id].(status := Running, pausedAt := None)]
            && r.next.tickers == e.tickers + {id}
            && r.next.sequences == e.sequences
            && r.next.evictions == e.evictions
            && r.reply.value.currentPhaseIndex == e.store[id].currentPhaseIndex
  {
  }

  // ----- Skipping -----

  /** A skip is refused, changing nothing, exactly when the session is neither running nor paused. */
  lemma SkipOnlyWhenActive(e: Engine, id: int, now: Instant)
    requires Wf(e) && id in e.store
    ensures var r := Skip(e, id, now);
            && (r.reply == Failure(StateConflict) <==> !IsActive(e.store[id]))
            && (r.reply.Failure? ==> r.next == e)
  {
  }

  /**
   * Skipping before the last phase moves to the next item with its full length, keeps the elapsed
   * time and the status, leaves every other session alone, and leaves a scheduler exactly when the
   * session is running.
   */
  lemma SkipAdvances(e: Engine, id: int, now: Instant)
    requires Wf(e) && id in e.store && IsActive(e.store[id]) && id in e.sequences
    requires e.store[id].currentPhaseIndex < |e.sequences[id]| - 1
    ensures var r := Skip(e, id, now);
            var row := e.store[id];
            var next := e.sequences[id][row.currentPhaseIndex + 1];
            && r.reply.Success?
            && r.next.store == e.store[id := row.(currentPhaseIndex := row.currentPhaseIndex + 1,
                                                  currentPhase := next.phase,
                                                  remainingSeconds := next.durationMinutes * 60)]
            && r.next.tickers - {id} == e.tickers - {id}
            && (id in r.next.tickers <==> row.status == Running)
            && r.next.sequences == e.sequences
            && r.reply.value.currentPhaseIndex == row.currentPhaseIndex + 1
  {
    SkipGoesAhead(e, id, now);
    SkipAheadState(e, id);
  }

  /**
   * Skipping on the last phase completes the session: completed and stamped with its phase and times
   * kept, no scheduler, the cache kept but its eviction scheduled.
   */
  lemma SkipOnLastPhaseCompletes(e: Engine, id: int, now: Instant)
    requires Wf(e) && id in e.store && IsActive(e.store[id]) && id in e.sequences
    requires e.store[id].currentPhaseIndex == |e.sequences[id]| - 1
    ensures var r := Skip(e, id, now);
            && r.reply.Success? && r.reply.value.status == Completed
            && r.next.store == e.store[id := e.store[id].(status := Completed, completedAt := Some(now))]
            && r.next.tickers == e.tickers - {id}
            && r.next.sequences == e.sequences
            && r.next.evictions == e.evictions + multiset{id}
  {
  }

  // ----- Cancelling -----

  /** Cancelling stops the session, drops its scheduler and its cache, and touches no other session. */
  lemma CancelEffect(e: Engine, id: int)
    requires Wf(e) && id in e.store
    ensures var r := Cancel(e, id);
            && r.reply == Pass
            && r.next.store == e.store[id := e.store[id].(status := Stopped)]
            && r.next.tickers == e.tickers - {id}
            && r.next.sequences == e.sequences - {id}
            && r.next.evictions == e.evictions
  {
  }

  /** Cancelling twice is cancelling once, for any id. */
  lemma CancelIdempotent(e: Engine, id: int)
    requires Wf(e)
    ensures Cancel(Cancel(e, id).next, id) == Cancel(e, id)
  {
    if id in e.store {
      var c := Cancel(e, id).next;
      assert c.store[id := c.store[id].(status := Stopped)] == c.store;
    }
  }

  // ----- Unknown sessions -----

  /** Every session operation on an unknown id fails with NotFound and changes nothing; a tick only drops the scheduler. */
  lemma UnknownSessionRejected(e: Engine, id: int, now: Instant)
    requires Wf(e) && id !in e.store
    ensures Pause(e, id, now) == Step(Failure(NotFound), e)
    ensures Resume(e, id) == Step(Failure(NotFound), e)
    ensures Restart(e, id, now) == Step(Failure(NotFound), e)
    ensures Skip(e, id, now) == Step(Failure(NotFound), e)
    ensures Cancel(e, id) == Step(Fail(NotFound), e)
    ensures GetStatus(e, id) == Step(Failure(NotFound), e)
    ensures Tick(e, id, now) == e.(tickers := e.tickers - {id})
  {
  }

  /** A tick on a stored session that is not running only drops its scheduler. */
  lemma IdleTickStopsScheduler(e: Engine, id: int, now: Instant)
    requires Wf(e) && id in e.store && e.store[id].status != Running
    ensures Tick(e, id, now) == e.(tickers := e.tickers - {id})
  {
  }

  // ----- Restarting -----

  /**
   * Restarting a session with a cached sequence puts it back on the first phase, running, with the
   * full length, nothing elapsed, a new start stamp, no pause or completion stamp, and a scheduler;
   * the session joins the active ones whatever the others are doing.
   */
  lemma RestartResets(e: Engine, id: int, now: Instant)
    requires Wf(e) && id in e.store && id in e.sequences
    ensures var r := Restart(e, id, now);
            var items := e.sequences[id];
            && r.reply.Success?
            && r.next.store == e.store[id := e.store[id].(status := Running, currentPhase := items[0].phase,
                                 currentPhaseIndex := 0, remainingSeconds := items[0].durationMinutes * 60,
                                 totalElapsedSeconds := 0, startedAt := Some(now), pausedAt := None,
                                 completedAt := None)]
            && r.next.tickers == e.tickers + {id}
            && ActiveIds(r.next.store) == ActiveIds(e.store) + {id}
  {
    var r := Restart(e, id, now);
    forall x | x in ActiveIds(e.store) + {id} ensures x in ActiveIds(r.next.store) {
      if x != id {
        assert x in e.store && IsActive(e.store[x]);
      }
    }
    forall x | x in ActiveIds(r.next.store) ensures x in ActiveIds(e.store) + {id} {
      if x != id {
        assert x in e.store && IsActive(e.store[x]);
      }
    }
  }

  /** Without a cached sequence a restart fails after stopping the scheduler, leaving the row as it was. */
  lemma RestartWithoutCacheFails(e: Engine, id: int, now: Instant)
    requires Wf(e) && id in e.store && id !in e.sequences
    ensures Restart(e, id, now) == Step(Failure(NullSequence), e.(tickers := e.tickers - {id}))
  {
  }

  /**
   * A restart straight after a cancel fails: the cancel dropped the sequence the restart reads, so
   * the restart throws after stopping a scheduler that is already gone, and nothing changes.
   */
  lemma RestartAfterCancelFails(e: Engine, id: int, now: Instant)
    requires Wf(e) && id in e.store
    ensures var c := Cancel(e, id).next;
            Restart(c, id, now) == Step(Failure(NullSequence), c)
  {
  }

  /**
   * A status query between the cancel and the restart puts the sequence back in the cache, and the
   * restart then succeeds: the cancelled session is running again on its first phase.
   */
  lemma RestartAfterCancelAndStatusSucceeds(e: Engine, id: int, now: Instant)
    requires Wf(e) && id in e.store
    ensures var c := Cancel(e, id).next;
            var q := GetStatus(c, id).next;
            var r := Restart(q, id, now);
            && q.sequences[id] == SequenceFor(e.store[id].timeBlock)
            && r.reply.Success?
            && r.next.store[id].status == Running
            && r.next.store[id].currentPhaseIndex == 0
            && id in r.next.tickers
  {
  }

  /** The restart checks no other session: restarting one while another is active leaves two active. */
  lemma RestartIgnoresOtherActiveSession(e: Engine, id: int, other: int, now: Instant)
    requires Wf(e) && id in e.store && id in e.sequences
    requires other in e.store && other != id && IsActive(e.store[other])
    ensures var s := Restart(e, id, now).next.store;
            IsActive(s[id]) && IsActive(s[other]) && !AtMostOneActive(s)
  {
  }

  /**
   * A second active session is reachable from an empty store: start a one-minute block, cancel it,
   * start the block again, read the first session's status (which re-caches its sequence), restart it.
   */
  lemma SecondActiveSessionReachable()
    ensures var block := TimeBlock(1, 1, 1, 0, 0);
            var e0 := Engine(map[1 := block], map[], 1, {}, map[], multiset{});
            var e1 := Start(e0, 1, 0).next;
            var e2 := Cancel(e1, 1).next;
            var e3 := Start(e2, 1, 0).next;
            var e4 := GetStatus(e3, 1).next;
            var e5 := Restart(e4, 1, 0).next;
            1 in e5.store && 2 in e5.store && e5.store[1].status == Running && e5.store[2].status == Running
  {
    var block := TimeBlock(1, 1, 1, 0, 0);
    assert NumberOfPomodoros(1, 1, 0, 0) == 1;
    assert |SequenceFor(block)| == 1;
    var e0 := Engine(map[1 := block], map[], 1, {}, map[], multiset{});
    assert !AnyActive(e0.store);
    var e1 := Start(e0, 1, 0).next;
    assert e1.store.Keys == {1};
    var e2 := Cancel(e1, 1).next;
    assert e2.store.Keys == {1} && e2.store[1].status == Stopped;
    assert !AnyActive(e2.store);
    var e3 := Start(e2, 1, 0).next;
    assert e3.nextId == 3 && 2 in e3.store && e3.store[2].status == Running;
  }

  // ----- Who is active -----

  /** Replacing one row keeps the active ids among the old ones when the new row is active only if the old one was. */
  lemma ReplaceActivatesNone(s: map<int, SessionRow>, id: int, row: SessionRow)
    requires IsActive(row) ==> id in s && IsActive(s[id])
    ensures ActiveIds(s[id := row]) <= ActiveIds(s)
  {
    forall x | x in ActiveIds(s[id := row]) ensures x in ActiveIds(s) {
      if x != id {
        assert x in s && IsActive(s[x]);
      }
    }
  }

  /** A pause never makes a session active that was not. */
  lemma PauseActivatesNone(e: Engine, id: int, now: Instant)
    requires Wf(e)
    ensures ActiveIds(Pause(e, id, now).next.store) <= ActiveIds(e.store)
  {
    if id in e.store && e.store[id].status == Running {
      ReplaceActivatesNone(e.store, id, e.store[id].(status := Paused, pausedAt := Some(now)));
    }
  }

  /** A resume never makes a session active that was not. */
  lemma ResumeActivatesNone(e: Engine, id: int)
    requires Wf(e)
    ensures ActiveIds(Resume(e, id).next.store) <= ActiveIds(e.store)
  {
    if id in e.store && e.store[id].status == Paused {
      ReplaceActivatesNone(e.store, id, e.store[id].(status := Running, pausedAt := None));
    }
  }

  /** A skip never makes a session active that was not. */
  lemma SkipActivatesNone(e: Engine, id: int, now: Instant)
    requires Wf(e)
    ensures ActiveIds(Skip(e, id, now).next.store) <= ActiveIds(e.store)
  {
    if id in e.store && IsActive(e.store[id]) && id in e.sequences {
      var row := e.store[id];
      var items := e.sequences[id];
      if row.currentPhaseIndex >= |items| - 1 {
        ReplaceActivatesNone(e.store, id, row.(status := Completed, completedAt := Some(now)));
      } else {
        var next := items[row.currentPhaseIndex + 1];
        ReplaceActivatesNone(e.store, id, row.(currentPhaseIndex := row.currentPhaseIndex + 1, currentPhase := next.phase,
                                               remainingSeconds := next.durationMinutes * 60));
      }
    }
  }

  /** A cancel never makes a session active that was not. */
  lemma CancelActivatesNone(e: Engine, id: int)
    requires Wf(e)
    ensures ActiveIds(Cancel(e, id).next.store) <= ActiveIds(e.store)
  {
    if id in e.store {
      ReplaceActivatesNone(e.store, id, e.store[id].(status := Stopped));
    }
  }

  /** A tick never makes a session active that was not. */
  lemma TickActivatesNone(e: Engine, id: int, now: Instant)
    requires Wf(e)
    ensures ActiveIds(Tick(e, id, now).store) <= ActiveIds(e.store)
  {
    if id in e.store && e.store[id].status == Running {
      var row := e.store[id];
      var ticked := row.(remainingSeconds := row.remainingSeconds - 1, totalElapsedSeconds := row.totalElapsedSeconds + 1);
      if ticked.remainingSeconds > 0 {
        ReplaceActivatesNone(e.store, id, ticked);
      } else if id in e.sequences {
        var items := e.sequences[id];
        if row.currentPhaseIndex >= |items| - 1 {
          var done := ticked.(status := Completed, completedAt := Some(now));
          assert Tick(e, id, now).store == e.store[id := done];
          ReplaceActivatesNone(e.store, id, done);
        } else {
          var next := items[row.currentPhaseIndex + 1];
          ReplaceActivatesNone(e.store, id, ticked.(currentPhaseIndex := row.currentPhaseIndex + 1, currentPhase := next.phase,
                                                    remainingSeconds := next.durationMinutes * 60));
        }
      }
    }
  }

  /** Every operation but the restart keeps at most one session active. */
  lemma SingleActiveKept(e: Engine, blockId: int, id: int, now: Instant)
    requires Wf(e) && AtMostOneActive(e.store)
    ensures AtMostOneActive(Start(e, blockId, now).next.store)
    ensures AtMostOneActive(Pause(e, id, now).next.store)
    ensures AtMostOneActive(Resume(e, id).next.store)
    ensures AtMostOneActive(Skip(e, id, now).next.store)
    ensures AtMostOneActive(Cancel(e, id).next.store)
    ensures AtMostOneActive(Tick(e, id, now).store)
  {
    var started := Start(e, blockId, now);
    if started.reply.Success? {
      StartLeavesOneActive(e, blockId, now);
      SubsetKeepsSingle(started.next.store, map[e.nextId := started.next.store[e.nextId]]);
    }
    PauseActivatesNone(e, id, now);
    SubsetKeepsSingle(Pause(e, id, now).next.store, e.store);
    ResumeActivatesNone(e, id);
    SubsetKeepsSingle(Resume(e, id).next.store, e.store);
    SkipActivatesNone(e, id, now);
    SubsetKeepsSingle(Skip(e, id, now).next.store, e.store);
    CancelActivatesNone(e, id);
    SubsetKeepsSingle(Cancel(e, id).next.store, e.store);
    TickActivatesNone(e, id, now);
    SubsetKeepsSingle(Tick(e, id, now).store, e.store);
  }

  /** A store whose active ids are among those of a store with at most one active session has at most one too. */
  lemma SubsetKeepsSingle(s: map<int, SessionRow>, t: map<int, SessionRow>)
    requires AtMostOneActive(t) && ActiveIds(s) <= ActiveIds(t)
    ensures AtMostOneActive(s)
  {
    forall a, b | a in s && b in s && IsActive(s[a]) && IsActive(s[b]) ensures a == b {
      assert a in ActiveIds(s) && b in ActiveIds(s);
    }
  }

  /** A restart keeps at most one session active when the restarted session is the active one or none is. */
  lemma RestartKeepsSingleActiveWhenAlone(e: Engine, id: int, now: Instant)
    requires Wf(e) && AtMostOneActive(e.store)
    requires ActiveIds(e.store) <= {id}
    ensures AtMostOneActive(Restart(e, id, now).next.store)
  {
    var r := Restart(e, id, now);
    if id in e.store && id in e.sequences {
      RestartResets(e, id, now);
      SubsetKeepsSingle(r.next.store, map[id := r.next.store[id]]);
    } else {
      SubsetKeepsSingle(r.next.store, e.store);
    }
  }

  // ----- The behavioural invariant -----

  lemma StartKeepsInv(e: Engine, blockId: int, now: Instant)
    requires Inv(e)
    ensures Inv(Start(e, blockId, now).next)
  {
  }

  lemma PauseKeepsInv(e: Engine, id: int, now: Instant)
    requires Inv(e)
    ensures Inv(Pause(e, id, now).next)
  {
  }

  lemma ResumeKeepsInv(e: Engine, id: int)
    requires Inv(e)
    ensures Inv(Resume(e, id).next)
  {
  }

  lemma RestartKeepsInv(e: Engine, id: int, now: Instant)
    requires Inv(e)
    ensures Inv(Restart(e, id, now).next)
  {
  }

  lemma SkipKeepsInv(e: Engine, id: int, now: Instant)
    requires Inv(e)
    ensures Inv(Skip(e, id, now).next)
  {
    if id !in e.store || !IsActive(e.store[id]) || id !in e.sequences {
      assert Skip(e, id, now).next == e;
    } else if e.store[id].currentPhaseIndex >= |e.sequences[id]| - 1 {
      SkipCompleteKeepsInv(e, id, now);
    } else {
      SkipAheadKeepsInv(e, id, now);
    }
  }

  /** A skip that completes the session keeps the invariant. */
  lemma SkipCompleteKeepsInv(e: Engine, id: int, now: Instant)
    requires Inv(e) && id in e.store && IsActive(e.store[id]) && id in e.sequences
    requires e.store[id].currentPhaseIndex >= |e.sequences[id]| - 1
    ensures Inv(Skip(e, id, now).next)
  {
    SkipOnLastPhaseCompletes(e, id, now);
    ReplaceKeepsLinks(e, Skip(e, id, now).next, id, e.store[id].(status := Completed, completedAt := Some(now)));
  }

  /** A skip to the next phase keeps the invariant. */
  lemma SkipAheadKeepsInv(e: Engine, id: int, now: Instant)
    requires Inv(e) && id in e.store && IsActive(e.store[id]) && id in e.sequences
    requires e.store[id].currentPhaseIndex < |e.sequences[id]| - 1
    ensures Inv(Skip(e, id, now).next)
  {
    var row := e.store[id];
    var next := e.sequences[id][row.currentPhaseIndex + 1];
    SkipAdvances(e, id, now);
    ReplaceKeepsLinks(e, Skip(e, id, now).next, id, row.(currentPhaseIndex := row.currentPhaseIndex + 1, currentPhase := next.phase,
                                                         remainingSeconds := next.durationMinutes * 60));
  }

  lemma CancelKeepsInv(e: Engine, id: int)
    requires Inv(e)
    ensures Inv(Cancel(e, id).next)
  {
  }

  lemma GetStatusKeepsInv(e: Engine, id: int)
    requires Inv(e)
    ensures Inv(GetStatus(e, id).next)
  {
  }

  lemma TickKeepsInv(e: Engine, id: int, now: Instant)
    requires Inv(e)
    ensures Inv(Tick(e, id, now))
  {
    if id !in e.store || e.store[id].status != Running {
      IdleTickKeepsInv(e, id, now);
    } else if e.store[id].remainingSeconds > 1 {
      CountDownKeepsInv(e, id, now);
    } else if e.store[id].currentPhaseIndex >= |e.sequences[id]| - 1 {
      FinishLastPhaseKeepsInv(e, id, now);
    } else {
      NextPhaseKeepsInv(e, id, now);
    }
  }

  /** A tick of a session that is not running only drops its scheduler. */
  lemma IdleTickKeepsInv(e: Engine, id: int, now: Instant)
    requires Inv(e) && (id !in e.store || e.store[id].status != Running)
    ensures Inv(Tick(e, id, now))
  {
  }

  /** A tick that only counts a second down keeps the invariant. */
  lemma CountDownKeepsInv(e: Engine, id: int, now: Instant)
    requires Inv(e) && id in e.store && e.store[id].status == Running && e.store[id].remainingSeconds > 1
    ensures Inv(Tick(e, id, now))
  {
    var row := e.store[id];
    var ticked := row.(remainingSeconds := row.remainingSeconds - 1, totalElapsedSeconds := row.totalElapsedSeconds + 1);
    assert Tick(e, id, now) == Put(e, ticked);
    ReplaceKeepsLinks(e, Tick(e, id, now), id, ticked);
  }

  /** The tick that completes the last phase keeps the invariant. */
  lemma FinishLastPhaseKeepsInv(e: Engine, id: int, now: Instant)
    requires Inv(e) && id in e.store && e.store[id].status == Running && e.store[id].remainingSeconds <= 1
    requires id in e.sequences && e.store[id].currentPhaseIndex >= |e.sequences[id]| - 1
    ensures Inv(Tick(e, id, now))
  {
    var t := Tick(e, id, now);
    var row := e.store[id];
    var done := row.(remainingSeconds := row.remainingSeconds - 1, totalElapsedSeconds := row.totalElapsedSeconds + 1,
                     status := Completed, completedAt := Some(now));
    assert t == FinishLastPhase(e, id, now);
    assert t.store == e.store[id := done] && t.tickers == e.tickers - {id};
    ReplaceKeepsLinks(e, t, id, done);
  }

  /** The tick that moves to the next phase keeps the invariant. */
  lemma NextPhaseKeepsInv(e: Engine, id: int, now: Instant)
    requires Inv(e) && id in e.store && e.store[id].status == Running && e.store[id].remainingSeconds <= 1
    requires id in e.sequences && e.store[id].currentPhaseIndex < |e.sequences[id]| - 1
    ensures Inv(Tick(e, id, now))
  {
    var t := Tick(e, id, now);
    var row := e.store[id];
    var next := e.sequences[id][row.currentPhaseIndex + 1];
    var moved := row.(remainingSeconds := next.durationMinutes * 60, totalElapsedSeconds := row.totalElapsedSeconds + 1,
                      currentPhaseIndex := row.currentPhaseIndex + 1, currentPhase := next.phase);
    assert t == NextPhase(e, id);
    assert t == Put(e, moved);
    ReplaceKeepsLinks(e, t, id, moved);
  }

  /** The delayed eviction keeps the invariant as long as the session it evicts is not active again. */
  lemma EvictKeepsInv(e: Engine, id: int)
    requires Inv(e) && id in e.evictions
    requires id in e.store ==> !IsActive(e.store[id])
    ensures Inv(Evict(e, id))
  {
  }

  // ----- Ticking -----

  /**
   * A running phase that is not the last lasts as many ticks as it has seconds left, and a phase
   * with nothing left lasts one tick: then the session is on the next item with its full length,
   * still running, with that many seconds more elapsed, and nothing else has changed.
   */
  lemma {:induction false} RunsToPhaseEnd(e: Engine, id: int, now: Instant)
    requires Wf(e) && id in e.store && e.store[id].status == Running && id in e.sequences
    requires e.store[id].currentPhaseIndex < |e.sequences[id]| - 1
    ensures var row := e.store[id];
            var k := if row.remainingSeconds <= 1 then 1 else row.remainingSeconds;
            var next := e.sequences[id][row.currentPhaseIndex + 1];
            Ticks(e, id, k, now)
              == e.(store := e.store[id := row.(currentPhaseIndex := row.currentPhaseIndex + 1,
                                               currentPhase := next.phase,
                                               remainingSeconds := next.durationMinutes * 60,
                                               totalElapsedSeconds := row.totalElapsedSeconds + k)])
    decreases e.store[id].remainingSeconds
  {
    var row := e.store[id];
    if row.remainingSeconds <= 1 {
      assert Ticks(e, id, 1, now) == Ticks(Tick(e, id, now), id, 0, now);
      LastTickAdvances(e, id, now);
    } else {
      var e1 := Tick(e, id, now);
      var ticked := row.(remainingSeconds := row.remainingSeconds - 1, totalElapsedSeconds := row.totalElapsedSeconds + 1);
      TickCountsDown(e, id, now);
      assert e1 == e.(store := e.store[id := ticked]);
      RunsToPhaseEnd(e1, id, now);
      var next := e.sequences[id][row.currentPhaseIndex + 1];
      var moved := row.(currentPhaseIndex := row.currentPhaseIndex + 1, currentPhase := next.phase,
                        remainingSeconds := next.durationMinutes * 60,
                        totalElapsedSeconds := row.totalElapsedSeconds + row.remainingSeconds);
      assert Ticks(e1, id, row.remainingSeconds - 1, now) == e1.(store := e1.store[id := moved]);
      assert e1.(store := e1.store[id := moved]) == e.(store := e.store[id := moved]);
      assert Ticks(e, id, row.remainingSeconds, now) == Ticks(e1, id, row.remainingSeconds - 1, now);
    }
  }

  /** The last second of a phase other than the last moves the session to the next item with its full length. */
  lemma LastTickAdvances(e: Engine, id: int, now: Instant)
    requires Wf(e) && id in e.store && e.store[id].status == Running && id in e.sequences
    requires e.store[id].currentPhaseIndex < |e.sequences[id]| - 1 && e.store[id].remainingSeconds <= 1
    ensures var row := e.store[id];
            var next := e.sequences[id][row.currentPhaseIndex + 1];
            Tick(e, id, now)
              == e.(store := e.store[id := row.(currentPhaseIndex := row.currentPhaseIndex + 1,
                                               currentPhase := next.phase,
                                               remainingSeconds := next.durationMinutes * 60,
                                               totalElapsedSeconds := row.totalElapsedSeconds + 1)])
  {
    assert Tick(e, id, now) == NextPhase(e, id);
  }

  /**
   * A zero-minute short break is an item of its own: the tick that ends the pomodoro before it lands
   * on the break with nothing left, where a snapshot shows "00:00", and the next tick moves past it.
   * The block of 2 minutes with 1-minute pomodoros and no breaks gives [P1, S0, P1].
   */
  lemma ZeroMinuteBreakLastsOneTick()
    ensures var e0 := Engine(map[1 := TimeBlock(1, 2, 1, 0, 0)], map[], 1, {}, map[], multiset{});
            var e1 := Start(e0, 1, 0).next;
            var e2 := Ticks(e1, 1, 60, 0);
            var e3 := Tick(e2, 1, 0);
            && 1 in e2.store && e2.store[1].currentPhaseIndex == 1
            && e2.store[1].currentPhase == ShortBreak && e2.store[1].remainingSeconds == 0
            && 1 in e3.store && e3.store[1].currentPhaseIndex == 2
            && e3.store[1].currentPhase == Pomodoro && e3.store[1].remainingSeconds == 60
  {
    var block := TimeBlock(1, 2, 1, 0, 0);
    assert NumberOfPomodoros(2, 1, 0, 0) == 2;
    var items := SequenceFor(block);
    assert |items| == 3;
    assert items[0].phase == Pomodoro && items[0].durationMinutes == 1;
    assert items[1].phase == ShortBreak && items[1].durationMinutes == 0;
    assert items[2].phase == Pomodoro && items[2].durationMinutes == 1;
    var e0 := Engine(map[1 := block], map[], 1, {}, map[], multiset{});
    assert !AnyActive(e0.store);
    var e1 := Start(e0, 1, 0).next;
    StartEffect(e0, 1, 0);
    RunsToPhaseEnd(e1, 1, 0);
    var e2 := Ticks(e1, 1, 60, 0);
    LastTickAdvances(e2, 1, 0);
  }

  /** A tick of a running session with more than one second left only counts that second down. */
  lemma TickCountsDown(e: Engine, id: int, now: Instant)
    requires Wf(e) && id in e.store && e.store[id].status == Running && e.store[id].remainingSeconds > 1
    ensures var row := e.store[id];
            Tick(e, id, now)
              == e.(store := e.store[id := row.(remainingSeconds := row.remainingSeconds - 1,
                                               totalElapsedSeconds := row.totalElapsedSeconds + 1)])
  {
  }

  /** The corrected tick on the last second of the last phase completes the session. */
  lemma LastTickCompletes(e: Engine, id: int, now: Instant)
    requires Wf(e) && id in e.store && e.store[id].status == Running && id in e.sequences
    requires e.store[id].currentPhaseIndex == |e.sequences[id]| - 1 && e.store[id].remainingSeconds == 1
    ensures var row := e.store[id];
            Tick(e, id, now)
              == e.(store := e.store[id := row.(status := Completed, remainingSeconds := 0,
                                               totalElapsedSeconds := row.totalElapsedSeconds + 1,
                                               completedAt := Some(now))],
                    tickers := e.tickers - {id},
                    evictions := e.evictions + multiset{id})
  {
  }

  /**
   * The last phase runs to completion: after as many ticks as it has seconds left the session is
   * completed and stamped with nothing left, its elapsed time counts every tick, its scheduler is
   * gone and its cache eviction is scheduled.
   */
  lemma {:induction false} LastPhaseRunsToCompletion(e: Engine, id: int, now: Instant)
    requires Wf(e) && id in e.store && e.store[id].status == Running && id in e.sequences
    requires e.store[id].currentPhaseIndex == |e.sequences[id]| - 1
    ensures e.store[id].remainingSeconds >= 1
    ensures var row := e.store[id];
            Ticks(e, id, row.remainingSeconds, now)
              == e.(store := e.store[id := row.(status := Completed, remainingSeconds := 0,
                                               totalElapsedSeconds := row.totalElapsedSeconds + row.remainingSeconds,
                                               completedAt := Some(now))],
                    tickers := e.tickers - {id},
                    evictions := e.evictions + multiset{id})
    decreases e.store[id].remainingSeconds
  {
    var row := e.store[id];
    if row.remainingSeconds == 1 {
      assert Ticks(e, id, 1, now) == Ticks(Tick(e, id, now), id, 0, now);
      LastTickCompletes(e, id, now);
    } else {
      var e1 := Tick(e, id, now);
      TickCountsDown(e, id, now);
      LastPhaseRunsToCompletion(e1, id, now);
      assert Ticks(e, id, row.remainingSeconds, now) == Ticks(e1, id, row.remainingSeconds - 1, now);
    }
  }

  /**
   * The tick as written loses the completion of the last phase: it leaves the session running with
   * nothing left and no scheduler, so it never ticks again and stays active, against the corrected
   * tick that completes it.
   */
  lemma TickAsWrittenLosesCompletion(e: Engine, id: int, now: Instant)
    requires Wf(e) && id in e.store && e.store[id].status == Running && id in e.sequences
    requires e.store[id].currentPhaseIndex == |e.sequences[id]| - 1 && e.store[id].remainingSeconds == 1
    ensures var w := TickAsWritten(e, id, now);
            && w.store[id].status == Running && w.store[id].remainingSeconds == 0
            && w.store[id].completedAt == e.store[id].completedAt
            && id !in w.tickers && id in w.evictions
            && AnyActive(w.store) && !Wf(w)
    ensures Tick(e, id, now).store[id].status == Completed
  {
    var w := TickAsWritten(e, id, now);
    assert id in w.store && IsActive(w.store[id]);
    assert !RowWf(w.store[id]);
  }

  /**
   * A running session whose sequence is no longer cached stalls at the end of its phase: once it has
   * at most one second left, every further tick changes nothing.
   */
  lemma {:induction false} UncachedSessionStalls(e: Engine, id: int, k: nat, now: Instant)
    requires Wf(e) && id in e.store && e.store[id].status == Running && id !in e.sequences
    requires e.store[id].remainingSeconds <= 1
    ensures Ticks(e, id, k, now) == e
  {
    if k > 0 {
      assert Tick(e, id, now) == e;
      UncachedSessionStalls(e, id, k - 1, now);
    }
  }

  /**
   * Restarting a completed session before its delayed eviction fires leaves it running with a
   * scheduler but, once the eviction fires, without the sequence the tick and the snapshots need.
   */
  lemma EvictionStrandsRestartedSession(e: Engine, id: int, now: Instant)
    requires Wf(e) && id in e.store && id in e.sequences && id in e.evictions
    ensures var v := Evict(Restart(e, id, now).next, id);
            v.store[id].status == Running && id in v.tickers && id !in v.sequences && !Inv(v)
  {
  }

  // ----- Status -----

  /**
   * The status of a stored session is its row with the phase count of its block's sequence, and the
   * sequence is cached afterwards; nothing else changes.
   */
  lemma GetStatusRecomputesCache(e: Engine, id: int)
    requires Wf(e) && id in e.store
    ensures var r := GetStatus(e, id);
            var items := SequenceFor(e.store[id].timeBlock);
            && r.reply == Success(ToView(e.store[id], items))
            && r.next.sequences == e.sequences[id := items]
            && r.next.store == e.store && r.next.tickers == e.tickers && r.next.evictions == e.evictions
  {
  }

  /** A snapshot of a row with non-negative times carries renderings that read back to those times, and the phase count. */
  lemma ViewReadsBack(row: SessionRow, items: seq<PhaseSequenceItem>)
    requires row.remainingSeconds >= 0 && row.totalElapsedSeconds >= 0
    ensures var v := ToView(row, items);
            && ParseTime(v.FormattedRemainingTime()) == Some(v.remainingSeconds)
            && ParseElapsedTime(v.FormattedElapsedTime()) == Some(v.totalElapsedSeconds)
            && v.totalPhases == |items|
            && v.sessionId == row.id && v.blockId == row.timeBlock.id && v.status == row.status
  {
  }

  /** In a well-formed state every stored session's snapshot reads back to its times. */
  lemma StoredViewsReadBack(e: Engine, id: int)
    requires Wf(e) && id in e.store
    ensures var v := GetStatus(e, id).reply.value;
            ParseTime(v.FormattedRemainingTime()) == Some(e.store[id].remainingSeconds)
            && ParseElapsedTime(v.FormattedElapsedTime()) == Some(e.store[id].totalElapsedSeconds)
  {
    ViewReadsBack(e.store[id], SequenceFor(e.store[id].timeBlock));
  }
}
