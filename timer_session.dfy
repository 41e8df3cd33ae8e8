// The mutable session entity and the row it is persisted as.
module TimerSessionEntity {
  import opened Domain

  /** Every field of a session entity; a null field is None. */
  datatype SessionFields = SessionFields(
    id: Option<int>,
    timeBlock: TimeBlock,
    status: TimerStatus,
    currentPhase: Phase,
    currentPhaseIndex: int,
    remainingSeconds: Option<int>,
    totalElapsedSeconds: int,
    startedAt: Option<Instant>,
    pausedAt: Option<Instant>,
    completedAt: Option<Instant>)

  /** A row of the sessions table, where the id and the remaining seconds are never null. */
  datatype SessionRow = SessionRow(
    id: int,
    timeBlock: TimeBlock,
    status: TimerStatus,
    currentPhase: Phase,
    currentPhaseIndex: int,
    remainingSeconds: int,
    totalElapsedSeconds: int,
    startedAt: Option<Instant>,
    pausedAt: Option<Instant>,
    completedAt: Option<Instant>)

  /** The row an entity is stored as, once it has an id and a remaining time. */
  function RowOf(f: SessionFields): SessionRow
    requires f.id.Some? && f.remainingSeconds.Some?
  {
    SessionRow(f.id.value, f.timeBlock, f.status, f.currentPhase, f.currentPhaseIndex,
               f.remainingSeconds.value, f.totalElapsedSeconds, f.startedAt, f.pausedAt, f.completedAt)
  }

  class TimerSession {
    var id: Option<int>
    var timeBlock: TimeBlock
    var status: TimerStatus
    var currentPhase: Phase
    var currentPhaseIndex: int
    var remainingSeconds: Option<int>
    var totalElapsedSeconds: int
    var startedAt: Option<Instant>
    var pausedAt: Option<Instant>
    var completedAt: Option<Instant>

    function Fields(): SessionFields
      reads this
    {
      SessionFields(id, timeBlock, status, currentPhase, currentPhaseIndex, remainingSeconds,
                    totalElapsedSeconds, startedAt, pausedAt, completedAt)
    }

    /** The entity can be written as a row. */
    predicate Persistable()
      reads this
    {
      id.Some? && remainingSeconds.Some?
    }

    function Row(): SessionRow
      reads this
      requires Persistable()
    {
      RowOf(Fields())
    }

    /**
     * A new session of a block: stopped, on a pomodoro at index 0, with nothing elapsed; the id, the
     * remaining time and the three timestamps are still unset.
     */
    constructor (block: TimeBlock)
      ensures Fields() == SessionFields(None, block, Stopped, Pomodoro, 0, None, 0, None, None, None)
    {
      id := None;
      timeBlock := block;
      status := Stopped;
      currentPhase := Pomodoro;
      currentPhaseIndex := 0;
      remainingSeconds := None;
      totalElapsedSeconds := 0;
      startedAt := None;
      pausedAt := None;
      completedAt := None;
    }

    /** The entity the store materialises from a row (the no-argument constructor, then every column). */
    constructor Load(row: SessionRow)
      ensures Persistable() && Row() == row
    {
      id := Some(row.id);
      timeBlock := row.timeBlock;
      status := row.status;
      currentPhase := row.currentPhase;
      currentPhaseIndex := row.currentPhaseIndex;
      remainingSeconds := Some(row.remainingSeconds);
      totalElapsedSeconds := row.totalElapsedSeconds;
      startedAt := row.startedAt;
      pausedAt := row.pausedAt;
      completedAt := row.completedAt;
    }

    /** The pre-persist hook: stamps the start time of a running session that has none, and nothing else. */
    method OnCreate(now: Instant)
      modifies this
      ensures old(startedAt.None? && status == Running) ==> Fields() == old(Fields()).(startedAt := Some(now))
      ensures !old(startedAt.None? && status == Running) ==> Fields() == old(Fields())
    {
      if startedAt.None? && status == Running {
        startedAt := Some(now);
      }
    }

    method SetId(v: Option<int>)
      modifies this
      ensures Fields() == old(Fields()).(id := v)
    {
      id := v;
    }

    method SetTimeBlock(v: TimeBlock)
      modifies this
      ensures Fields() == old(Fields()).(timeBlock := v)
    {
      timeBlock := v;
    }

    method SetStatus(v: TimerStatus)
      modifies this
      ensures Fields() == old(Fields()).(status := v)
    {
      status := v;
    }

    method SetCurrentPhase(v: Phase)
      modifies this
      ensures Fields() == old(Fields()).(currentPhase := v)
    {
      currentPhase := v;
    }

    method SetCurrentPhaseIndex(v: int)
      modifies this
      ensures Fields() == old(Fields()).(currentPhaseIndex := v)
    {
      currentPhaseIndex := v;
    }

    method SetRemainingSeconds(v: Option<int>)
      modifies this
      ensures Fields() == old(Fields()).(remainingSeconds := v)
    {
      remainingSeconds := v;
    }

    method SetTotalElapsedSeconds(v: int)
      modifies this
      ensures Fields() == old(Fields()).(totalElapsedSeconds := v)
    {
      totalElapsedSeconds := v;
    }

    method SetStartedAt(v: Option<Instant>)
      modifies this
      ensures Fields() == old(Fields()).(startedAt := v)
    {
      startedAt := v;
    }

    method SetPausedAt(v: Option<Instant>)
      modifies this
      ensures Fields() == old(Fields()).(pausedAt := v)
    {
      pausedAt := v;
    }

    method SetCompletedAt(v: Option<Instant>)
      modifies this
      ensures Fields() == old(Fields()).(completedAt := v)
    {
      completedAt := v;
    }
  }
}
