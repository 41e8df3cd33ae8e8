// Value types shared by the phase sequencer and the session timer.
module Domain {

  /** The kind of a segment of a block (Phase.java). */
  datatype Phase = Pomodoro | ShortBreak | LongBreak

  /** The lifecycle status of a timer session (TimerStatus.java). */
  datatype TimerStatus = Stopped | Running | Paused | Completed

  /** One phase of a block's sequence: its kind, its length in minutes and its 1-based position. */
  datatype PhaseSequenceItem = PhaseSequenceItem(phase: Phase, durationMinutes: int, sequenceNumber: int)

  /** A stored block configuration, with the fields the timer core reads. */
  datatype TimeBlock = TimeBlock(
    id: int,
    totalDurationMinutes: int,
    pomodoroDurationMinutes: int,
    shortBreakDurationMinutes: int,
    longBreakDurationMinutes: int)

  /** The bean-validation bounds every stored block and every block request satisfies. */
  predicate ValidDurations(total: int, pomodoro: int, shortBreak: int, longBreak: int) {
    total >= 1 && pomodoro >= 1 && shortBreak >= 0 && longBreak >= 0
  }

  predicate ValidBlock(b: TimeBlock) {
    ValidDurations(b.totalDurationMinutes, b.pomodoroDurationMinutes,
                   b.shortBreakDurationMinutes, b.longBreakDurationMinutes)
  }

  /** A reading of the wall clock; each operation that stamps a time receives it as a parameter. */
  type Instant = int

  /** A nullable reference. */
  datatype Option<+T> = None | Some(value: T)

  /** The normal return of an operation, or the exception it throws. */
  datatype Result<+T, +E> = Success(value: T) | Failure(error: E)

  /** The return of an operation that returns nothing, or the exception it throws. */
  datatype Outcome<+E> = Pass | Fail(error: E)

  /** The exceptions the core throws, by kind. */
  datatype Error =
    | NotFound          // IllegalArgumentException: no block or session with that id
    | StateConflict     // IllegalStateException: the operation is not allowed in the current status
    | NullSequence      // NullPointerException: no cached sequence for the session
    | IndexOutOfBounds  // IndexOutOfBoundsException: the first phase of an empty sequence
}
