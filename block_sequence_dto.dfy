// The sequence wrapper returned by the sequencer, with its derived phase count.
module BlockSequenceDto {
  import opened Domain

  /** The number of phases of a possibly-null list; a null list has none. */
  function SizeOf(items: Option<seq<PhaseSequenceItem>>): nat {
    if items.Some? then |items.value| else 0
  }

  class BlockSequence {
    var totalDurationMinutes: int
    var numberOfPomodoros: int
    var sequence: Option<seq<PhaseSequenceItem>>
    var totalPhases: int

    /** The derived count agrees with the stored list. */
    predicate PhasesConsistent()
      reads this
    {
      totalPhases == SizeOf(sequence)
    }

    /** Stores the three arguments unchanged and derives the phase count from the list. */
    constructor (total: int, pomodoros: int, items: Option<seq<PhaseSequenceItem>>)
      ensures totalDurationMinutes == total && numberOfPomodoros == pomodoros && sequence == items
      ensures PhasesConsistent()
      ensures items.None? ==> totalPhases == 0
    {
      totalDurationMinutes := total;
      numberOfPomodoros := pomodoros;
      sequence := items;
      totalPhases := if items.Some? then |items.value| else 0;
    }

    /** Replaces the list and re-derives the phase count, so the count stays consistent. */
    method SetSequence(items: Option<seq<PhaseSequenceItem>>)
      modifies this
      ensures sequence == items && PhasesConsistent()
      ensures items.None? ==> totalPhases == 0
      ensures totalDurationMinutes == old(totalDurationMinutes) && numberOfPomodoros == old(numberOfPomodoros)
    {
      sequence := items;
      totalPhases := if items.Some? then |items.value| else 0;
    }

    /** Overwrites the count directly: the object stays consistent exactly when the new count is the list's size. */
    method SetTotalPhases(n: int)
      modifies this
      ensures totalPhases == n
      ensures sequence == old(sequence)
      ensures totalDurationMinutes == old(totalDurationMinutes) && numberOfPomodoros == old(numberOfPomodoros)
      ensures PhasesConsistent() <==> n == SizeOf(sequence)
    {
      totalPhases := n;
    }
  }
}
