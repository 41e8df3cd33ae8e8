// The phase sequencer: how many pomodoros fit in a block, and the ordered list of phases.
module BlockService {
  import opened Domain
  import opened BlockSequenceDto

  /** Euclidean division of a non-negative number by a positive one brackets the dividend. */
  lemma DivBracket(a: int, b: int)
    requires a >= 0 && b >= 1
    ensures 0 <= a / b && (a / b) * b <= a < (a / b + 1) * b
  {
    assert a == (a / b) * b + a % b;
  }

  /**
   * The number of pomodoros of a block. When the time left after the long break is shorter than one
   * pomodoro the answer is 1; otherwise it is the number of whole pomodoro-plus-short-break cycles
   * that fit in that time, which may be 0. Both operands are non-negative there, so Java's truncating
   * division agrees with Dafny's.
   */
  function NumberOfPomodoros(total: int, pomodoro: int, shortBreak: int, longBreak: int): (n: nat)
    requires ValidDurations(total, pomodoro, shortBreak, longBreak)
    ensures total - longBreak < pomodoro ==> n == 1
    ensures total - longBreak >= pomodoro ==>
              n * (pomodoro + shortBreak) <= total - longBreak < (n + 1) * (pomodoro + shortBreak)
  {
    var cycle := pomodoro + shortBreak;
    var available := total - longBreak;
    if available < pomodoro then 1
    else
      DivBracket(available, cycle);
      available / cycle
  }

  /** The number of items of the pomodoro/short-break alternation for n pomodoros. */
  function WorkLength(n: nat): nat {
    if n == 0 then 0 else 2 * n - 1
  }

  /** The number of items of the whole sequence: the alternation, then a long break when there is one. */
  function SequenceLength(n: nat, longBreak: int): nat {
    WorkLength(n) + (if longBreak > 0 then 1 else 0)
  }

  /**
   * The item at 0-based position k: inside the alternation, pomodoros at even positions and short
   * breaks at odd positions; after it, the long break. Every item is numbered with its position plus one.
   */
  function ItemAt(k: nat, n: nat, pomodoro: int, shortBreak: int, longBreak: int): PhaseSequenceItem {
    if k < WorkLength(n) then
      if k % 2 == 0 then PhaseSequenceItem(Pomodoro, pomodoro, k + 1)
      else PhaseSequenceItem(ShortBreak, shortBreak, k + 1)
    else PhaseSequenceItem(LongBreak, longBreak, k + 1)
  }

  /** The sequence of a block with n pomodoros, position by position. */
  function PhaseSequence(n: nat, pomodoro: int, shortBreak: int, longBreak: int): seq<PhaseSequenceItem> {
    var len := SequenceLength(n, longBreak);
    seq(len, k requires 0 <= k < len => ItemAt(k, n, pomodoro, shortBreak, longBreak))
  }

  /**
   * Builds the sequence of a block: a pomodoro per iteration, a short break after every pomodoro but
   * the last, and a final long break when its duration is positive, numbering the items as it goes.
   */
  method CalculateSequence(total: int, pomodoro: int, shortBreak: int, longBreak: int) returns (dto: BlockSequence)
    requires ValidDurations(total, pomodoro, shortBreak, longBreak)
    ensures fresh(dto)
    ensures dto.totalDurationMinutes == total
    ensures dto.numberOfPomodoros == NumberOfPomodoros(total, pomodoro, shortBreak, longBreak)
    ensures dto.sequence == Some(PhaseSequence(dto.numberOfPomodoros, pomodoro, shortBreak, longBreak))
    ensures dto.PhasesConsistent()
  {
    var n := NumberOfPomodoros(total, pomodoro, shortBreak, longBreak);
    var items: seq<PhaseSequenceItem> := [];
    var sequenceNumber := 1;
    for i := 0 to n
      invariant |items| == if i < n then 2 * i else WorkLength(n)
      invariant sequenceNumber == |items| + 1
      invariant forall k :: 0 <= k < |items| ==> items[k] == ItemAt(k, n, pomodoro, shortBreak, longBreak)
    {
      items := items + [PhaseSequenceItem(Pomodoro, pomodoro, sequenceNumber)];
      sequenceNumber := sequenceNumber + 1;
      if i < n - 1 {
        items := items + [PhaseSequenceItem(ShortBreak, shortBreak, sequenceNumber)];
        sequenceNumber := sequenceNumber + 1;
      }
    }
    if longBreak > 0 {
      items := items + [PhaseSequenceItem(LongBreak, longBreak, sequenceNumber)];
    }
    assert items == PhaseSequence(n, pomodoro, shortBreak, longBreak);
    dto := new BlockSequence(total, n, Some(items));
  }

  /** The sequence of a stored block. */
  function SequenceFor(b: TimeBlock): (items: seq<PhaseSequenceItem>)
    requires ValidBlock(b)
    ensures forall k :: 0 <= k < |items| ==> items[k].durationMinutes >= 0
    ensures |items| > 0 ==> items[0].durationMinutes >= 1 && items[|items| - 1].durationMinutes >= 1
  {
    PhaseSequence(NumberOfPomodoros(b.totalDurationMinutes, b.pomodoroDurationMinutes,
                                    b.shortBreakDurationMinutes, b.longBreakDurationMinutes),
                  b.pomodoroDurationMinutes, b.shortBreakDurationMinutes, b.longBreakDurationMinutes)
  }

  // ----- Properties of the sequence -----

  /** How many items of a list are of a given kind. */
  function CountPhase(items: seq<PhaseSequenceItem>, ph: Phase): nat {
    if items == [] then 0
    else CountPhase(items[..|items| - 1], ph) + (if items[|items| - 1].phase == ph then 1 else 0)
  }

  /** The sum of the durations of a list, in minutes. */
  function TotalMinutes(items: seq<PhaseSequenceItem>): int {
    if items == [] then 0
    else TotalMinutes(items[..|items| - 1]) + items[|items| - 1].durationMinutes
  }

  /**
   * The shape of the sequence: its length; items numbered 1, 2, ... in order; each kind with its own
   * duration; a pomodoro first whenever there is one; every pomodoro but the last followed by a short
   * break and every short break by a pomodoro, so no two breaks are adjacent; and a long break exactly
   * when its duration is positive, as the last item.
   */
  lemma SequenceShape(n: nat, pomodoro: int, shortBreak: int, longBreak: int)
    ensures var s := PhaseSequence(n, pomodoro, shortBreak, longBreak);
      && |s| == (if n == 0 then 0 else 2 * n - 1) + (if longBreak > 0 then 1 else 0)
      && (forall k :: 0 <= k < |s| ==> s[k].sequenceNumber == k + 1)
      && (forall k :: 0 <= k < |s| && s[k].phase == Pomodoro ==> s[k].durationMinutes == pomodoro)
      && (forall k :: 0 <= k < |s| && s[k].phase == ShortBreak ==> s[k].durationMinutes == shortBreak)
      && (forall k :: 0 <= k < |s| && s[k].phase == LongBreak ==> s[k].durationMinutes == longBreak)
      && (n > 0 ==> s[0].phase == Pomodoro)
      && (forall k :: 0 <= k < |s| - 1 ==> s[k].phase == Pomodoro || s[k + 1].phase == Pomodoro)
      && (forall k :: 0 <= k < |s| - 1 && s[k].phase == Pomodoro && k + 1 < WorkLength(n) ==>
            s[k + 1].phase == ShortBreak)
      && (forall k :: 0 <= k < |s| && s[k].phase == LongBreak ==> k == |s| - 1)
      && ((exists k :: 0 <= k < |s| && s[k].phase == LongBreak) <==> longBreak > 0)
  {
    var s := PhaseSequence(n, pomodoro, shortBreak, longBreak);
    if longBreak > 0 {
      assert s[|s| - 1].phase == LongBreak;
    }
  }

  /** Counting by kind over the first m items of the sequence. */
  lemma {:induction false} PrefixCounts(n: nat, pomodoro: int, shortBreak: int, longBreak: int, m: nat)
    requires m <= SequenceLength(n, longBreak)
    ensures var s := PhaseSequence(n, pomodoro, shortBreak, longBreak);
            var w := if m < WorkLength(n) then m else WorkLength(n);
      && CountPhase(s[..m], Pomodoro) == (w + 1) / 2
      && CountPhase(s[..m], ShortBreak) == w / 2
      && CountPhase(s[..m], LongBreak) == m - w
  {
    var s := PhaseSequence(n, pomodoro, shortBreak, longBreak);
    if m > 0 {
      PrefixCounts(n, pomodoro, shortBreak, longBreak, m - 1);
      assert s[..m][..m - 1] == s[..m - 1];
    }
  }

  /** Exactly n pomodoros, one short break fewer, and one long break exactly when its duration is positive. */
  lemma PhaseCounts(n: nat, pomodoro: int, shortBreak: int, longBreak: int)
    ensures var s := PhaseSequence(n, pomodoro, shortBreak, longBreak);
      && CountPhase(s, Pomodoro) == n
      && CountPhase(s, ShortBreak) == (if n == 0 then 0 else n - 1)
      && CountPhase(s, LongBreak) == (if longBreak > 0 then 1 else 0)
  {
    var s := PhaseSequence(n, pomodoro, shortBreak, longBreak);
    PrefixCounts(n, pomodoro, shortBreak, longBreak, |s|);
    assert s[..|s|] == s;
  }

  /** One more of something costs its price once more. */
  lemma MulSucc(a: int, b: int)
    ensures (a + 1) * b == a * b + b
  {
  }

  /** A list whose items carry their kind's duration sums to the count of each kind times its duration. */
  lemma {:induction false} WeightedTotal(items: seq<PhaseSequenceItem>, pomodoro: int, shortBreak: int, longBreak: int)
    requires forall k :: 0 <= k < |items| ==>
      items[k].durationMinutes == match items[k].phase
        case Pomodoro => pomodoro
        case ShortBreak => shortBreak
        case LongBreak => longBreak
    ensures TotalMinutes(items) == CountPhase(items, Pomodoro) * pomodoro
                                   + CountPhase(items, ShortBreak) * shortBreak
                                   + CountPhase(items, LongBreak) * longBreak
  {
    if items != [] {
      var init := items[..|items| - 1];
      var last := items[|items| - 1];
      assert forall k :: 0 <= k < |init| ==> init[k] == items[k];
      WeightedTotal(init, pomodoro, shortBreak, longBreak);
      var cp, cs, cl := CountPhase(init, Pomodoro), CountPhase(init, ShortBreak), CountPhase(init, LongBreak);
      assert TotalMinutes(items) == TotalMinutes(init) + last.durationMinutes;
      match last.phase
      case Pomodoro =>
        assert CountPhase(items, Pomodoro) == cp + 1;
        assert CountPhase(items, ShortBreak) == cs && CountPhase(items, LongBreak) == cl;
        MulSucc(cp, pomodoro);
      case ShortBreak =>
        assert CountPhase(items, ShortBreak) == cs + 1;
        assert CountPhase(items, Pomodoro) == cp && CountPhase(items, LongBreak) == cl;
        MulSucc(cs, shortBreak);
      case LongBreak =>
        assert CountPhase(items, LongBreak) == cl + 1;
        assert CountPhase(items, Pomodoro) == cp && CountPhase(items, ShortBreak) == cs;
        MulSucc(cl, longBreak);
    }
  }

  /** The durations of the sequence add up to n pomodoros, n - 1 short breaks and the long break. */
  lemma SequenceTotal(n: nat, pomodoro: int, shortBreak: int, longBreak: int)
    ensures TotalMinutes(PhaseSequence(n, pomodoro, shortBreak, longBreak))
            == (if n == 0 then 0 else n * pomodoro + (n - 1) * shortBreak) + (if longBreak > 0 then longBreak else 0)
  {
    var s := PhaseSequence(n, pomodoro, shortBreak, longBreak);
    PhaseCounts(n, pomodoro, shortBreak, longBreak);
    WeightedTotal(s, pomodoro, shortBreak, longBreak);
  }

  /**
   * When the count comes from the division (the time after the long break holds at least one
   * pomodoro), the whole sequence fits in the block's total duration.
   */
  lemma SequenceFits(total: int, pomodoro: int, shortBreak: int, longBreak: int)
    requires ValidDurations(total, pomodoro, shortBreak, longBreak)
    requires total - longBreak >= pomodoro
    ensures var n := NumberOfPomodoros(total, pomodoro, shortBreak, longBreak);
            TotalMinutes(PhaseSequence(n, pomodoro, shortBreak, longBreak)) <= total
  {
    var n := NumberOfPomodoros(total, pomodoro, shortBreak, longBreak);
    SequenceTotal(n, pomodoro, shortBreak, longBreak);
    if n > 0 {
      assert n * pomodoro + (n - 1) * shortBreak == n * (pomodoro + shortBreak) - shortBreak;
    }
  }

  /** The floor of one pomodoro can overrun the block: a 10-minute block with 25-minute pomodoros lasts 25 minutes. */
  lemma FloorCanOverrun()
    ensures NumberOfPomodoros(10, 25, 5, 0) == 1
    ensures TotalMinutes(PhaseSequence(1, 25, 5, 0)) == 25 > 10
  {
    SequenceTotal(1, 25, 5, 0);
  }

  /** A two-hour block of 25-minute pomodoros, 5-minute short breaks and a 30-minute long break. */
  lemma DefaultBlockExample()
    ensures NumberOfPomodoros(120, 25, 5, 30) == 3
    ensures PhaseSequence(3, 25, 5, 30) == [
      PhaseSequenceItem(Pomodoro, 25, 1), PhaseSequenceItem(ShortBreak, 5, 2),
      PhaseSequenceItem(Pomodoro, 25, 3), PhaseSequenceItem(ShortBreak, 5, 4),
      PhaseSequenceItem(Pomodoro, 25, 5), PhaseSequenceItem(LongBreak, 30, 6)]
  {
  }

  /** The division can yield no pomodoro at all, and without a long break the sequence is then empty. */
  lemma EmptySequenceExample()
    ensures NumberOfPomodoros(30, 25, 10, 0) == 0
    ensures PhaseSequence(0, 25, 10, 0) == []
  {
  }
}
