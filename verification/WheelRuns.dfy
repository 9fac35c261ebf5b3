/** Whole runs of the wheel refine whole runs of the flat timer. */
module WheelRuns {
  import opened Timers
  import opened TimeWheels
  import TimerRuns

  /** Clock readings and spans that the wheel's 64-bit sums can hold. */
  predicate InRange(op: Op) {
    match op
    case Add(now, expire, _, _, delay) => IsClock(now) && IsSpan(expire) && IsSpan(delay)
    case Erase(_) => true
    case Check(now) => IsClock(now)
  }

  predicate IsClock(t: int) {
    0 <= t < 0x2000_0000_0000_0000
  }

  predicate IsSpan(t: int) {
    -0x2000_0000_0000_0000 < t < 0x2000_0000_0000_0000
  }

  /** Performs the operations one after the other. A lock that was not released blocks every later one. */
  method Replay(w: TimeWheel, ops: seq<Op>)
    requires w.Valid() && forall i :: 0 <= i < |ops| ==> InRange(ops[i])
    modifies w, w.tv
    ensures w.Valid() && w.Abs() == Run(old(w.Abs()), ops)
    decreases |ops|
  {
    hide Indexed, AllPlaced, TasksOf, FiredOf, CheckTicks, Timers.AddTask, Timers.EraseTask;
    if ops == [] {
      return;
    }
    if w.locked {
      StuckForGood(w.Abs(), ops);
      return;
    }
    assert InRange(ops[0]);
    match ops[0] {
      case Add(now, expire, count, immediate, delay) =>
        var id := w.AddTask(now, expire, count, immediate, delay);
      case Erase(id) =>
        var found := w.EraseTask(id);
      case Check(now) =>
        w.Check(now);
    }
    Replay(w, ops[1..]);
  }

  lemma {:induction false} StuckForGood(s: Flat, ops: seq<Op>)
    requires s.stuck
    ensures Run(s, ops) == s
    decreases |ops|
  {
    if ops != [] {
      StuckForGood(s, ops[1..]);
    }
  }

  /** A wheel that is new satisfies what `TimerRuns` asks of a state to start from, and so does every state it
      reaches. */
  lemma ReachableSound(now: int, ops: seq<Op>)
    ensures TimerRuns.Sound(Run(Start(now), ops))
  {
    TimerRuns.RunSound(Start(now), ops);
  }
}
