/** What the flat timer promises over whole runs: any sequence of adds, erases and checks, with any clock readings.

By the contracts of `TimeWheels.TimeWheel` the same holds of the wheel.
*/
module TimerRuns {
  import opened Timers

  // ---- What every reachable state satisfies ----

  /** The firings of one id: all before `current`, at strictly increasing ticks, and none after the final one. */
  ghost predicate Orderly(fs: seq<Firing>, id: nat, current: int, pending: bool) {
    && (forall i :: 0 <= i < |fs| ==> fs[i].id == id && fs[i].tick < current)
    && (forall i, j :: 0 <= i < j < |fs| ==> fs[i].tick < fs[j].tick)
    && (forall i :: 0 <= i < |fs| && fs[i].done ==> i == |fs| - 1 && !pending)
  }

  ghost predicate Sound(s: Flat) {
    && 1 <= s.nextId
    && (forall id :: id in s.fired <==> 1 <= id < s.nextId)
    && (forall id :: id in s.tasks ==> id in s.fired && s.current <= s.tasks[id].due)
    && (forall id :: id in s.fired ==> Orderly(s.fired[id], id, s.current, id in s.tasks))
  }

  lemma OrderlyNext(fs: seq<Firing>, id: nat, c: int, done: bool)
    requires Orderly(fs, id, c, true)
    ensures Orderly(fs + [Firing(id, c, done)], id, c + 1, !done)
  {
  }

  lemma OrderlyStays(fs: seq<Firing>, id: nat, c: int, pending: bool)
    requires Orderly(fs, id, c, pending)
    ensures Orderly(fs, id, c + 1, pending)
  {
  }

  lemma TickOrderly(s: Flat, now: int, id: nat)
    requires Sound(s) && id in s.fired
    ensures var s' := Tick(s, now); id in s'.fired && Orderly(s'.fired[id], id, s'.current, id in s'.tasks)
  {
    assert Orderly(s.fired[id], id, s.current, id in s.tasks);
    hide Orderly, Sound, Rearmed, LastRound;
    if IsDue(s, id) {
      OrderlyNext(s.fired[id], id, s.current, LastRound(s.tasks[id].count));
    } else {
      OrderlyStays(s.fired[id], id, s.current, id in s.tasks);
    }
  }

  lemma TickSound(s: Flat, now: int)
    requires Sound(s)
    ensures Sound(Tick(s, now))
  {
    hide Orderly;
    var s' := Tick(s, now);
    forall id | id in s'.fired
      ensures Orderly(s'.fired[id], id, s'.current, id in s'.tasks)
    {
      TickOrderly(s, now, id);
    }
  }

  lemma {:induction false} CheckSound(s: Flat, now: int)
    requires Sound(s)
    ensures Sound(CheckTicks(s, now))
    decreases now + 1 - s.current
  {
    if s.current <= now {
      TickSound(s, now);
      CheckSound(Tick(s, now), now);
    }
  }

  lemma ApplySound(s: Flat, op: Op)
    requires Sound(s)
    ensures Sound(Apply(s, op))
  {
    if !s.stuck {
      match op
      case Add(now, expire, count, immediate, delay) =>
        forall id | id in s.fired
          ensures Orderly(s.fired[id], id, s.current, id in s.tasks)
        {
        }
      case Erase(id) =>
      case Check(now) => CheckSound(s, now);
    }
  }

  /** In every state that any run reaches, no pending task is overdue, and every task's callbacks came at strictly
      increasing ticks with nothing after the one that said `done`. */
  lemma {:induction false} RunSound(s: Flat, ops: seq<Op>)
    requires Sound(s)
    ensures Sound(Run(s, ops))
    decreases |ops|
  {
    if ops != [] {
      ApplySound(s, ops[0]);
      RunSound(Apply(s, ops[0]), ops[1..]);
    }
  }

  // ---- One arming of a task ----

  ghost predicate Untouched(id: nat, ops: seq<Op>) {
    forall i :: 0 <= i < |ops| && ops[i].Erase? ==> Key(ops[i].id) != id
  }

  /** How task `id`, pending in `s`, can stand later: as it was while its due tick is ahead, and from then on with
      exactly that one callback made at exactly that tick before any other. */
  ghost predicate OnTime(s: Flat, s': Flat, id: nat)
    requires id in s.tasks && id in s.fired
  {
    var t := s.tasks[id];
    && s.current <= s'.current && id in s'.fired
    && (s'.current <= t.due ==> id in s'.tasks && s'.tasks[id] == t && s'.fired[id] == s.fired[id])
    && (t.due < s'.current ==> s.fired[id] + [Firing(id, t.due, LastRound(t.count))] <= s'.fired[id])
  }

  lemma TickOnTime(s: Flat, s1: Flat, id: nat, now: int)
    requires Sound(s1) && id in s.tasks && id in s.fired && OnTime(s, s1, id)
    ensures OnTime(s, Tick(s1, now), id)
  {
  }

  lemma {:induction false} CheckOnTime(s: Flat, s1: Flat, id: nat, now: int)
    requires Sound(s1) && id in s.tasks && id in s.fired && OnTime(s, s1, id)
    ensures OnTime(s, CheckTicks(s1, now), id)
    decreases now + 1 - s1.current
  {
    if s1.current <= now {
      TickSound(s1, now);
      TickOnTime(s, s1, id, now);
      CheckOnTime(s, Tick(s1, now), id, now);
    }
  }

  lemma ApplyOnTime(s: Flat, s1: Flat, id: nat, op: Op)
    requires Sound(s1) && id in s.tasks && id in s.fired && OnTime(s, s1, id)
    requires op.Erase? ==> Key(op.id) != id
    ensures OnTime(s, Apply(s1, op), id)
  {
    if !s1.stuck && op.Check? {
      CheckOnTime(s, s1, id, op.now);
    }
  }

  lemma {:induction false} RunKeepsOnTime(s: Flat, s1: Flat, id: nat, ops: seq<Op>)
    requires Sound(s1) && id in s.tasks && id in s.fired && OnTime(s, s1, id) && Untouched(id, ops)
    ensures OnTime(s, Run(s1, ops), id)
    decreases |ops|
  {
    hide OnTime, Sound;
    if ops != [] {
      ApplyOnTime(s, s1, id, ops[0]);
      ApplySound(s1, ops[0]);
      assert Untouched(id, ops[1..]);
      RunKeepsOnTime(s, Apply(s1, ops[0]), id, ops[1..]);
    }
  }

  /** Never early, never late, never lost, never twice: over every run that does not erase it, a pending task is served
      once, at its due tick. */
  lemma ServedAtDueTick(s: Flat, id: nat, ops: seq<Op>)
    requires Sound(s) && id in s.tasks && Untouched(id, ops)
    ensures OnTime(s, Run(s, ops), id)
    ensures Sound(Run(s, ops))
    ensures var t, fs := s.tasks[id], Run(s, ops).fired[id];
      forall i :: 0 <= i < |fs| && fs[i].tick == t.due ==> i == |s.fired[id]| && fs[i].done == LastRound(t.count)
  {
    RunKeepsOnTime(s, s, id, ops);
    RunSound(s, ops);
    var t, fs := s.tasks[id], Run(s, ops).fired[id];
    assert Orderly(fs, id, Run(s, ops).current, id in Run(s, ops).tasks);
    assert Orderly(s.fired[id], id, s.current, id in s.tasks);
    if t.due < Run(s, ops).current {
      assert (s.fired[id] + [Firing(id, t.due, LastRound(t.count))])[|s.fired[id]|] == fs[|s.fired[id]|];
    }
  }

  // ---- How often and how far apart ----

  /** `count` callbacks in all, `FULL_CIRCLE` or a count of zero (which wraps to it) meaning no end. */
  predicate Endless(count: uint32) {
    count == 0 || count == FULL_CIRCLE
  }

  /** No re-arm waits longer than this, whatever the interval. */
  const LONGEST_WAIT: int := MAX_TICKS + 1

  function Gap(interval: int): int {
    if interval > LONGEST_WAIT then LONGEST_WAIT else if interval < 1 then 1 else interval
  }

  /** A task `t` that had made `f0` callbacks, once `f` are all its callbacks; `pending` tells whether it is still
      there, and then it is `t1`. */
  ghost predicate Tally(t: Task, f0: nat, f: seq<Firing>, pending: bool, t1: Task) {
    f0 <= |f| &&
    var k := |f| - f0;
    && (if Endless(t.count)
        then pending && t1.count == (if k == 0 then t.count else FULL_CIRCLE)
        else k <= t.count && (pending <==> k < t.count) && (k < t.count ==> t1.count == t.count - k))
    && (forall i :: f0 <= i < |f| ==> (f[i].done <==> !Endless(t.count) && i == f0 + t.count - 1))
    && (forall i :: f0 < i < |f| ==> f[i].tick - f[i - 1].tick >= Gap(t.interval))
    && (pending ==>
          t1.interval == t.interval && (k > 0 ==> t1.due - f[|f| - 1].tick >= Gap(t.interval)))
  }

  /** How task `id`, pending in `s`, stands in `s'`. */
  ghost predicate Rounds(s: Flat, s': Flat, id: nat)
    requires id in s.tasks && id in s.fired
  {
    && id in s'.fired && s.fired[id] <= s'.fired[id]
    && Tally(s.tasks[id], |s.fired[id]|, s'.fired[id], id in s'.tasks,
             if id in s'.tasks then s'.tasks[id] else s.tasks[id])
  }

  /** A re-arm waits at least the interval exactly when the interval is within the clamp. */
  lemma RearmWaits(t: Task, c: int, now: int)
    requires c <= now
    ensures Rearmed(t, c, now).due - c >= Gap(t.interval)
    ensures Rearmed(t, c, now).due - c >= t.interval <==> t.interval <= LONGEST_WAIT
  {
  }

  lemma TallyNext(t: Task, f0: nat, f: seq<Firing>, t1: Task, now: int, id: nat)
    requires Tally(t, f0, f, true, t1) && t1.due <= now
    ensures var last := LastRound(t1.count);
      Tally(t, f0, f + [Firing(id, t1.due, last)], !last, if last then t else Rearmed(t1, t1.due, now))
  {
    RearmWaits(t1, t1.due, now);
  }

  lemma TickRounds(s: Flat, s1: Flat, id: nat, now: int)
    requires Sound(s1) && s1.current <= now && id in s.tasks && id in s.fired && Rounds(s, s1, id)
    ensures Rounds(s, Tick(s1, now), id)
  {
    hide Tally, Orderly, Rearmed, LastRound;
    if IsDue(s1, id) {
      TallyNext(s.tasks[id], |s.fired[id]|, s1.fired[id], s1.tasks[id], now, id);
    }
  }

  lemma {:induction false} CheckRounds(s: Flat, s1: Flat, id: nat, now: int)
    requires Sound(s1) && id in s.tasks && id in s.fired && Rounds(s, s1, id)
    ensures Rounds(s, CheckTicks(s1, now), id)
    decreases now + 1 - s1.current
  {
    if s1.current <= now {
      TickSound(s1, now);
      TickRounds(s, s1, id, now);
      CheckRounds(s, Tick(s1, now), id, now);
    }
  }

  lemma ApplyRounds(s: Flat, s1: Flat, id: nat, op: Op)
    requires Sound(s1) && id in s.tasks && id in s.fired && Rounds(s, s1, id)
    requires op.Erase? ==> Key(op.id) != id
    ensures Rounds(s, Apply(s1, op), id)
  {
    if !s1.stuck && op.Check? {
      CheckRounds(s, s1, id, op.now);
    }
  }

  lemma {:induction false} RunKeepsRounds(s: Flat, s1: Flat, id: nat, ops: seq<Op>)
    requires Sound(s1) && id in s.tasks && id in s.fired && Rounds(s, s1, id) && Untouched(id, ops)
    ensures Rounds(s, Run(s1, ops), id)
    decreases |ops|
  {
    hide Rounds, Sound;
    if ops != [] {
      ApplyRounds(s, s1, id, ops[0]);
      ApplySound(s1, ops[0]);
      assert Untouched(id, ops[1..]);
      RunKeepsRounds(s, Apply(s1, ops[0]), id, ops[1..]);
    }
  }

  /** Over every run that does not erase it, a counted task makes at most `count` callbacks, says `done` exactly on the
      last of them and is pending until then; any other task is never done; and callbacks are at least the
      interval apart, up to the clamp. */
  lemma RoundsOverRuns(s: Flat, id: nat, ops: seq<Op>)
    requires Sound(s) && id in s.tasks && Untouched(id, ops)
    ensures Rounds(s, Run(s, ops), id)
  {
    RunKeepsRounds(s, s, id, ops);
  }

  /** The clock reading `now` of the check that serves `t` is not before the due tick that the re-arm gives. */
  predicate ComesAgain(t: Task, now: int) {
    (t.interval < 1 && t.due < now) || (t.due + LONGEST_WAIT <= now && now + t.interval > t.due + LONGEST_WAIT)
  }

  lemma RearmInReach(t: Task, now: int)
    requires t.due <= now
    ensures Rearmed(t, t.due, now).due <= now <==> ComesAgain(t, now)
  {
  }

  /** A task due after the check is not served by it. */
  lemma {:induction false} QuietInCheck(s: Flat, id: nat, now: int)
    requires id in s.fired && (id in s.tasks ==> now < s.tasks[id].due)
    ensures id in CheckTicks(s, now).fired && CheckTicks(s, now).fired[id] == s.fired[id]
    decreases now + 1 - s.current
  {
    if s.current <= now {
      QuietInCheck(Tick(s, now), id, now);
    }
  }

  /** With an interval of at least one tick, a check that is less than the clamp behind serves no task twice. */
  lemma {:induction false} OncePerCheck(s: Flat, id: nat, now: int)
    requires Sound(s) && id in s.tasks && s.tasks[id].interval >= 1 && now < s.current + LONGEST_WAIT
    ensures id in CheckTicks(s, now).fired
    ensures CheckTicks(s, now).fired[id]
         == if s.current <= now && s.tasks[id].due <= now
            then s.fired[id] + [Firing(id, s.tasks[id].due, LastRound(s.tasks[id].count))]
            else s.fired[id]
    decreases now + 1 - s.current
  {
    if s.current <= now {
      TickSound(s, now);
      if IsDue(s, id) {
        RearmInReach(s.tasks[id], now);
        QuietInCheck(Tick(s, now), id, now);
      } else {
        OncePerCheck(Tick(s, now), id, now);
      }
    }
  }

  /** A task that is due within a check is served twice or more by it exactly when it has rounds left and its re-armed
      due tick lies within the check too: its interval is below one tick and the check runs late, or the clamp cut its
      wait short. */
  lemma {:induction false} TwiceInOneCheck(s: Flat, id: nat, now: int)
    requires Sound(s) && id in s.tasks && s.tasks[id].due <= now
    ensures id in CheckTicks(s, now).fired
    ensures |CheckTicks(s, now).fired[id]| >= |s.fired[id]| + 2
       <==> !LastRound(s.tasks[id].count) && ComesAgain(s.tasks[id], now)
    decreases now + 1 - s.current
  {
    hide Orderly, OnTime, Rearmed, ComesAgain;
    var s1 := Tick(s, now);
    TickSound(s, now);
    if !IsDue(s, id) {
      TwiceInOneCheck(s1, id, now);
    } else {
      RearmInReach(s.tasks[id], now);
      if id in s1.tasks && s1.tasks[id].due <= now {
        ServedWithin(s1, id, now);
      } else {
        QuietInCheck(s1, id, now);
      }
    }
  }

  lemma ServedWithin(s: Flat, id: nat, now: int)
    requires Sound(s) && id in s.tasks && s.tasks[id].due <= now
    ensures id in CheckTicks(s, now).fired && |CheckTicks(s, now).fired[id]| >= |s.fired[id]| + 1
  {
    CheckOnTime(s, s, id, now);
    CheckReaches(s, now);
  }

  /** A check goes exactly as far as the clock reading. */
  lemma {:induction false} CheckReaches(s: Flat, now: int)
    ensures CheckTicks(s, now).current == if s.current <= now then now + 1 else s.current
    decreases now + 1 - s.current
  {
    if s.current <= now {
      CheckReaches(Tick(s, now), now);
    }
  }

  // ---- When callbacks come, in numbers ----

  /** A task that is due after the check is left as it is. */
  lemma {:induction false} KeptInCheck(s: Flat, id: nat, now: int)
    requires id in s.tasks && id in s.fired && now < s.tasks[id].due
    ensures id in CheckTicks(s, now).tasks && CheckTicks(s, now).tasks[id] == s.tasks[id]
    ensures id in CheckTicks(s, now).fired && CheckTicks(s, now).fired[id] == s.fired[id]
    decreases now + 1 - s.current
  {
    if s.current <= now {
      KeptInCheck(Tick(s, now), id, now);
    }
  }

  lemma TickServes(s: Flat, id: nat, now: int)
    requires Sound(s) && IsDue(s, id)
    ensures Tick(s, now).current == s.current + 1 && id in Tick(s, now).fired
    ensures Tick(s, now).fired[id] == s.fired[id] + [Firing(id, s.current, LastRound(s.tasks[id].count))]
    ensures !LastRound(s.tasks[id].count) ==>
      id in Tick(s, now).tasks && Tick(s, now).tasks[id] == Rearmed(s.tasks[id], s.current, now)
  {
    hide Orderly, Rearmed, LastRound;
  }

  lemma RearmedNext(t: Task, now: int)
    requires t.due <= now < t.due + 0x1_0000_0000
    ensures Rearmed(t, t.due, now).interval == t.interval
    ensures Rearmed(t, t.due, now).count
         == if t.count == 0 || t.count == 0xFFFF_FFFF then 0xFFFF_FFFF else t.count - 1
    ensures var due := Rearmed(t, t.due, now).due;
      due == if now + t.interval <= t.due then t.due + 1
             else if now + t.interval > t.due + 0x1_0000_0000 then t.due + 0x1_0000_0000
             else now + t.interval
    ensures LastRound(t.count) <==> t.count == 1
  {
  }

  lemma NotOverdue(s: Flat, id: nat)
    requires Sound(s) && id in s.tasks
    ensures id in s.fired && s.current <= s.tasks[id].due
  {
  }

  lemma TickPasses(s: Flat, id: nat, now: int)
    requires Sound(s) && id in s.tasks && !IsDue(s, id)
    ensures Tick(s, now).current == s.current + 1
    ensures id in Tick(s, now).fired && Tick(s, now).fired[id] == s.fired[id]
    ensures id in Tick(s, now).tasks && Tick(s, now).tasks[id] == s.tasks[id]
  {
    hide Orderly, Rearmed, LastRound;
  }

  /** The period: a check that reads the clock as `now` serves a due task with rounds left once, and sets it to be due
      next at `now` plus its interval, or two to the 32 ticks after its due tick where that comes first; as long as this
      lies after the check. */
  lemma {:induction false} NextDue(s: Flat, id: nat, now: int)
    requires Sound(s) && id in s.tasks && s.tasks[id].due <= now && s.tasks[id].count != 1
    requires s.tasks[id].interval >= 1 && now < s.tasks[id].due + 0x1_0000_0000
    ensures var t, s' := s.tasks[id], CheckTicks(s, now);
      && id in s'.tasks && id in s'.fired
      && s'.fired[id] == s.fired[id] + [Firing(id, t.due, false)]
      && s'.tasks[id].interval == t.interval
      && (now + t.interval <= t.due + 0x1_0000_0000 ==> s'.tasks[id].due == now + t.interval)
      && (now + t.interval > t.due + 0x1_0000_0000 ==> s'.tasks[id].due == t.due + 0x1_0000_0000)
      && s'.tasks[id].count == if t.count == 0 || t.count == 0xFFFF_FFFF then 0xFFFF_FFFF else t.count - 1
    decreases now + 1 - s.current
  {
    hide Tick, Sound, Rearmed, LastRound;
    TickSound(s, now);
    NotOverdue(s, id);
    RearmedNext(s.tasks[id], now);
    if IsDue(s, id) {
      TickServes(s, id, now);
      KeptInCheck(Tick(s, now), id, now);
    } else {
      TickPasses(s, id, now);
      NextDue(Tick(s, now), id, now);
    }
  }

  /** Without end and with an interval below one tick, a task is served at its due tick and then at every tick from the
      one that its interval asks for, or the next one, up to the clock reading. */
  lemma {:induction false} EveryTick(s: Flat, id: nat, now: int)
    requires Sound(s) && id in s.tasks && s.tasks[id].due <= now < s.tasks[id].due + 0x1_0000_0000
    requires s.tasks[id].interval < 1 && s.tasks[id].count == 0xFFFF_FFFF
    ensures var t, s' := s.tasks[id], CheckTicks(s, now);
      && id in s'.tasks && s'.tasks[id].due == now + 1
      && id in s'.fired
      && |s'.fired[id]| - |s.fired[id]| == 1 + if now + t.interval <= t.due then now - t.due else 1 - t.interval
    decreases now + 1 - s.current
  {
    hide Tick, Sound, Rearmed, LastRound;
    TickSound(s, now);
    NotOverdue(s, id);
    RearmedNext(s.tasks[id], now);
    if !IsDue(s, id) {
      TickPasses(s, id, now);
      EveryTick(Tick(s, now), id, now);
    } else {
      TickServes(s, id, now);
      var s1 := Tick(s, now);
      assert s1.tasks[id].due <= now <==> s.tasks[id].due < now;
      if s1.tasks[id].due <= now {
        EveryTick(s1, id, now);
      } else {
        KeptInCheck(s1, id, now);
      }
    }
  }

  /** Task `id` is called first at tick `tick`, and not called before that. */
  ghost predicate CalledFirst(s: Flat, id: nat, tick: int, expire: int, count: uint32) {
    && id in s.fired
    && (if s.current <= tick then s.fired[id] == [] && id in s.tasks && s.tasks[id] == Task(tick, expire, count)
        else s.fired[id] != [] && s.fired[id][0] == Firing(id, tick, count == 1))
  }

  /** The first callback: over every run that does not erase it, a new task is called first at the tick it was added
      for; one added for the past, at the next tick; and one added too far ahead, two to the 32 less one ticks later. */
  lemma FirstCallback(s: Flat, now: int, expire: int, count: uint32, immediate: bool, delay: int, ops: seq<Op>)
    requires Sound(s) && !s.stuck && Untouched(s.nextId, ops)
    ensures var s' := Run(s, [Add(now, expire, count, immediate, delay)] + ops);
      var at := now + if immediate then delay else expire + delay;
      && (s.current <= at <= s.current + 0xFFFF_FFFF ==> CalledFirst(s', s.nextId, at, expire, count))
      && (at < s.current ==> CalledFirst(s', s.nextId, s.current, expire, count))
      && (at > s.current + 0xFFFF_FFFF ==> CalledFirst(s', s.nextId, s.current + 0xFFFF_FFFF, expire, count))
  {
    var op := Add(now, expire, count, immediate, delay);
    var s1 := Apply(s, op);
    ApplySound(s, op);
    AddedTask(s, now, expire, count, immediate, delay);
    hide Sound, Run, AddTask, DueTick;
    ServedAtDueTick(s1, s.nextId, ops);
    FirstRun(s, op, ops);
  }

  lemma AddedTask(s: Flat, now: int, expire: int, count: uint32, immediate: bool, delay: int)
    ensures var s1 := AddTask(s, now, expire, count, immediate, delay);
      var at := now + if immediate then delay else expire + delay;
      && s1.nextId == s.nextId + 1 && s1.current == s.current && s.nextId in s1.fired && s1.fired[s.nextId] == []
      && s.nextId in s1.tasks
      && s1.tasks[s.nextId]
      == Task(if at < s.current then s.current
              else if at > s.current + 0xFFFF_FFFF then s.current + 0xFFFF_FFFF else at, expire, count)
    ensures LastRound(count) <==> count == 1
  {
  }

  lemma FirstRun(s: Flat, op: Op, ops: seq<Op>)
    ensures Run(s, [op] + ops) == Run(Apply(s, op), ops)
  {
    assert ([op] + ops)[1..] == ops;
  }

  /** On a timer that starts at `t0`: a task added for a tick from there on is not called by a check that reads an
      earlier tick; a check that reads that tick or a later one has called it, first at that very tick. */
  lemma FirstCallbackFromStart(t0: int, now: int, expire: int, count: uint32, immediate: bool, delay: int, n: int)
    ensures var s' := Run(Start(t0), [Add(now, expire, count, immediate, delay), Check(n)]);
      var at := now + if immediate then delay else expire + delay;
      t0 <= at <= t0 + 0xFFFF_FFFF ==>
        1 in s'.fired
        && if n < at then s'.fired[1] == [] else s'.fired[1] != [] && s'.fired[1][0] == Firing(1, at, count == 1)
  {
    var op := Add(now, expire, count, immediate, delay);
    var s1 := Apply(Start(t0), op);
    assert [op] + [Check(n)] == [op, Check(n)];
    assert [op, Check(n)][1..] == [Check(n)] && [Check(n)][1..] == [];
    assert Run(Start(t0), [op, Check(n)]) == Run(s1, [Check(n)]) == Run(CheckTicks(s1, n), []) == CheckTicks(s1, n);
    CheckReaches(s1, n);
    FirstCallback(Start(t0), now, expire, count, immediate, delay, [Check(n)]);
  }

  // ---- A pace that all tasks keep ----

  ghost predicate Apart(fs: seq<Firing>, g: int) {
    forall i :: 0 < i < |fs| ==> fs[i].tick - fs[i - 1].tick >= g
  }

  /** The callbacks of each id, of erased and finished tasks too, are at least `g` ticks apart, and the next one of
      every pending task will be. */
  ghost predicate Paced(s: Flat, g: int) {
    && (forall id :: id in s.fired ==> Apart(s.fired[id], g))
    && (forall id :: id in s.tasks ==>
          && id in s.fired && Gap(s.tasks[id].interval) >= g
          && (s.fired[id] != [] ==> s.tasks[id].due - s.fired[id][|s.fired[id]| - 1].tick >= g))
  }

  lemma TickPaced(s: Flat, now: int, g: int)
    requires Paced(s, g) && s.current <= now
    ensures Paced(Tick(s, now), g)
  {
    var s' := Tick(s, now);
    forall id | id in s'.fired ensures Apart(s'.fired[id], g) {
      hide Rearmed;
      TickKeepsApart(s, now, g, id);
    }
    forall id | id in s'.tasks
      ensures id in s'.fired && Gap(s'.tasks[id].interval) >= g
      ensures s'.fired[id] != [] ==> s'.tasks[id].due - s'.fired[id][|s'.fired[id]| - 1].tick >= g
    {
      hide Rearmed, Apart, Gap;
      assert id in s.tasks;
      RearmWaits(s.tasks[id], s.current, now);
      RearmKeepsInterval(s.tasks[id], s.current, now);
    }
  }

  lemma TickKeepsApart(s: Flat, now: int, g: int, id: nat)
    requires Paced(s, g) && id in s.fired
    ensures id in Tick(s, now).fired && Apart(Tick(s, now).fired[id], g)
  {
    hide Rearmed, Gap, LastRound;
    if IsDue(s, id) {
      ApartNext(s.fired[id], Firing(id, s.current, LastRound(s.tasks[id].count)), g);
    }
  }

  lemma ApartNext(fs: seq<Firing>, f: Firing, g: int)
    requires Apart(fs, g) && (fs != [] ==> f.tick - fs[|fs| - 1].tick >= g)
    ensures Apart(fs + [f], g)
  {
  }

  lemma RearmKeepsInterval(t: Task, c: int, now: int)
    ensures Rearmed(t, c, now).interval == t.interval
  {
  }

  lemma {:induction false} CheckPaced(s: Flat, now: int, g: int)
    requires Paced(s, g)
    ensures Paced(CheckTicks(s, now), g)
    decreases now + 1 - s.current
  {
    if s.current <= now {
      TickPaced(s, now, g);
      CheckPaced(Tick(s, now), now, g);
    }
  }

  /** Adding a task of that pace, erasing and checking keep the pace. */
  lemma ApplyPaced(s: Flat, op: Op, g: int)
    requires Sound(s) && Paced(s, g) && (op.Add? ==> Gap(op.expire) >= g)
    ensures Paced(Apply(s, op), g)
  {
    if op.Check? {
      CheckPaced(s, op.now, g);
    }
  }

  // ---- Erasing and the lock ----

  /** Erasing a pending id takes exactly that task away when the id fits the 32 bits of the parameter; otherwise the
      task stays. */
  lemma EraseRemoves(s: Flat, id: nat)
    requires Sound(s) && id in s.tasks
    ensures EraseTask(s, id) == s.(tasks := s.tasks - {id}) <==> id < 0x1_0000_0000
    ensures id >= 0x1_0000_0000 ==> id in EraseTask(s, id).tasks && EraseTask(s, id).tasks[id] == s.tasks[id]
  {
    if id < 0x1_0000_0000 {
      assert Key(id) == id;
    } else {
      assert Key(id) != id;
      assert id in EraseTask(s, id).tasks;
      assert id !in s.(tasks := s.tasks - {id}).tasks;
    }
  }

  /** Erasing a counted task by its own id leaves the lock held for ever exactly when the task has made all its
      callbacks. */
  lemma EraseAfterLastRound(s: Flat, id: nat, ops: seq<Op>)
    requires Sound(s) && id in s.tasks && Untouched(id, ops) && !Endless(s.tasks[id].count) && id < 0x1_0000_0000
    requires !Run(s, ops).stuck
    ensures id in Run(s, ops).fired
    ensures Apply(Run(s, ops), Erase(id)).stuck
       <==> |Run(s, ops).fired[id]| == |s.fired[id]| + s.tasks[id].count
  {
    hide Sound, Untouched, Run;
    RoundsOverRuns(s, id, ops);
    assert Key(id) == id;
  }
}
