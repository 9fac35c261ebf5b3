/** The simple timer that the timing wheel speeds up: a flat map from task id to due tick.

This is the specification of the wheel: `TimeWheels` shows that every operation of the wheel acts
on its abstract value as the functions of this module do, and `TimerRuns` proves what the flat timer
promises over whole runs.
*/
module Timers {
  type uint32 = x: int | 0 <= x < 0x1_0000_0000

  /** Marks a task that is never done. */
  const FULL_CIRCLE: uint32 := 0xFFFF_FFFF

  /** The farthest a task is kept ahead of the clock. */
  const MAX_TICKS: int := 0xFFFF_FFFF

  datatype Task = Task(due: int, interval: int, count: uint32)

  /** One call of a task's callback, during tick `tick`. */
  datatype Firing = Firing(id: nat, tick: int, done: bool)

  /** `current` is the next tick to process, `fired` the callbacks so far of every issued id. `stuck`
      tells that the wheel's lock was never released, which blocks every later operation. */
  datatype Flat = Flat(
    current: int, nextId: nat, tasks: map<nat, Task>, fired: map<nat, seq<Firing>>, stuck: bool)

  datatype Op =
    | Add(now: int, expire: int, count: uint32, immediate: bool, delay: int)
    | Erase(id: nat)
    | Check(now: int)

  function DueTick(expire: int, current: int): int {
    if expire - current > MAX_TICKS then current + MAX_TICKS
    else if expire < current then current
    else expire
  }

  /** The source's `--circle_count_` on 32 bits. */
  function Decrement(count: uint32): uint32 {
    if count == 0 then 0xFFFF_FFFF else count - 1
  }

  predicate LastRound(count: uint32) {
    count != FULL_CIRCLE && Decrement(count) == 0
  }

  /** A task that fired at tick `c`, in a check that read the clock as `now`. */
  function Rearmed(t: Task, c: int, now: int): Task {
    Task(DueTick(now + t.interval, c + 1), t.interval,
         if t.count == FULL_CIRCLE then FULL_CIRCLE else Decrement(t.count))
  }

  function Start(now: int): Flat {
    Flat(now, 1, map[], map[], false)
  }

  function AddTask(s: Flat, now: int, expire: int, count: uint32, immediate: bool, delay: int): Flat {
    var e := now + if immediate then delay else expire + delay;
    s.(nextId := s.nextId + 1,
       tasks := s.tasks[s.nextId := Task(DueTick(e, s.current), expire, count)],
       fired := s.fired[s.nextId := []])
  }

  /** The key that an erase looks for: the parameter of `erase_task` has 32 bits. */
  function Key(id: nat): nat {
    id % 0x1_0000_0000
  }

  function EraseTask(s: Flat, id: nat): Flat {
    if Key(id) in s.tasks then s.(tasks := s.tasks - {Key(id)}) else s.(stuck := true)
  }

  predicate IsDue(s: Flat, id: nat) {
    id in s.tasks && s.tasks[id].due == s.current
  }

  function Tick(s: Flat, now: int): Flat {
    s.(current := s.current + 1,
       tasks := map id | id in s.tasks && !(IsDue(s, id) && LastRound(s.tasks[id].count)) ::
         if IsDue(s, id) then Rearmed(s.tasks[id], s.current, now) else s.tasks[id],
       fired := map id | id in s.fired ::
         if IsDue(s, id) then s.fired[id] + [Firing(id, s.current, LastRound(s.tasks[id].count))] else s.fired[id])
  }

  /** All ticks up to and including `now`. */
  function CheckTicks(s: Flat, now: int): Flat
    decreases now + 1 - s.current
  {
    if s.current <= now then CheckTicks(Tick(s, now), now) else s
  }

  function Apply(s: Flat, op: Op): Flat {
    if s.stuck then s else
    match op
    case Add(now, expire, count, immediate, delay) => AddTask(s, now, expire, count, immediate, delay)
    case Erase(id) => EraseTask(s, id)
    case Check(now) => CheckTicks(s, now)
  }

  function Run(s: Flat, ops: seq<Op>): Flat
    decreases |ops|
  {
    if ops == [] then s else Run(Apply(s, ops[0]), ops[1..])
  }
}
