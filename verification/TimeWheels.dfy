/** The hierarchical timing wheel, with its lists, its index and its clock changed in place.

`Abs` is the flat timer that the wheel stands for; every method states its effect on it.
*/
module TimeWheels {
  import opened Slots
  import opened Timers

  /** Clock readings and time spans in milliseconds, far enough from the ends of 64 bits that the
      sums the wheel forms do not overflow. */
  type ClockMs = t: int | 0 <= t < 0x2000_0000_0000_0000
  type SpanMs = t: int | -0x2000_0000_0000_0000 < t < 0x2000_0000_0000_0000

  const SIZE_T: int := 0x1_0000_0000_0000_0000

  /** `list` is the number of the list that holds the node. */
  datatype TimeNode = TimeNode(id: nat, expire: int, interval: SpanMs, count: uint32, list: nat)

  // ---- The index and the lists ----

  ghost predicate Distinct<T>(s: seq<T>) {
    forall i, j :: 0 <= i < j < |s| ==> s[i] != s[j]
  }

  /** `m` is a bijection with the nodes in the lists, except that the nodes of the ids in `moved` have
      been moved out of their list. */
  ghost predicate Indexed(tvs: seq<seq<TimeNode>>, m: map<nat, TimeNode>, moved: set<nat>) {
    && |tvs| == SLOTS
    && moved <= m.Keys
    && (forall id :: id in m ==> m[id].id == id)
    && (forall id :: id in m && id !in moved ==> m[id].list < SLOTS && m[id] in tvs[m[id].list])
    && (forall s, n :: 0 <= s < SLOTS && n in tvs[s] ==>
          n.id in m && n.id !in moved && m[n.id] == n && n.list == s)
    && (forall s :: 0 <= s < SLOTS ==> Distinct(tvs[s]))
  }

  ghost predicate AllPlaced(m: map<nat, TimeNode>, moved: set<nat>, c: int) {
    forall id :: id in m && id !in moved ==> Placed(m[id].list, m[id].expire, c)
  }

  ghost function Ids(s: seq<TimeNode>): (r: set<nat>) {
    set n | n in s :: n.id
  }

  lemma AppendKeepsIndex(tvs: seq<seq<TimeNode>>, m: map<nat, TimeNode>, moved: set<nat>, n: TimeNode)
    requires Indexed(tvs, m, moved) && n.list < SLOTS && (n.id in m ==> n.id in moved)
    ensures Indexed(tvs[n.list := tvs[n.list] + [n]], m[n.id := n], moved - {n.id})
  {
    var tvs' := tvs[n.list := tvs[n.list] + [n]];
    var m' := m[n.id := n];
    forall id | id in m' && id !in moved - {n.id}
      ensures m'[id].list < SLOTS && m'[id] in tvs'[m'[id].list]
    {
      if id == n.id {
        assert tvs'[n.list][|tvs[n.list]|] == n;
      } else {
        assert m[id] in tvs[m[id].list];
      }
    }
    forall s: nat, x: TimeNode | s < SLOTS && x in tvs'[s]
      ensures x.id in m' && x.id !in moved - {n.id} && m'[x.id] == x && x.list == s
    {
      if x != n {
        assert x in tvs[s];
      } else if s != n.list {
        assert x in tvs[s];
      }
    }
    forall s | 0 <= s < SLOTS
      ensures Distinct(tvs'[s])
    {
      assert Distinct(tvs[s]);
      assert n !in tvs[s];
    }
  }

  lemma TakeKeepsIndex(tvs: seq<seq<TimeNode>>, m: map<nat, TimeNode>, slot: nat)
    requires Indexed(tvs, m, {}) && slot < SLOTS
    ensures Indexed(tvs[slot := []], m, Ids(tvs[slot]))
    ensures Ids(tvs[slot]) == set id | id in m && m[id].list == slot
  {
    forall n | n in tvs[slot] ensures n.id in m && m[n.id] == n && n.list == slot {}
    forall id | id in m && m[id].list == slot ensures id in Ids(tvs[slot]) {
      assert m[id] in tvs[slot];
    }
    assert Distinct<TimeNode>([]);
  }

  lemma ForgetKeepsIndex(tvs: seq<seq<TimeNode>>, m: map<nat, TimeNode>, moved: set<nat>, id: nat)
    requires Indexed(tvs, m, moved) && id in moved
    ensures Indexed(tvs, m - {id}, moved - {id})
  {
  }

  /** `s` without its first `x`, as a list erases the node an iterator points to. */
  function Without<T(==)>(s: seq<T>, x: T): (r: seq<T>)
    ensures forall y :: y in r ==> y in s
    ensures forall y :: y in s && y != x ==> y in r
  {
    if s == [] then [] else if s[0] == x then s[1..] else [s[0]] + Without(s[1..], x)
  }

  lemma {:induction false} WithoutDistinct<T>(s: seq<T>, x: T)
    requires Distinct(s)
    ensures Distinct(Without(s, x)) && x !in Without(s, x)
  {
    if s != [] {
      WithoutDistinct(s[1..], x);
      if s[0] != x {
        assert s[0] !in s[1..];
      }
    }
  }

  lemma RemoveKeepsIndex(tvs: seq<seq<TimeNode>>, m: map<nat, TimeNode>, id: nat)
    requires Indexed(tvs, m, {}) && id in m
    ensures m[id].list < SLOTS
    ensures Indexed(tvs[m[id].list := Without(tvs[m[id].list], m[id])], m - {id}, {})
  {
    var slot := m[id].list;
    var tvs' := tvs[slot := Without(tvs[slot], m[id])];
    assert Distinct(tvs[slot]);
    WithoutDistinct(tvs[slot], m[id]);
    forall s: nat, n: TimeNode | s < SLOTS && n in tvs'[s]
      ensures n.id in m - {id} && m[n.id] == n && n.list == s
    {
      assert n in tvs[s];
    }
  }

  // ---- The abstract value ----

  /** The calls made for one id, in order. */
  ghost function CallsOf(log: seq<Firing>, id: nat): seq<Firing> {
    if log == [] then []
    else CallsOf(log[..|log| - 1], id) + if log[|log| - 1].id == id then [log[|log| - 1]] else []
  }

  ghost function TaskOf(n: TimeNode, c: int): Task {
    Task(Due(n.expire, c), n.interval, n.count)
  }

  ghost function TasksOf(m: map<nat, TimeNode>, c: int): map<nat, Task> {
    map id | id in m :: TaskOf(m[id], c)
  }

  ghost function FiredOf(log: seq<Firing>, nextId: nat): map<nat, seq<Firing>> {
    map id | 1 <= id < nextId :: CallsOf(log, id)
  }

  /** The index after the slots that drain at `c` on levels below `k` have been drained: their nodes moved to a
      strictly lower level with all else unchanged and expire in the window that starts at `c`; no other node
      moved. */
  ghost predicate Cascaded(m0: map<nat, TimeNode>, m: map<nat, TimeNode>, c: int, k: nat) {
    && m.Keys == m0.Keys
    && forall id :: id in m0 ==>
         if Drains(m0[id].list, c) && m0[id].list < Offset(k)
         then Relocated(m0[id], m[id], LevelOf(m0[id].list), c)
         else m[id] == m0[id]
  }

  ghost predicate Relocated(n: TimeNode, n': TimeNode, k: nat, c: int)
    requires k < LEVELS
  {
    && n' == n.(list := n'.list)
    && n'.list < Offset(k)
    && 0 <= n.expire - c < Scale(k)
    && Chosen(n'.list, n'.expire, c)
  }

  ghost predicate AllCleared(m: map<nat, TimeNode>, c: int, k: nat) {
    forall id :: id in m ==> m[id].list < SLOTS && Cleared(m[id].list, m[id].expire, c, k)
  }

  lemma CascadeKeepsTasks(m0: map<nat, TimeNode>, m: map<nat, TimeNode>, c: int)
    requires Cascaded(m0, m, c, LEVELS)
    ensures TasksOf(m, c) == TasksOf(m0, c)
  {
  }

  lemma NoDrains(slot: nat, c: int, k: nat)
    requires k < LEVELS && c % Scale(k) != 0 && Offset(k) <= slot < SLOTS
    ensures !Drains(slot, c)
  {
    if c % Scale(LevelOf(slot)) == 0 {
      WindowsNest(c, k, LevelOf(slot));
    }
  }

  /** The short-circuit: where level `k`'s window does not start, the levels from `k` on need no draining. */
  lemma ChainEnds(m0: map<nat, TimeNode>, m: map<nat, TimeNode>, c: int, k: nat)
    requires k < LEVELS && c % Scale(k) != 0
    requires AllPlaced(m, {}, c) && AllCleared(m, c, k) && Cascaded(m0, m, c, k)
    requires forall id :: id in m0 ==> m0[id].list < SLOTS
    ensures AllCleared(m, c, LEVELS) && Cascaded(m0, m, c, LEVELS)
  {
    forall id | id in m
      ensures Cleared(m[id].list, m[id].expire, c, LEVELS)
    {
      var slot := m[id].list;
      if Offset(k) <= slot {
        NoDrains(slot, c, k);
        if c % Scale(LevelOf(slot)) == 0 {
          WindowsNest(c, k, LevelOf(slot));
        }
        NoWindowStarts(slot, m[id].expire, c);
      }
    }
    forall id | id in m0 && Offset(k) <= m0[id].list
      ensures !Drains(m0[id].list, c)
    {
      NoDrains(m0[id].list, c, k);
    }
  }

  /** `temp` holds the nodes that list `slot` held. */
  ghost predicate Taken(temp: seq<TimeNode>, m: map<nat, TimeNode>, slot: nat) {
    Distinct(temp) && forall n :: n in temp ==> n.id in m && m[n.id] == n && n.list == slot
  }

  lemma TakenIds(temp: seq<TimeNode>, m: map<nat, TimeNode>, slot: nat, i: nat)
    requires i < |temp| && Taken(temp, m, slot)
    ensures temp[i].id in m && m[temp[i].id] == temp[i] && temp[i].list == slot
    ensures temp[i].id in Ids(temp[i..]) && Ids(temp[i..]) - {temp[i].id} == Ids(temp[i + 1..])
  {
    assert temp[i] in temp;
    assert temp[i..] == [temp[i]] + temp[i + 1..];
    forall n | n in temp[i + 1..] ensures n.id != temp[i].id {
      assert n in temp;
    }
  }

  /** Part of list `slot` of level `k` has been drained; the ids in `moved` are still to come. */
  ghost predicate Draining(m1: map<nat, TimeNode>, m: map<nat, TimeNode>, slot: nat, moved: set<nat>, k: nat, c: int)
    requires k < LEVELS
  {
    && m.Keys == m1.Keys
    && forall id :: id in m1 ==>
         if m1[id].list == slot && id !in moved then Relocated(m1[id], m[id], k, c) else m[id] == m1[id]
  }

  lemma NoIds()
    ensures Ids([]) == {}
  {
  }

  lemma StillThere(m1: map<nat, TimeNode>, m: map<nat, TimeNode>, slot: nat, moved: set<nat>, id: nat, k: nat, c: int)
    requires k < LEVELS && Draining(m1, m, slot, moved, k, c) && id in m1 && id in moved
    ensures id in m && m[id] == m1[id]
  {
  }

  lemma DrainOne(m1: map<nat, TimeNode>, m: map<nat, TimeNode>, slot: nat, moved: set<nat>, n: TimeNode, k: nat, c: int)
    requires k < LEVELS && Draining(m1, m, slot, moved, k, c)
    requires n.id in moved && n.id in m1 && m1[n.id].list == slot && Relocated(m1[n.id], n, k, c)
    ensures Draining(m1, m[n.id := n], slot, moved - {n.id}, k, c)
  {
  }

  /** The difference of two times, read as a `size_t`. */
  lemma WrapsToSizeT(d: int)
    requires -SIZE_T / 2 <= d < SIZE_T / 2
    ensures d % SIZE_T == if d < 0 then d + SIZE_T else d
  {
  }

  class TimeWheel {
    const tv: array<seq<TimeNode>>
    var idMap: map<nat, TimeNode>
    var current: int
    var nextId: nat
    /** The lock is held although no operation is under way. */
    var locked: bool
    /** The callbacks made so far. */
    var log: seq<Firing>

    ghost predicate Bounded()
      reads this, tv
    {
      && tv.Length == SLOTS
      && 0 <= current <= 0x2000_0000_0000_0000
      && 1 <= nextId
      && (forall id :: id in idMap ==> 1 <= id < nextId)
      && (forall i :: 0 <= i < |log| ==> 1 <= log[i].id < nextId)
    }

    ghost predicate Valid()
      reads this, tv
    {
      Bounded() && Indexed(tv[..], idMap, {}) && AllPlaced(idMap, {}, current)
    }

    ghost function Abs(): Flat
      reads this
    {
      Flat(current, nextId, TasksOf(idMap, current), FiredOf(log, nextId), locked)
    }

    constructor (now: ClockMs)
      ensures Valid() && fresh(tv) && !locked && Abs() == Timers.Start(now)
      ensures log == []
    {
      tv := new seq<TimeNode>[SLOTS](_ => []);
      idMap, current, nextId, locked, log := map[], now, 1, false, [];
    }

    /** Picks the list for `node`, and clamps its expiry. */
    method ChooseList(node: TimeNode) returns (n: TimeNode)
      requires 0 <= current
      requires -0x8000_0000_0000_0000 <= node.expire - current < 0x8000_0000_0000_0000
      ensures n == node.(expire := n.expire, list := n.list)
      ensures Due(n.expire, current) == DueTick(node.expire, current)
      ensures node.expire - current <= MAX_TICKS ==> n.expire == node.expire
      ensures Chosen(n.list, n.expire, current)
    {
      n := node;
      var idx := (n.expire - current) % SIZE_T;
      WrapsToSizeT(n.expire - current);
      if idx < 0x100 {
        NearBranch(n.expire, current);
        idx := n.expire % NEAR;
      } else if idx < 0x4000 {
        LevelBranch(0, n.expire, current);
        idx := Offset(0) + Index(n.expire, 0);
      } else if idx < 0x10_0000 {
        LevelBranch(1, n.expire, current);
        idx := Offset(1) + Index(n.expire, 1);
      } else if idx < 0x400_0000 {
        LevelBranch(2, n.expire, current);
        idx := Offset(2) + Index(n.expire, 2);
      } else if idx >= SIZE_T / 2 {
        NearBranch(n.expire, current);
        idx := current % NEAR;
      } else {
        if idx > MAX_TICKS {
          idx := MAX_TICKS;
          n := n.(expire := idx + current);
        }
        LevelBranch(3, n.expire, current);
        idx := Offset(3) + Index(n.expire, 3);
      }
      n := n.(list := idx);
    }

    /** Inserts a copy of `node`, which is new or has been moved out of its list. */
    method AddNode(node: TimeNode, ghost moved: set<nat>) returns (ghost n: TimeNode)
      requires Bounded() && Indexed(tv[..], idMap, moved) && 1 <= node.id < nextId
      requires node.id in idMap ==> node.id in moved
      requires -0x8000_0000_0000_0000 <= node.expire - current < 0x8000_0000_0000_0000
      modifies this`idMap, tv
      ensures Bounded() && Indexed(tv[..], idMap, moved - {node.id})
      ensures idMap == old(idMap)[node.id := n]
      ensures n == node.(expire := n.expire, list := n.list)
      ensures tv[..] == old(tv[..])[n.list := old(tv[..])[n.list] + [n]]
      ensures Due(n.expire, current) == DueTick(node.expire, current)
      ensures node.expire - current <= MAX_TICKS ==> n.expire == node.expire
      ensures Chosen(n.list, n.expire, current)
    {
      var placed := ChooseList(node);
      n := placed;
      AppendKeepsIndex(tv[..], idMap, moved, n);
      tv[placed.list] := tv[placed.list] + [placed];
      idMap := idMap[placed.id := placed];
      assert tv[..] == old(tv[..])[n.list := old(tv[..])[n.list] + [n]];
    }

    method AddTask(now: ClockMs, expire: SpanMs, count: uint32, immediate: bool, delay: SpanMs) returns (id: nat)
      requires Valid() && !locked
      modifies this, tv
      ensures Valid() && !locked && id == old(nextId) && nextId == id + 1
      ensures id in idMap && idMap == old(idMap)[id := idMap[id]] && idMap[id].count == count
      ensures Abs() == Timers.AddTask(old(Abs()), now, expire, count, immediate, delay)
      ensures idMap[id].interval == expire && log == old(log)
      ensures var at := now + if immediate then delay else expire + delay;
        Due(idMap[id].expire, current)
        == if at < current then current else if at > current + 0xFFFF_FFFF then current + 0xFFFF_FFFF else at
    {
      hide Indexed, AllPlaced, Placed, TasksOf, FiredOf;
      id := nextId;
      nextId := nextId + 1;
      var e := now + if immediate then delay else expire + delay;
      ghost var n := AddNode(TimeNode(id, e, expire, count, 0), {});
      InsertTask(old(idMap), n, current);
      IssueId(log, id);
      PlacedInsert(old(idMap), {}, n, current);
      assert {} - {id} == {};
    }

    method EraseTask(id: nat) returns (found: bool)
      requires Valid() && !locked
      modifies this, tv
      ensures Valid() && log == old(log) && nextId == old(nextId) && idMap == old(idMap) - {Key(id)}
      ensures Abs() == Timers.EraseTask(old(Abs()), id)
      ensures found == (Key(id) in old(idMap)) == !locked
    {
      hide Indexed, AllPlaced, TasksOf, FiredOf;
      SameKeys(idMap, current);
      var key := id % 0x1_0000_0000;
      locked := true;
      if key !in idMap {
        return false;
      }
      var n := idMap[key];
      RemoveKeepsIndex(tv[..], idMap, key);
      RemoveTask(idMap, key, current);
      PlacedForget(idMap, {}, key, current);
      assert {} - {key} == {};
      tv[n.list] := Without(tv[n.list], n);
      assert tv[..] == old(tv[..])[n.list := Without(old(tv[..])[n.list], n)];
      idMap := idMap - {key};
      locked := false;
      return true;
    }

    /** Drains one list of level `k` and reports whether its number is not zero. */
    method Cascade(offset: nat, idx: nat, ghost k: nat, ghost m0: map<nat, TimeNode>) returns (more: bool)
      requires Valid() && k < LEVELS && offset == Offset(k) && idx == Index(current, k) && current % Scale(k) == 0
      requires AllCleared(idMap, current, k) && Cascaded(m0, idMap, current, k)
      modifies this`idMap, tv
      ensures Valid() && AllCleared(idMap, current, k + 1) && Cascaded(m0, idMap, current, k + 1)
      ensures more == (idx != 0)
    {
      hide Cascaded, AllCleared, AllPlaced, Draining, Placed, Cleared, Indexed, Taken, Ids;
      var slot := offset + idx;
      ghost var m1 := idMap;
      var temp := TakeList(slot);
      DrainedNodes(temp, m1, slot, k, current);
      ghost var moved := Ids(temp);
      assert temp[0..] == temp;
      for i := 0 to |temp|
        invariant Bounded() && moved == Ids(temp[i..]) && Indexed(tv[..], idMap, moved)
        invariant Draining(m1, idMap, slot, moved, k, current)
      {
        TakenIds(temp, m1, slot, i);
        StillThere(m1, idMap, slot, moved, temp[i].id, k, current);
        ghost var m := idMap;
        assert temp[i] in temp;
        ghost var n := AddNode(temp[i], moved);
        assert Relocated(m1[n.id], n, k, current);
        DrainOne(m1, m, slot, moved, n, k, current);
        moved := moved - {n.id};
      }
      assert moved == {} by {
        assert temp[|temp|..] == [];
        NoIds();
      }
      CascadeStep(m0, m1, idMap, current, k);
      more := idx != 0;
    }

    /** The short-circuit chain that runs before the near slot of tick `current` is served. */
    method CascadeChain()
      requires Valid()
      modifies this`idMap, tv
      ensures Valid() && AllCleared(idMap, current, LEVELS) && Cascaded(old(idMap), idMap, current, LEVELS)
    {
      hide Indexed, AllPlaced, Placed, Cleared, Cascaded, AllCleared;
      ghost var m0 := idMap;
      StartChain(m0, current);
      if current % NEAR == 0 {
        var more := Cascade(Offset(0), Index(current, 0), 0, m0);
        ChainCondition(current, 0);
        if !more {
          more := Cascade(Offset(1), Index(current, 1), 1, m0);
          ChainCondition(current, 1);
          if !more {
            more := Cascade(Offset(2), Index(current, 2), 2, m0);
            ChainCondition(current, 2);
            if !more {
              more := Cascade(Offset(3), Index(current, 3), 3, m0);
            } else {
              ChainEnds(m0, idMap, current, 3);
            }
          } else {
            ChainEnds(m0, idMap, current, 2);
          }
        } else {
          ChainEnds(m0, idMap, current, 1);
        }
      } else {
        ChainEnds(m0, idMap, current, 0);
      }
    }

    /** One round of the loop of `Check`: drains the level slots whose window starts now, advances the clock, moves
        the near slot out and serves its nodes. */
    method Tick(now: ClockMs)
      requires Valid() && !locked && current <= now
      modifies this, tv
      ensures Valid() && !locked && nextId == old(nextId) && old(log) <= log
      ensures Abs() == Timers.Tick(old(Abs()), now)
    {
      hide Indexed, AllPlaced, Taken, Ids, Served, Logged, Cascaded, AllCleared, TasksOf, FiredOf;
      var idx := current % NEAR;
      CascadeChain();
      CascadeKeepsTasks(old(idMap), idMap, current);
      ghost var m1, c, log1 := idMap, current, log;
      current := current + 1;
      var temp := TakeList(idx);
      AdvanceAll(m1, temp, c);
      Serve(temp, now);
      TickDone(m1, idMap, Ids(temp), c, now);
      FiredDone(m1, log1, log, Ids(temp), c, nextId);
      TickAgrees(TasksOf(m1, c), FiredOf(log1, nextId), TasksOf(idMap, c + 1), FiredOf(log, nextId), c, nextId, now);
    }

    /** Re-arms a moved-out node if it has rounds left, and drops it otherwise. */
    method ServeNode(node: TimeNode, now: ClockMs, ghost moved: set<nat>) returns (isDone: bool)
      requires Bounded() && Indexed(tv[..], idMap, moved) && AllPlaced(idMap, moved, current) && current - 1 <= now
      requires node.id in moved && node.id in idMap && idMap[node.id] == node
      modifies this`idMap, tv
      ensures Bounded() && Indexed(tv[..], idMap, moved - {node.id}) && AllPlaced(idMap, moved - {node.id}, current)
      ensures isDone == LastRound(node.count)
      ensures isDone ==> idMap == old(idMap) - {node.id}
      ensures !isDone ==>
        && node.id in idMap && idMap == old(idMap)[node.id := idMap[node.id]] && idMap[node.id].id == node.id
        && TaskOf(idMap[node.id], current) == Rearmed(TaskOf(node, current - 1), current - 1, now)
      ensures isDone <==> node.count == 1
      ensures !isDone ==> idMap[node.id].interval == node.interval
      ensures !isDone ==> var at := now + node.interval;
        Due(idMap[node.id].expire, current)
        == if at < current then current else if at > current + 0xFFFF_FFFF then current + 0xFFFF_FFFF else at
    {
      hide Indexed, AllPlaced, Placed, Chosen;
      var v := node;
      isDone := true;
      if v.count != FULL_CIRCLE {
        v := v.(count := Decrement(v.count));
      }
      if v.count != 0 {
        v := v.(expire := now + v.interval);
        isDone := false;
        ghost var n := AddNode(v, moved);
        PlacedInsert(old(idMap), moved, n, current);
      } else {
        ForgetKeepsIndex(tv[..], idMap, moved, v.id);
        PlacedForget(idMap, moved, v.id, current);
        idMap := idMap - {v.id};
      }
    }

    /** Re-arms every moved-out node that has rounds left, drops the others, and calls each callback once. */
    method Serve(temp: seq<TimeNode>, now: ClockMs)
      requires Bounded() && Indexed(tv[..], idMap, Ids(temp)) && AllPlaced(idMap, Ids(temp), current)
      requires Taken(temp, idMap, (current - 1) % NEAR) && current - 1 <= now
      modifies this`idMap, this`log, tv
      ensures Valid() && old(log) <= log
      ensures Served(old(idMap), idMap, {}, Ids(temp), current - 1, now)
      ensures Logged(old(idMap), old(log), log, Ids(temp), current - 1, nextId)
    {
      hide Indexed, AllPlaced, Placed, Taken, Ids, Served, Logged, CallsOf, Chosen;
      ghost var m0, moved, all, done := idMap, Ids(temp), Ids(temp), {};
      assert temp[0..] == temp;
      ServedNone(m0, all, current - 1, now);
      LoggedNone(m0, log, current - 1, nextId);
      for i := 0 to |temp|
        invariant Bounded() && moved == Ids(temp[i..]) && Indexed(tv[..], idMap, moved)
            && AllPlaced(idMap, moved, current)
        invariant done + moved == all && done !! moved && old(log) <= log
        invariant Served(m0, idMap, moved, all, current - 1, now)
        invariant Logged(m0, old(log), log, done, current - 1, nextId)
      {
        var v := temp[i];
        TakenIds(temp, m0, (current - 1) % NEAR, i);
        Unserved(m0, idMap, moved, all, v.id, current - 1, now);
        ghost var m := idMap;
        var isDone := ServeNode(v, now, moved);
        if isDone {
          ServedDrop(m0, m, moved, all, v.id, current - 1, now);
        } else {
          ServedRearm(m0, m, moved, all, idMap[v.id], current - 1, now);
        }
        LoggedNext(m0, old(log), log, done, v.id, current - 1, nextId);
        log := log + [Firing(v.id, current - 1, isDone)];
        moved, done := moved - {v.id}, done + {v.id};
      }
      assert temp[|temp|..] == [];
      NoIds();
    }

    /** Serves every tick up to and including the clock reading `now`. */
    method Check(now: ClockMs)
      requires Valid() && !locked
      modifies this, tv
      ensures Valid() && !locked && nextId == old(nextId) && old(log) <= log
      ensures Abs() == Timers.CheckTicks(old(Abs()), now)
    {
      hide Indexed, AllPlaced, TasksOf, FiredOf;
      while current <= now
        invariant Valid() && !locked && nextId == old(nextId) && old(log) <= log
        invariant Timers.CheckTicks(Abs(), now) == Timers.CheckTicks(old(Abs()), now)
        decreases now + 1 - current
      {
        Tick(now);
      }
    }

    /** Moves list `slot` out. */
    method TakeList(slot: nat) returns (temp: seq<TimeNode>)
      requires Bounded() && Indexed(tv[..], idMap, {}) && slot < SLOTS
      modifies tv
      ensures Bounded() && Indexed(tv[..], idMap, Ids(temp)) && Taken(temp, idMap, slot)
      ensures Ids(temp) == set id | id in idMap && idMap[id].list == slot
    {
      temp := tv[slot];
      assert Distinct(tv[..][slot]) && forall n :: n in tv[..][slot] ==>
        n.id in idMap && idMap[n.id] == n && n.list == slot;
      TakeKeepsIndex(tv[..], idMap, slot);
      tv[slot] := [];
      assert tv[..] == old(tv[..])[slot := []];
    }
  }

  lemma DrainedNodes(temp: seq<TimeNode>, m: map<nat, TimeNode>, slot: nat, k: nat, c: int)
    requires k < LEVELS && c % Scale(k) == 0 && slot == Offset(k) + Index(c, k)
    requires AllPlaced(m, {}, c) && Taken(temp, m, slot)
    requires Ids(temp) == set id | id in m && m[id].list == slot
    ensures Draining(m, m, slot, Ids(temp), k, c)
    ensures forall n :: n in temp ==> 0 <= n.expire - c < Scale(k)
  {
    assert LevelOf(slot) == k;
    forall n | n in temp ensures 0 <= n.expire - c < Scale(k) {
      assert n.id in m;
      DrainedWindow(slot, n.expire, c);
    }
  }

  lemma ClearedNext(slot: nat, e: int, c: int, k: nat)
    requires k < LEVELS && c % Scale(k) == 0 && slot != Offset(k) + Index(c, k)
    requires slot < SLOTS && Placed(slot, e, c) && Cleared(slot, e, c, k)
    ensures Cleared(slot, e, c, k + 1)
  {
    if Offset(k) <= slot < Offset(k + 1) {
      KeptOutsideWindow(slot, e, c);
    }
  }

  lemma CascadeStep(m0: map<nat, TimeNode>, m1: map<nat, TimeNode>, m: map<nat, TimeNode>, c: int, k: nat)
    requires k < LEVELS && c % Scale(k) == 0
    requires AllPlaced(m1, {}, c) && AllCleared(m1, c, k) && Cascaded(m0, m1, c, k)
    requires Draining(m1, m, Offset(k) + Index(c, k), {}, k, c)
    ensures AllPlaced(m, {}, c) && AllCleared(m, c, k + 1) && Cascaded(m0, m, c, k + 1)
  {
    forall id | id in m
      ensures Placed(m[id].list, m[id].expire, c)
      ensures m[id].list < SLOTS && Cleared(m[id].list, m[id].expire, c, k + 1)
    {
      hide Placed, Cleared;
      if m1[id].list == Offset(k) + Index(c, k) {
        ChosenIsCleared(m[id].list, m[id].expire, c, k + 1);
      } else {
        ClearedNext(m1[id].list, m1[id].expire, c, k);
      }
    }
    CascadedNext(m0, m1, m, c, k);
  }

  lemma ChosenIsCleared(slot: nat, e: int, c: int, k: nat)
    requires Chosen(slot, e, c) && k <= LEVELS
    ensures Cleared(slot, e, c, k)
  {
  }

  lemma CascadedNext(m0: map<nat, TimeNode>, m1: map<nat, TimeNode>, m: map<nat, TimeNode>, c: int, k: nat)
    requires k < LEVELS && c % Scale(k) == 0 && Cascaded(m0, m1, c, k)
    requires Draining(m1, m, Offset(k) + Index(c, k), {}, k, c)
    ensures Cascaded(m0, m, c, k + 1)
  {
    forall id | id in m0
      ensures if Drains(m0[id].list, c) && m0[id].list < Offset(k + 1)
              then Relocated(m0[id], m[id], LevelOf(m0[id].list), c)
              else m[id] == m0[id]
    {
      hide Placed, Cleared, Chosen, Cascaded, Draining, Relocated;
      CascadedNode(m0, m1, m, c, k, id);
    }
  }

  lemma CascadedNode(
    m0: map<nat, TimeNode>, m1: map<nat, TimeNode>, m: map<nat, TimeNode>, c: int, k: nat, id: nat)
    requires k < LEVELS && c % Scale(k) == 0 && Cascaded(m0, m1, c, k) && id in m0
    requires Draining(m1, m, Offset(k) + Index(c, k), {}, k, c)
    ensures id in m
    ensures if Drains(m0[id].list, c) && m0[id].list < Offset(k + 1)
            then Relocated(m0[id], m[id], LevelOf(m0[id].list), c)
            else m[id] == m0[id]
  {
    hide Placed, Cleared, Chosen;
  }

  lemma StartChain(m: map<nat, TimeNode>, c: int)
    requires AllPlaced(m, {}, c)
    ensures AllCleared(m, c, 0) && Cascaded(m, m, c, 0)
    ensures forall id :: id in m ==> m[id].list < SLOTS
  {
    hide Cleared, Relocated;
    forall id | id in m ensures m[id].list < SLOTS && Cleared(m[id].list, m[id].expire, c, 0) {
      assert Placed(m[id].list, m[id].expire, c);
      LowestCleared(m[id].list, m[id].expire, c);
    }
  }

  lemma LowestCleared(slot: nat, e: int, c: int)
    requires slot < SLOTS
    ensures Cleared(slot, e, c, 0)
  {
  }

  /** Advancing the clock: the nodes in the near slot are the ones due, all others stay well placed. */
  lemma AdvanceAll(m: map<nat, TimeNode>, temp: seq<TimeNode>, c: int)
    requires AllPlaced(m, {}, c) && AllCleared(m, c, LEVELS)
    requires Ids(temp) == set id | id in m && m[id].list == c % NEAR
    ensures AllPlaced(m, Ids(temp), c + 1)
    ensures forall id :: id in m ==> (id in Ids(temp) <==> Due(m[id].expire, c) == c)
    ensures forall id :: id in m && id !in Ids(temp) ==> Due(m[id].expire, c) == Due(m[id].expire, c + 1)
  {
    hide Placed, Cleared, Ids;
    forall id | id in m
      ensures id in Ids(temp) <==> Due(m[id].expire, c) == c
      ensures id !in Ids(temp) ==>
                Placed(m[id].list, m[id].expire, c + 1) && Due(m[id].expire, c) == Due(m[id].expire, c + 1)
    {
      Advance(m[id].list, m[id].expire, c);
    }
  }

  // ---- Serving the nodes of one tick ----

  /** The index after the nodes of `all - moved` were served at tick `c` in a check that read `now`. */
  ghost predicate Served(
    m0: map<nat, TimeNode>, m: map<nat, TimeNode>, moved: set<nat>, all: set<nat>, c: int, now: int)
  {
    && m.Keys <= m0.Keys
    && forall id :: id in m0 ==>
         if id in all && id !in moved then
           if LastRound(m0[id].count) then id !in m
           else id in m && TaskOf(m[id], c + 1) == Rearmed(TaskOf(m0[id], c), c, now)
         else id in m && m[id] == m0[id]
  }

  lemma ServedNone(m: map<nat, TimeNode>, all: set<nat>, c: int, now: int)
    ensures Served(m, m, all, all, c, now)
  {
  }

  lemma Unserved(
    m0: map<nat, TimeNode>, m: map<nat, TimeNode>, moved: set<nat>, all: set<nat>, id: nat, c: int, now: int)
    requires Served(m0, m, moved, all, c, now) && id in moved && id in m0
    ensures id in m && m[id] == m0[id]
  {
  }

  lemma ServedRearm(
    m0: map<nat, TimeNode>, m: map<nat, TimeNode>, moved: set<nat>, all: set<nat>, n: TimeNode, c: int, now: int)
    requires Served(m0, m, moved, all, c, now) && n.id in moved && moved <= all && n.id in m0
        && !LastRound(m0[n.id].count)
    requires TaskOf(n, c + 1) == Rearmed(TaskOf(m0[n.id], c), c, now)
    ensures Served(m0, m[n.id := n], moved - {n.id}, all, c, now)
  {
  }

  lemma ServedDrop(
    m0: map<nat, TimeNode>, m: map<nat, TimeNode>, moved: set<nat>, all: set<nat>, id: nat, c: int, now: int)
    requires Served(m0, m, moved, all, c, now) && id in moved && moved <= all && id in m0 && LastRound(m0[id].count)
    ensures Served(m0, m - {id}, moved - {id}, all, c, now)
  {
  }

  lemma PlacedForget(m: map<nat, TimeNode>, moved: set<nat>, id: nat, c: int)
    requires AllPlaced(m, moved, c)
    ensures AllPlaced(m - {id}, moved - {id}, c)
  {
  }

  /** The log after one callback at tick `c` for each id in `done`. */
  ghost predicate Logged(
    m0: map<nat, TimeNode>, log0: seq<Firing>, log: seq<Firing>, done: set<nat>, c: int, nextId: nat)
  {
    && (forall id :: id in done ==> id in m0)
    && forall id :: 1 <= id < nextId ==>
         CallsOf(log, id) ==
           if id in done then CallsOf(log0, id) + [Firing(id, c, LastRound(m0[id].count))] else CallsOf(log0, id)
  }

  lemma LoggedNone(m0: map<nat, TimeNode>, log: seq<Firing>, c: int, nextId: nat)
    ensures Logged(m0, log, log, {}, c, nextId)
  {
  }

  lemma LoggedNext(
    m0: map<nat, TimeNode>, log0: seq<Firing>, log: seq<Firing>, done: set<nat>, id: nat, c: int, nextId: nat)
    requires Logged(m0, log0, log, done, c, nextId) && id in m0 && id !in done
    ensures Logged(m0, log0, log + [Firing(id, c, LastRound(m0[id].count))], done + {id}, c, nextId)
  {
    var f := Firing(id, c, LastRound(m0[id].count));
    assert (log + [f])[..|log|] == log;
  }

  lemma TickDone(m0: map<nat, TimeNode>, m: map<nat, TimeNode>, all: set<nat>, c: int, now: int)
    requires Served(m0, m, {}, all, c, now) && all <= m0.Keys
    requires forall id :: id in m0 ==> (id in all <==> Due(m0[id].expire, c) == c)
    requires forall id :: id in m0 && id !in all ==> Due(m0[id].expire, c) == Due(m0[id].expire, c + 1)
    ensures TasksOf(m, c + 1)
         == map id | id in TasksOf(m0, c) && !(TasksOf(m0, c)[id].due == c && LastRound(TasksOf(m0, c)[id].count)) ::
              if TasksOf(m0, c)[id].due == c then Rearmed(TasksOf(m0, c)[id], c, now) else TasksOf(m0, c)[id]
  {
  }

  lemma FiredDone(m0: map<nat, TimeNode>, log0: seq<Firing>, log: seq<Firing>, all: set<nat>, c: int, nextId: nat)
    requires Logged(m0, log0, log, all, c, nextId)
    requires forall id :: id in m0 ==> (id in all <==> Due(m0[id].expire, c) == c)
    ensures FiredOf(log, nextId)
         == map id | id in FiredOf(log0, nextId) ::
              if id in TasksOf(m0, c) && TasksOf(m0, c)[id].due == c
              then FiredOf(log0, nextId)[id] + [Firing(id, c, LastRound(TasksOf(m0, c)[id].count))]
              else FiredOf(log0, nextId)[id]
  {
  }

  lemma TickAgrees(
    tasks: map<nat, Task>, fired: map<nat, seq<Firing>>, tasks': map<nat, Task>, fired': map<nat, seq<Firing>>,
    c: int, nextId: nat, now: int)
    requires tasks' == map id | id in tasks && !(tasks[id].due == c && LastRound(tasks[id].count)) ::
      if tasks[id].due == c then Rearmed(tasks[id], c, now) else tasks[id]
    requires fired' == map id | id in fired ::
      if id in tasks && tasks[id].due == c then fired[id] + [Firing(id, c, LastRound(tasks[id].count))] else fired[id]
    ensures Flat(c + 1, nextId, tasks', fired', false) == Timers.Tick(Flat(c, nextId, tasks, fired, false), now)
  {
  }

  lemma PlacedInsert(m: map<nat, TimeNode>, moved: set<nat>, n: TimeNode, c: int)
    requires AllPlaced(m, moved, c) && Chosen(n.list, n.expire, c)
    ensures AllPlaced(m[n.id := n], moved - {n.id}, c)
  {
  }

  lemma InsertTask(m: map<nat, TimeNode>, n: TimeNode, c: int)
    ensures TasksOf(m[n.id := n], c) == TasksOf(m, c)[n.id := TaskOf(n, c)]
  {
  }

  lemma SameKeys(m: map<nat, TimeNode>, c: int)
    ensures TasksOf(m, c).Keys == m.Keys
  {
  }

  lemma RemoveTask(m: map<nat, TimeNode>, id: nat, c: int)
    ensures TasksOf(m - {id}, c) == TasksOf(m, c) - {id}
  {
  }

  lemma IssueId(log: seq<Firing>, id: nat)
    requires 1 <= id && forall i :: 0 <= i < |log| ==> log[i].id != id
    ensures FiredOf(log, id + 1) == FiredOf(log, id)[id := []]
  {
    NoCalls(log, id);
  }

  lemma {:induction false} NoCalls(log: seq<Firing>, id: nat)
    requires forall i :: 0 <= i < |log| ==> log[i].id != id
    ensures CallsOf(log, id) == []
  {
    if log != [] {
      NoCalls(log[..|log| - 1], id);
    }
  }
}
