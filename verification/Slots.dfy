/** Slot arithmetic of the hierarchical timing wheel.

The wheel has 256 near slots of one tick each, followed by four levels of 64 slots. A slot of
level `k` covers `Scale(k)` ticks. Everything here is about one expiry `e`, one slot and the tick
`c` that the wheel processes next.
*/
module Slots {
  const NEAR: nat := 256
  const LEVELS: nat := 4
  const LEVEL_SLOTS: nat := 64
  const SLOTS: nat := 512

  /** The ticks covered by one slot of level `k`: two to the power `8 + 6 * k`. */
  function Scale(k: nat): (s: int)
    requires k < LEVELS
    ensures s > 0
  {
    if k == 0 then 0x100 else if k == 1 then 0x4000 else if k == 2 then 0x10_0000 else 0x400_0000
  }

  function Offset(k: nat): nat {
    NEAR + k * LEVEL_SLOTS
  }

  function Index(v: int, k: nat): (i: nat)
    requires k < LEVELS
    ensures i < LEVEL_SLOTS
  {
    v / Scale(k) % LEVEL_SLOTS
  }

  function LevelOf(slot: nat): (k: nat)
    requires NEAR <= slot < SLOTS
    ensures k < LEVELS && Offset(k) <= slot < Offset(k + 1)
  {
    (slot - NEAR) / LEVEL_SLOTS
  }

  /** The tick at which a stored expiry is served: an expiry already past is served next. */
  function Due(e: int, c: int): int {
    if e < c then c else e
  }

  /** Where a node may sit while `c` is the next tick to process. */
  ghost predicate Placed(slot: nat, e: int, c: int) {
    if slot < NEAR then
      (0 <= e - c < NEAR && slot == e % NEAR) || (e < c && slot == c % NEAR)
    else
      slot < SLOTS &&
      var k := LevelOf(slot);
      slot == Offset(k) + Index(e, k) && 1 <= e / Scale(k) - (c - 1) / Scale(k) <= LEVEL_SLOTS
  }

  /** No node of a level below `k` expires in the level's window that holds tick `c`. */
  ghost predicate Cleared(slot: nat, e: int, c: int, k: nat)
    requires slot < SLOTS
  {
    NEAR <= slot < Offset(k) ==> 1 <= e / Scale(LevelOf(slot)) - c / Scale(LevelOf(slot))
  }

  /** The slots that are drained before tick `c`: level `k`'s current slot, whenever all bits of
      `c` below the level's shift are zero. */
  ghost predicate Drains(slot: nat, c: int) {
    NEAR <= slot < SLOTS &&
    var k := LevelOf(slot);
    c % Scale(k) == 0 && slot == Offset(k) + Index(c, k)
  }

  /** What node insertion at clock `c` promises of the slot it picks for expiry `e`: a good place, outside the
      window of its level that holds `c`, and below every level whose slots cover more than `e - c` ticks. */
  ghost predicate Chosen(slot: nat, e: int, c: int) {
    && slot < SLOTS && Placed(slot, e, c) && Cleared(slot, e, c, LEVELS)
    && forall k: nat :: k < LEVELS && e - c < Scale(k) ==> slot < Offset(k)
  }

  lemma LevelBranch(k: nat, e: int, c: int)
    requires k < LEVELS
    requires Scale(k) <= e - c < if k < 3 then Scale(k + 1) else 0x1_0000_0000
    ensures Chosen(Offset(k) + Index(e, k), e, c)
  {
    if k == 0 {} else if k == 1 {} else if k == 2 {} else {}
  }

  lemma NearBranch(e: int, c: int)
    requires e - c < NEAR
    ensures Chosen(if c <= e then e % NEAR else c % NEAR, e, c)
  {
  }

  lemma SameSlot(a: int, b: int)
    requires 0 <= a - b < 64 && a % 64 == b % 64
    ensures a == b
  {
  }

  lemma WindowBefore(c: int, k: nat)
    requires k < LEVELS && c % Scale(k) == 0
    ensures (c - 1) / Scale(k) == c / Scale(k) - 1 && c == Scale(k) * (c / Scale(k))
  {
    if k == 0 {} else if k == 1 {} else if k == 2 {} else {}
  }

  lemma InWindow(e: int, c: int, k: nat)
    requires k < LEVELS && c == Scale(k) * (c / Scale(k)) && e / Scale(k) == c / Scale(k)
    ensures 0 <= e - c < Scale(k)
  {
    if k == 0 {} else if k == 1 {} else if k == 2 {} else {}
  }

  /** A node in a draining slot expires inside the window that starts at `c`. */
  lemma DrainedWindow(slot: nat, e: int, c: int)
    requires Drains(slot, c) && Placed(slot, e, c)
    ensures 0 <= e - c < Scale(LevelOf(slot))
  {
    var k := LevelOf(slot);
    WindowBefore(c, k);
    SameSlot(e / Scale(k), c / Scale(k));
    InWindow(e, c, k);
  }

  /** A node of a draining level outside the drained slot is outside the window. */
  lemma KeptOutsideWindow(slot: nat, e: int, c: int)
    requires NEAR <= slot && Placed(slot, e, c) && !Drains(slot, c)
    requires c % Scale(LevelOf(slot)) == 0
    ensures 1 <= e / Scale(LevelOf(slot)) - c / Scale(LevelOf(slot))
  {
    WindowBefore(c, LevelOf(slot));
  }

  /** A level whose window does not start at `c` needs no draining. */
  lemma NoWindowStarts(slot: nat, e: int, c: int)
    requires NEAR <= slot && Placed(slot, e, c) && c % Scale(LevelOf(slot)) != 0
    ensures 1 <= e / Scale(LevelOf(slot)) - c / Scale(LevelOf(slot))
  {
    var k := LevelOf(slot);
    if k == 0 {} else if k == 1 {} else if k == 2 {} else {}
  }

  /** The chain goes on to level `k + 1` exactly when that level's window starts too. */
  lemma ChainCondition(c: int, k: nat)
    requires k + 1 < LEVELS && c % Scale(k) == 0
    ensures Index(c, k) == 0 <==> c % Scale(k + 1) == 0
  {
    var q := c / Scale(k);
    var r, j := q / 0x40, q % 0x40;
    assert c == q * Scale(k);
    if k == 0 {
      Remainder(c, 0x4000, r, 0x100 * j);
    } else if k == 1 {
      Remainder(c, 0x10_0000, r, 0x4000 * j);
    } else {
      Remainder(c, 0x400_0000, r, 0x10_0000 * j);
    }
  }

  lemma Remainder(c: int, s: int, r: int, j: int)
    requires s == 0x4000 || s == 0x10_0000 || s == 0x400_0000
    requires c == s * r + j && 0 <= j < s
    ensures c % s == j
  {
  }

  lemma Multiple(q: int, s: int)
    requires s == 0x100 || s == 0x4000 || s == 0x10_0000
    ensures q * s % s == 0
  {
  }

  /** Where a level's window starts, the windows of all lower levels start too. */
  lemma WindowsNest(c: int, j: nat, k: nat)
    requires j <= k < LEVELS && c % Scale(k) == 0
    ensures c % Scale(j) == 0
  {
    var q := c / Scale(k);
    if k == 0 {
    } else if k == 1 {
      Multiple(0x40 * q, 0x100);
    } else if k == 2 {
      Multiple(0x1000 * q, 0x100);
      Multiple(0x40 * q, 0x4000);
    } else {
      Multiple(0x4_0000 * q, 0x100);
      Multiple(0x1000 * q, 0x4000);
      Multiple(0x40 * q, 0x10_0000);
    }
  }

  /** After draining, advancing the clock leaves every node well placed except exactly those that
      are due now, and those are exactly the ones in the near slot of `c`. */
  lemma Advance(slot: nat, e: int, c: int)
    requires Placed(slot, e, c) && slot < SLOTS && Cleared(slot, e, c, LEVELS)
    ensures slot == c % NEAR <==> Due(e, c) == c
    ensures slot != c % NEAR ==> Placed(slot, e, c + 1) && Due(e, c) == Due(e, c + 1)
  {
    if NEAR <= slot {
      var k := LevelOf(slot);
      if k == 0 {} else if k == 1 {} else if k == 2 {} else {}
    }
  }
}
