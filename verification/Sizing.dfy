/** Table sizing: how many slots a table gets and when it is rebuilt.
  *
  * Slot counts are powers of two. The load factor is a real in [0.50, 0.90]; the source computes
  * with it in floating point, here it is exact.
  */
module Sizing {

  function Max(a: int, b: int): int { if a > b then a else b }

  // ---------------------------------------------------------------- powers of two

  /** bits.Len: the number of bits of x. */
  function BitsLen(x: nat): nat {
    if x == 0 then 0 else 1 + BitsLen(x / 2)
  }

  function ShiftLeft(k: nat): (p: nat)
    ensures p > 0
  {
    if k == 0 then 1 else 2 * ShiftLeft(k - 1)
  }

  ghost predicate IsPowerOfTwo(n: nat) {
    exists k: nat :: n == ShiftLeft(k)
  }

  function NextPowerOfTwo(value: int): nat {
    if value <= 1 then 1 else ShiftLeft(BitsLen(value - 1))
  }

  lemma {:induction false} BitsLenBounds(x: nat)
    ensures x < ShiftLeft(BitsLen(x))
    ensures x > 0 ==> ShiftLeft(BitsLen(x)) <= 2 * x
  {
    if x > 0 {
      BitsLenBounds(x / 2);
    }
  }

  /** The least power of two that is at least the value. */
  lemma NextPowerOfTwoIsLeast(value: int)
    ensures var p := NextPowerOfTwo(value);
      IsPowerOfTwo(p) && value <= p && (forall k: nat :: value <= ShiftLeft(k) ==> p <= ShiftLeft(k))
    ensures value > 1 ==> NextPowerOfTwo(value) <= 2 * (value - 1)
  {
    var p := NextPowerOfTwo(value);
    assert ShiftLeft(0) == 1;
    if value > 1 { BitsLenBounds(value - 1); }
    forall k: nat | value <= ShiftLeft(k) ensures p <= ShiftLeft(k) {
      if value > 1 && ShiftLeft(k) < p {
        PowersAreSpread(k, BitsLen(value - 1));
      }
    }
  }

  /** Between different powers of two lies a factor of two. */
  lemma {:induction false} PowersAreSpread(j: nat, k: nat)
    requires ShiftLeft(j) < ShiftLeft(k)
    ensures 2 * ShiftLeft(j) <= ShiftLeft(k)
  {
    if j == 0 || k == 0 {
      if k == 0 { ShiftLeftPositive(j); }
    } else {
      PowersAreSpread(j - 1, k - 1);
    }
  }

  lemma ShiftLeftPositive(j: nat)
    ensures ShiftLeft(j) >= ShiftLeft(0)
  {
  }

  lemma PowerOfTwoDoubles(a: nat, b: nat)
    requires IsPowerOfTwo(a) && IsPowerOfTwo(b) && a < b
    ensures 2 * a <= b
  {
    var j: nat :| a == ShiftLeft(j);
    var k: nat :| b == ShiftLeft(k);
    PowersAreSpread(j, k);
  }

  lemma PowerOfTwoTimesFour(a: nat)
    requires IsPowerOfTwo(a)
    ensures IsPowerOfTwo(4 * a)
  {
    var k: nat :| a == ShiftLeft(k);
    assert 4 * a == ShiftLeft(k + 2);
  }

  /** A power of two is its own next power of two. */
  lemma NextPowerOfPower(a: nat)
    requires IsPowerOfTwo(a)
    ensures NextPowerOfTwo(a) == a
  {
    NextPowerOfTwoIsLeast(a);
    var k: nat :| a == ShiftLeft(k);
    assert a <= ShiftLeft(k);
  }

  // ---------------------------------------------------------------- TypedMap

  function TargetTypedSlots(curSlots: nat, live: nat): nat {
    var required := NextPowerOfTwo(Max(8, live * 2));
    if required > curSlots then Max(curSlots * 4, required) else required
  }

  /** A rebuilt typed table is at most half full, never smaller than 8, and, unless it has the
    * minimal 8 slots, less than eight times its entries. */
  lemma TypedTargetIsSound(curSlots: nat, live: nat)
    requires IsPowerOfTwo(curSlots) && curSlots >= 8
    ensures var n := TargetTypedSlots(curSlots, live);
      IsPowerOfTwo(n) && 8 <= n && 2 * live <= n && (n == 8 || n < 8 * live)
  {
    var required := NextPowerOfTwo(Max(8, live * 2));
    NextPowerOfTwoIsLeast(Max(8, live * 2));
    PowerOfTwoTimesFour(curSlots);
    assert ShiftLeft(3) == 8;
    assert live <= 4 ==> Max(8, live * 2) <= ShiftLeft(3);
    if required > curSlots {
      PowerOfTwoDoubles(curSlots, required);
    }
  }

  // ---------------------------------------------------------------- Map

  const MIN_TABLE_SLOTS: nat := 32

  predicate LoadFactor(lf: real) { 0.5 <= lf <= 0.9 }

  function Ceil(x: real): int { -((-x).Floor) }

  function SlotsForEntries(entries: int, lf: real): nat
    requires LoadFactor(lf)
  {
    NextPowerOfTwo(Max(MIN_TABLE_SLOTS, Ceil(Max(1, entries) as real / lf)))
  }

  /** newTableWithSlots: the slot count of the new table. */
  function TableSlots(slotCount: int): nat {
    NextPowerOfTwo(Max(MIN_TABLE_SLOTS, slotCount))
  }

  /** newTableWithSlots: the fill at which a table of that many slots is rebuilt. */
  function GrowAt(slots: nat, lf: real): int {
    var growAt := (slots as real * lf).Floor;
    Max(1, if growAt >= slots then slots - 1 else growAt)
  }

  function TargetSlotCount(slots: nat, used: int, tombs: int, initial: nat, liveEntries: int, lf: real,
      force: bool): nat
    requires LoadFactor(lf)
  {
    var required := Max(SlotsForEntries(liveEntries, lf), initial);
    var target :=
      if used >= GrowAt(slots, lf) || required > slots then Max(slots * 4, required)
      else if slots > initial && tombs > 0 && tombs * 4 >= Max(used, 1) then required
      else if slots > initial && required * 2 < slots then required
      else if force && slots > initial && required < slots then required
      else slots;
    NextPowerOfTwo(Max(target, initial))
  }

  function ShouldShrink(slots: nat, initial: nat, liveEntries: int, lf: real): bool
    requires LoadFactor(lf)
  {
    slots > initial && Max(SlotsForEntries(Max(liveEntries, 1), lf), initial) * 2 < slots
  }

  lemma CeilBounds(x: real)
    ensures x <= Ceil(x) as real < x + 1.0
  {
  }

  lemma DivideThenMultiply(e: real, lf: real, s: real)
    requires lf > 0.0 && e / lf <= s
    ensures e <= s * lf
  {
    assert (e / lf) * lf == e;
    MultiplyMonotone(e / lf, s, lf);
  }

  lemma MultiplyMonotone(a: real, b: real, c: real)
    requires a <= b && c >= 0.0
    ensures a * c <= b * c
  {
  }

  /** With the slots asked for some number of entries, that many do not trigger a rebuild early,
    * and a table never fills up before it is rebuilt. */
  lemma SlotsHoldEntries(entries: int, slots: nat, lf: real)
    requires LoadFactor(lf) && slots >= SlotsForEntries(entries, lf)
    ensures slots >= MIN_TABLE_SLOTS && entries <= GrowAt(slots, lf) < slots
  {
    var e := Max(1, entries);
    var q := e as real / lf;
    NextPowerOfTwoIsLeast(Max(MIN_TABLE_SLOTS, Ceil(q)));
    CeilBounds(q);
    DivideThenMultiply(e as real, lf, slots as real);
    GrowAtBounds(e, slots, lf);
  }

  lemma GrowAtBounds(e: int, slots: nat, lf: real)
    requires slots >= MIN_TABLE_SLOTS && lf <= 0.9 && 1 <= e && e as real <= slots as real * lf
    ensures e <= GrowAt(slots, lf) < slots
  {
    MultiplyMonotone(lf, 0.9, slots as real);
    assert slots as real * lf <= slots as real * 0.9;
  }

  lemma GrowAtBelowSlots(slots: nat, lf: real)
    requires LoadFactor(lf) && slots >= MIN_TABLE_SLOTS
    ensures 1 <= GrowAt(slots, lf) < slots
  {
    GrowAtBounds(1, slots, lf);
  }

  lemma InitialSlots()
    ensures IsPowerOfTwo(MIN_TABLE_SLOTS) && TableSlots(MIN_TABLE_SLOTS) == MIN_TABLE_SLOTS
  {
    assert ShiftLeft(5) == MIN_TABLE_SLOTS;
    NextPowerOfPower(MIN_TABLE_SLOTS);
  }

  lemma NextPowerOfFewer(a: int, b: int)
    requires a <= b
    ensures NextPowerOfTwo(a) <= NextPowerOfTwo(b)
  {
    NextPowerOfTwoIsLeast(a);
    NextPowerOfTwoIsLeast(b);
    var k: nat :| NextPowerOfTwo(b) == ShiftLeft(k);
    assert a <= ShiftLeft(k);
  }

  /** Fewer entries never ask for more slots. */
  lemma SlotsForFewer(fewer: int, more: int, lf: real)
    requires LoadFactor(lf) && fewer <= more
    ensures SlotsForEntries(fewer, lf) <= SlotsForEntries(more, lf)
  {
    var a, b := Max(1, fewer) as real / lf, Max(1, more) as real / lf;
    DivideMonotone(Max(1, fewer) as real, Max(1, more) as real, lf);
    CeilBounds(a);
    CeilBounds(b);
    assert Ceil(a) <= Ceil(b);
    NextPowerOfFewer(Max(MIN_TABLE_SLOTS, Ceil(a)), Max(MIN_TABLE_SLOTS, Ceil(b)));
  }

  lemma DivideMonotone(a: real, b: real, c: real)
    requires a <= b && c > 0.0
    ensures a / c <= b / c
  {
  }

  /** Whatever branch targetSlotCount takes, the new table has room for the entries asked for:
    * a power of two, at least slotsForEntries, with entries <= growAt < slots. */
  lemma TargetIsSound(slots: nat, used: int, tombs: int, initial: nat, liveEntries: int, lf: real, force: bool)
    requires LoadFactor(lf)
    ensures
      var n := TableSlots(TargetSlotCount(slots, used, tombs, initial, liveEntries, lf, force));
      && IsPowerOfTwo(n) && n >= SlotsForEntries(liveEntries, lf) && n >= initial
      && n == TargetSlotCount(slots, used, tombs, initial, liveEntries, lf, force)
      && liveEntries <= GrowAt(n, lf) < n
  {
    var target := TargetSlotCount(slots, used, tombs, initial, liveEntries, lf, force);
    var required := SlotsForEntries(liveEntries, lf);
    SlotsHoldEntries(liveEntries, required, lf);
    NextPowerOfTwoIsTarget(slots, used, tombs, initial, liveEntries, lf, force);
    NextPowerOfPower(target);
    SlotsHoldEntries(liveEntries, target, lf);
  }

  lemma NextPowerOfTwoIsTarget(slots: nat, used: int, tombs: int, initial: nat, liveEntries: int, lf: real, force: bool)
    requires LoadFactor(lf)
    ensures var n := TargetSlotCount(slots, used, tombs, initial, liveEntries, lf, force);
      IsPowerOfTwo(n) && n >= SlotsForEntries(liveEntries, lf) && n >= initial
  {
    var required := Max(SlotsForEntries(liveEntries, lf), initial);
    var target :=
      if used >= GrowAt(slots, lf) || required > slots then Max(slots * 4, required)
      else if slots > initial && tombs > 0 && tombs * 4 >= Max(used, 1) then required
      else if slots > initial && required * 2 < slots then required
      else if force && slots > initial && required < slots then required
      else slots;
    NextPowerOfTwoIsLeast(Max(target, initial));
  }

  /** slotsForEntries asks for the least table: any power of two from 32 up in which the entries stay
    * at or below the load factor has at least as many slots. */
  lemma SlotsAreLeast(entries: int, k: nat, lf: real)
    requires LoadFactor(lf)
    ensures ShiftLeft(k) >= SlotsForEntries(entries, lf)
      <==> ShiftLeft(k) >= MIN_TABLE_SLOTS && Max(1, entries) as real <= ShiftLeft(k) as real * lf
  {
    hide Ceil, NextPowerOfTwo, ShiftLeft, IsPowerOfTwo;
    var e := Max(1, entries) as real;
    RoomIsCeil(e, lf, ShiftLeft(k));
    LeastPower(Max(MIN_TABLE_SLOTS, Ceil(e / lf)), k);
  }

  lemma LeastPower(value: int, k: nat)
    ensures ShiftLeft(k) >= NextPowerOfTwo(value) <==> ShiftLeft(k) >= value
  {
    NextPowerOfTwoIsLeast(value);
  }

  lemma RoomIsCeil(e: real, lf: real, p: nat)
    requires lf > 0.0
    ensures Ceil(e / lf) <= p <==> e <= p as real * lf
  {
    QuotientTimes(e, lf);
    CeilAtMost(e / lf, p);
    ScaledAtMost(e / lf, p as real, lf);
  }

  lemma QuotientTimes(e: real, lf: real)
    requires lf > 0.0
    ensures (e / lf) * lf == e
  {
  }

  lemma CeilAtMost(q: real, p: int)
    ensures Ceil(q) <= p <==> q <= p as real
  {
    CeilBounds(q);
  }

  lemma ScaledAtMost(q: real, p: real, lf: real)
    requires lf > 0.0
    ensures q <= p <==> q * lf <= p * lf
  {
    if q <= p { MultiplyMonotone(q, p, lf); } else { StrictlyMonotone(p, q, lf); }
  }

  lemma StrictlyMonotone(a: real, b: real, c: real)
    requires a < b && c > 0.0
    ensures a * c < b * c
  {
  }

  /** A table is rebuilt at the largest number of entries that the load factor allows. */
  lemma GrowAtIsLargest(slots: nat, n: int, lf: real)
    requires LoadFactor(lf) && slots >= MIN_TABLE_SLOTS
    ensures n <= GrowAt(slots, lf) <==> n as real <= slots as real * lf
  {
    FillBounds(slots as real, lf);
    FloorInTable(slots, slots as real * lf, n);
  }

  lemma FillBounds(slots: real, lf: real)
    requires LoadFactor(lf) && slots >= 32.0
    ensures 16.0 <= slots * lf <= slots * 0.9
  {
    MultiplyMonotone(0.5, lf, slots);
    MultiplyMonotone(lf, 0.9, slots);
  }

  lemma FloorInTable(slots: nat, x: real, n: int)
    requires 16.0 <= x <= slots as real * 0.9
    ensures n <= Max(1, if x.Floor >= slots then slots - 1 else x.Floor) <==> n as real <= x
  {
  }

  /** A rebuild gives more slots exactly to a table that is full or too small for the entries asked for,
    * and then at least four times as many; it gives fewer, just what those entries need, exactly to any
    * other in which a quarter of the fill is tombstones, or that is over twice too large, or if forced. */
  lemma TargetMoves(slots: nat, used: int, tombs: int, liveEntries: int, lf: real, force: bool)
    requires LoadFactor(lf) && IsPowerOfTwo(slots) && slots >= MIN_TABLE_SLOTS
    ensures
      var n := TargetSlotCount(slots, used, tombs, MIN_TABLE_SLOTS, liveEntries, lf, force);
      var required := SlotsForEntries(liveEntries, lf);
      && (n > slots <==> used >= GrowAt(slots, lf) || required > slots)
      && (n > slots ==> n >= 4 * slots)
      && (n < slots ==> n == required)
      && (n < slots <==> used < GrowAt(slots, lf) && required < slots
                         && ((tombs > 0 && tombs * 4 >= Max(used, 1)) || required * 2 < slots || force))
  {
    var required := SlotsForEntries(liveEntries, lf);
    NextPowerOfTwoIsLeast(Max(MIN_TABLE_SLOTS, Ceil(Max(1, liveEntries) as real / lf)));
    NextPowerOfPower(required);
    NextPowerOfPower(slots);
    PowerOfTwoTimesFour(slots);
    NextPowerOfPower(4 * slots);
    hide SlotsForEntries, GrowAt, NextPowerOfTwo, IsPowerOfTwo;
  }
}
