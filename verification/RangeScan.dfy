/** What Range visits, and what its clearing of dead entries does to a shard's counters. */
module RangeScan {
  import opened Options
  import opened Probe
  import opened Sizing
  import opened Dictionary
  import opened MapTable

  // ---------------------------------------------------------------- visiting

  /** The live pairs of a table in slot order: the plain scan. */
  function Pairs<V, K>(t: Table<V, K>, now: nat): seq<(K, V)> {
    if t == [] then [] else
    var s := t[|t| - 1];
    Pairs(t[..|t| - 1], now) + if Kept(Keep(now))(s) then [(s.key, s.ref.value.val)] else []
  }

  /** Show pairs to a visitor that has seen some already: what it has seen then, and whether it still
    * wants more. The visitor's answer may depend on everything it has seen. */
  function Visit<P>(more: seq<P> -> bool, seen: seq<P>, ps: seq<P>): (seq<P>, bool) {
    if ps == [] then (seen, true) else
    var (v, go) := Visit(more, seen, ps[..|ps| - 1]);
    if go then (v + [ps[|ps| - 1]], more(v + [ps[|ps| - 1]])) else (v, false)
  }

  /** A visit shows the pairs in order up to and including the first at which the visitor says no. */
  lemma {:induction false} VisitIsCut<P>(more: seq<P> -> bool, seen: seq<P>, ps: seq<P>)
    ensures var (v, go) := Visit(more, seen, ps);
      && |seen| <= |v| && v <= seen + ps
      && (forall n :: |seen| < n < |v| ==> more((seen + ps)[..n]))
      && (if go then v == seen + ps && (ps != [] ==> more(v)) else |seen| < |v| && !more(v))
  {
    if ps == [] {
      assert seen + ps == seen;
    } else {
      var front := ps[..|ps| - 1];
      VisitIsCut(more, seen, front);
      var (v, go) := Visit(more, seen, front);
      assert seen + ps == seen + front + [ps[|ps| - 1]];
      forall n | |seen| < n <= |seen + front| ensures (seen + ps)[..n] == (seen + front)[..n] {
      }
    }
  }

  lemma {:induction false} VisitConcat<P>(more: seq<P> -> bool, seen: seq<P>, a: seq<P>, b: seq<P>)
    ensures Visit(more, seen, a + b) ==
      var (v, go) := Visit(more, seen, a); if go then Visit(more, v, b) else (v, false)
  {
    if b == [] {
      assert a + b == a;
    } else {
      VisitConcat(more, seen, a, b[..|b| - 1]);
      assert (a + b)[..|a + b| - 1] == a + b[..|b| - 1];
    }
  }

  lemma VisitStarts<V, K>(more: seq<(K, V)> -> bool, seen: seq<(K, V)>, t: Table<V, K>, now: nat)
    ensures Visit(more, seen, Pairs(t[..0], now)) == (seen, true)
  {
    assert t[..0] == [];
  }

  /** A visitor that never says no sees everything. */
  lemma {:induction false} VisitAll<P>(more: seq<P> -> bool, seen: seq<P>, ps: seq<P>)
    requires forall v :: more(v)
    ensures Visit(more, seen, ps) == (seen + ps, true)
  {
    if ps == [] {
      assert seen + ps == seen;
    } else {
      VisitAll(more, seen, ps[..|ps| - 1]);
      assert seen + ps == seen + ps[..|ps| - 1] + [ps[|ps| - 1]];
    }
  }

  lemma PairsSkip<V, K>(t: Table<V, K>, now: nat, i: nat)
    requires i < |t| && !Kept(Keep(now))(t[i])
    ensures Pairs(t[..i + 1], now) == Pairs(t[..i], now)
  {
    assert t[..i + 1][..i] == t[..i];
  }

  lemma VisitNext<V, K>(more: seq<(K, V)> -> bool, seen: seq<(K, V)>, before: seq<(K, V)>, t: Table<V, K>, now: nat,
      i: nat)
    requires i < |t| && Visit(more, seen, Pairs(t[..i], now)) == (before, true)
    ensures Visit(more, seen, Pairs(t[..i + 1], now)) ==
      if Kept(Keep(now))(t[i]) then var v := before + [(t[i].key, t[i].ref.value.val)]; (v, more(v)) else (before, true)
  {
    assert t[..i + 1][..i] == t[..i];
    var a, b := Pairs(t[..i], now), Pairs(t[..i + 1], now);
    assert b[..|a|] == a;
    assert a + [] == a;
  }

  /** A visit that has ended early sees nothing of the slots behind. */
  lemma VisitStops<V, K>(more: seq<(K, V)> -> bool, seen: seq<(K, V)>, t: Table<V, K>, now: nat, i: nat)
    requires i <= |t|
    ensures !Visit(more, seen, Pairs(t[..i], now)).1 || i == |t| ==>
      Visit(more, seen, Pairs(t, now)) == Visit(more, seen, Pairs(t[..i], now))
  {
    PairsPrefix(t, now, i);
    assert t[..|t|] == t;
    VisitConcat(more, seen, Pairs(t[..i], now), Pairs(t, now)[|Pairs(t[..i], now)|..]);
  }

  lemma {:induction false} PairsPrefix<V, K>(t: Table<V, K>, now: nat, i: nat)
    requires i <= |t|
    ensures Pairs(t[..i], now) <= Pairs(t, now)
    ensures Pairs(t, now) == Pairs(t[..i], now) + Pairs(t, now)[|Pairs(t[..i], now)|..]
  {
    if i < |t| {
      PairsPrefix(t[..|t| - 1], now, i);
      assert t[..|t| - 1][..i] == t[..i];
    } else {
      assert t[..i] == t;
    }
  }

  lemma {:induction false} LiveIsAliveOrDead<V, K>(t: Table<V, K>, now: nat)
    ensures Count(IsLive(), t) == Count(Kept(Keep(now)), t) + Count(IsDead(now), t)
  {
    if t != [] {
      LiveIsAliveOrDead(t[..|t| - 1], now);
    }
  }

  /** The plain scan meets each key that a caller sees exactly once, with its value, and no other. */
  lemma {:induction false} PairsAreView<V, K>(t: Table<V, K>, d: map<K, Cell<V>>, now: nat)
    requires Unique(t) && Represents(t, d)
    ensures var ps := Pairs(t, now);
      && (forall i, j :: 0 <= i < j < |ps| ==> ps[i].0 != ps[j].0)
      && (forall i :: 0 <= i < |ps| ==> ps[i].0 in Prune(d, now) && Prune(d, now)[ps[i].0].val == ps[i].1)
      && (forall k :: k in Prune(d, now) ==> (k, d[k].val) in ps)
  {
    PairsComeFrom(t, now);
    var ps := Pairs(t, now);
    forall i | 0 <= i < |ps| ensures ps[i].0 in Prune(d, now) && Prune(d, now)[ps[i].0].val == ps[i].1 {
      var m := PairsFrom(t, now, i);
      BoxIsCell(t[m].ref.value, t[m].ref.value.val, Plain, now);
      assert t[m].key in LiveKeys(t);
    }
    forall i, j | 0 <= i < j < |ps| ensures ps[i].0 != ps[j].0 {
      var a, b := PairsFrom(t, now, i), PairsFrom(t, now, j);
      assert a < b;
    }
    forall k | k in Prune(d, now) ensures (k, d[k].val) in ps {
      var m :| 0 <= m < |t| && t[m].Full? && t[m].ref.Some? && t[m].key == k;
      BoxIsCell(t[m].ref.value, t[m].ref.value.val, Plain, now);
      assert Kept(Keep(now))(t[m]);
    }
  }

  /** The slot of the i-th pair. */
  function PairsFrom<V, K>(t: Table<V, K>, now: nat, i: nat): (m: nat)
    requires i < |Pairs(t, now)|
    ensures m < |t| && Kept(Keep(now))(t[m]) && Pairs(t, now)[i] == (t[m].key, t[m].ref.value.val)
  {
    var front := t[..|t| - 1];
    if i < |Pairs(front, now)| then PairsFrom(front, now, i) else |t| - 1
  }

  lemma {:induction false} PairsComeFrom<V, K>(t: Table<V, K>, now: nat)
    ensures forall i, j :: 0 <= i < j < |Pairs(t, now)| ==> PairsFrom(t, now, i) < PairsFrom(t, now, j)
    ensures forall m :: 0 <= m < |t| && Kept(Keep(now))(t[m]) ==> (t[m].key, t[m].ref.value.val) in Pairs(t, now)
  {
    if t != [] {
      PairsComeFrom(t[..|t| - 1], now);
    }
  }

  // ---------------------------------------------------------------- clearing dead entries

  function IsDead<V, K>(now: nat): Slot<Option<Box<V>>, K> -> bool {
    (s: Slot<Option<Box<V>>, K>) => s.Full? && s.ref.Some? && Dead(s.ref.value, now)
  }

  /** A table after the dead entries of its first i slots were cleared in place. */
  function Swept<V, K>(t: Table<V, K>, now: nat, i: nat): (r: Table<V, K>)
    requires i <= |t|
    ensures |r| == |t|
    ensures forall j :: 0 <= j < |t| ==> r[j] == if j < i && IsDead(now)(t[j]) then Full(None, t[j].key) else t[j]
  {
    seq(|t|, (j: nat) requires j < |t| => if j < i && IsDead(now)(t[j]) then Full(None, t[j].key) else t[j])
  }

  lemma SweptOn<V, K>(t: Table<V, K>, now: nat, i: nat)
    requires i < |t|
    ensures Swept(t, now, i + 1)
      == if IsDead(now)(t[i]) then Swept(t, now, i)[i := Full(None, t[i].key)] else Swept(t, now, i)
  {
  }

  lemma DeadKey<V, K>(t: Table<V, K>, d: map<K, Cell<V>>, i: nat, now: nat)
    requires Represents(t, d) && i < |t| && IsDead(now)(t[i])
    ensures Prune(d - {t[i].key}, now) == Prune(d, now)
  {
    assert t[i].key in LiveKeys(t);
    BoxSeen(d, t[i].key, t[i].ref.value, now);
    DeadDrops(d, t[i].key, now);
  }

  lemma SweptNone<V, K>(t: Table<V, K>, now: nat)
    ensures Swept(t, now, 0) == t
  {
  }

  /** A table that holds entries of t only, and all of them alive. */
  ghost predicate OnlyAlive<V, K>(r: Table<V, K>, t: Table<V, K>, now: nat) {
    forall j :: 0 <= j < |r| && r[j].Full? ==> Keep(now)(r[j]) && r[j] in t
  }

  lemma AllAliveStats<V, K>(r: Table<V, K>, t: Table<V, K>, now: nat, size: K -> nat)
    requires OnlyAlive(r, t, now)
    ensures StatsOf(r, size).live == Count(IsFull(), r)
  {
    CountMonotone(IsLive(), IsFull(), r);
    CountMonotone(IsFull(), IsLive(), r);
  }

  /** Clearing dead entries changes nothing for a rebuild. */
  lemma SweptRebuilds<V, K>(hash: K -> nat, t: Table<V, K>, now: nat, i: nat, r: Table<V, K>)
    requires i <= |t| && HoldsKept(hash, Swept(t, now, i), Keep(now), r)
    ensures OnlyAlive(r, t, now)
    ensures Count(Kept(Keep(now)), Swept(t, now, i)) == Count(Kept(Keep(now)), t) == Count(IsFull(), r)
  {
    SweptCounts(t, now, i);
    forall j | 0 <= j < |r| && r[j].Full? ensures r[j] in t {
      var m :| 0 <= m < |t| && Swept(t, now, i)[m] == r[j];
      assert r[j] == t[m];
    }
  }

  lemma {:induction false} SweptCounts<V, K>(t: Table<V, K>, now: nat, i: nat)
    requires i <= |t|
    ensures Count(Kept(Keep(now)), Swept(t, now, i)) == Count(Kept(Keep(now)), t)
  {
    hide Count;
    if i == 0 {
      SweptNone(t, now);
    } else {
      SweptCounts(t, now, i - 1);
      SweptOn(t, now, i - 1);
      if IsDead(now)(t[i - 1]) {
        CountUpdate(Kept(Keep(now)), Swept(t, now, i - 1), i - 1, Full(None, t[i - 1].key));
      }
    }
  }

  /** A rebuild of a table with only live entries keeps them all. */
  lemma AliveRebuilds<V, K>(hash: K -> nat, s: Table<V, K>, t: Table<V, K>, now: nat, r: Table<V, K>)
    requires OnlyAlive(s, t, now) && HoldsKept(hash, s, Keep(now), r)
    ensures OnlyAlive(r, t, now) && Count(Kept(Keep(now)), s) == Count(IsFull(), s) == Count(IsFull(), r)
  {
    CountMonotone(Kept(Keep(now)), IsFull(), s);
    CountMonotone(IsFull(), Kept(Keep(now)), s);
    forall j | 0 <= j < |r| && r[j].Full? ensures r[j] in t {
      var m :| 0 <= m < |s| && s[m] == r[j];
    }
  }

  /** Either way a rebuild during the scan leaves the entries alive, and no others. */
  lemma RebuiltInScan<V, K>(hash: K -> nat, s: Table<V, K>, t: Table<V, K>, now: nat, i: nat, r: Table<V, K>)
    requires i <= |t| && HoldsKept(hash, s, Keep(now), r)
    requires s == Swept(t, now, i) || (OnlyAlive(s, t, now) && Count(IsFull(), s) == Count(Kept(Keep(now)), t))
    ensures OnlyAlive(r, t, now) && Count(Kept(Keep(now)), s) == Count(Kept(Keep(now)), t) == Count(IsFull(), r)
  {
    if s == Swept(t, now, i) {
      SweptRebuilds(hash, t, now, i, r);
    } else {
      AliveRebuilds(hash, s, t, now, r);
    }
  }

  /** The numbers that decide about rebuilds. */
  datatype Tally = Tally(slots: nat, used: int, live: int, tombs: int)

  /** A shard as a scan found it: its table, dictionary and numbers, and whether its counters were exact. */
  datatype Origin<V, K> = Origin(t: Table<V, K>, d: map<K, Cell<V>>, c: Tally, exact: bool) {
    function Alive(now: nat): nat { Count(Kept(Keep(now)), t) }

    function DeadUpTo(now: nat, i: nat): nat
      requires i <= |t|
    {
      Count(IsDead(now), t[..i])
    }
  }

  /** shouldResizeWithTable. */
  predicate Trigger(c: Tally, lf: real)
    requires LoadFactor(lf)
  {
    c.used >= GrowAt(c.slots, lf) || ShouldShrink(c.slots, MIN_TABLE_SLOTS, c.live, lf)
  }

  /** clearIfMatch on a dead entry. */
  function Cleared(c: Tally): Tally {
    c.(live := c.live - 1, tombs := c.tombs + 1)
  }

  /** clearIfMatch and maybeResize; a rebuild keeps the `alive` entries and recounts. */
  function DeadStep(c: Tally, alive: nat, lf: real): Tally
    requires LoadFactor(lf)
  {
    var c' := Cleared(c);
    if Trigger(c', lf) then
      var target := Max(Max(alive, c'.live), 1);
      var slots := TableSlots(TargetSlotCount(c'.slots, c'.used, c'.tombs, MIN_TABLE_SLOTS, target, lf, false));
      Tally(slots, alive, alive, 0)
    else c'
  }

  /** After the scan has met m dead entries. */
  function Sweep(m: nat, c: Tally, alive: nat, lf: real): Tally
    requires LoadFactor(lf)
  {
    if m == 0 then c else DeadStep(Sweep(m - 1, c, alive, lf), alive, lf)
  }

  /** Whether one of the first m dead entries that the scan met made it rebuild the shard. */
  predicate Rebuilt(m: nat, c: Tally, alive: nat, lf: real)
    requires LoadFactor(lf)
  {
    m > 0 && (Rebuilt(m - 1, c, alive, lf) || Trigger(Cleared(Sweep(m - 1, c, alive, lf)), lf))
  }

  lemma {:induction false} BeforeRebuild(m: nat, c: Tally, alive: nat, lf: real)
    requires LoadFactor(lf)
    ensures !Rebuilt(m, c, alive, lf) ==> Sweep(m, c, alive, lf) == c.(live := c.live - m, tombs := c.tombs + m)
    ensures Rebuilt(m, c, alive, lf) <==> m > 0 && Trigger(c.(live := c.live - m), lf)
  {
    if m > 0 {
      BeforeRebuild(m - 1, c, alive, lf);
      if m > 1 && Trigger(c.(live := c.live - (m - 1)), lf) {
        FewerTriggerToo(c, c.live - (m - 1), c.live - m, lf);
      }
      var before := c.(live := c.live - (m - 1), tombs := c.tombs + (m - 1));
      assert Trigger(Cleared(before), lf) == Trigger(c.(live := c.live - m), lf);
    }
  }

  lemma FewerTriggerToo(c: Tally, more: int, fewer: int, lf: real)
    requires LoadFactor(lf) && fewer <= more && Trigger(c.(live := more), lf)
    ensures Trigger(c.(live := fewer), lf)
  {
    SlotsForFewer(Max(fewer, 1), Max(more, 1), lf);
  }

  /** The scan goes on over the table it started with. Its clearing of a dead entry hits the shard's
    * current table every time exactly when at most one entry is dead, or a shard with one entry
    * more than are alive would still not be rebuilt. In all other runs some entry is cleared, and
    * counted as removed, after a rebuild has already dropped it. */
  lemma ClearsCurrentTable(c: Tally, alive: nat, dead: nat, lf: real)
    requires LoadFactor(lf) && c.live == alive + dead
    ensures (forall m: nat :: m < dead ==> !Rebuilt(m, c, alive, lf))
       <==> (dead <= 1 || !Trigger(c.(live := alive + 1), lf))
  {
    hide Trigger, Rebuilt;
    BeforeRebuild(0, c, alive, lf);
    forall m: nat | m < dead ensures Rebuilt(m, c, alive, lf) <==> m > 0 && Trigger(c.(live := c.live - m), lf) {
      BeforeRebuild(m, c, alive, lf);
    }
    if dead > 1 {
      if !Trigger(c.(live := alive + 1), lf) {
        forall m: nat | m < dead ensures !Rebuilt(m, c, alive, lf) {
          if Trigger(c.(live := c.live - m), lf) {
            FewerTriggerToo(c, c.live - m, alive + 1, lf);
          }
        }
      } else {
        assert c.live - (dead - 1) == alive + 1;
        assert Rebuilt(dead - 1, c, alive, lf);
      }
    }
  }

  // ---------------------------------------------------------------- when the counters stay exact

  /** The j-th clearing from here on finds a rebuild due. */
  predicate Due(c: Tally, j: nat, lf: real)
    requires LoadFactor(lf)
  {
    Trigger(c.(live := c.live - j), lf)
  }

  /** The first of the next m clearings at which a rebuild is due. */
  function First(c: Tally, m: nat, lf: real): (j: Option<nat>)
    requires LoadFactor(lf)
    ensures j.Some? ==> 0 < j.value <= m
  {
    hide Due;
    if m == 0 then None else
    var j := First(c, m - 1, lf);
    if j.None? && Due(c, m, lf) then Some(m) else j
  }

  lemma {:induction false} FirstIsLeast(c: Tally, m: nat, lf: real)
    requires LoadFactor(lf)
    ensures var j := First(c, m, lf);
      && (j.Some? ==> 0 < j.value <= m && Due(c, j.value, lf))
      && (forall i: nat :: 0 < i <= m && (j.Some? ==> i < j.value) ==> !Due(c, i, lf))
  {
    hide Due;
    if m > 0 {
      FirstIsLeast(c, m - 1, lf);
    }
  }

  /** The numbers that a rebuild into n slots leaves. */
  function Fresh(n: nat, alive: nat): Tally {
    Tally(n, alive, alive, 0)
  }

  /** The slots that the j-th clearing's rebuild chooses. */
  function SlotsAfter(c: Tally, j: nat, alive: nat, lf: real): nat
    requires LoadFactor(lf)
  {
    var target := Max(Max(alive, c.live - j), 1);
    TableSlots(TargetSlotCount(c.slots, c.used, c.tombs + j, MIN_TABLE_SLOTS, target, lf, false))
  }

  /** The k-th clearing after a rebuild into n slots is on the beat of that table: it rebuilds every p
    * clearings, and p divides k. */
  predicate OnBeat(k: nat, n: nat, alive: nat, lf: real)
    requires LoadFactor(lf)
  {
    hide Due;
    k == 0 || var p := First(Fresh(n, alive), k, lf); p.Some? && k % p.value == 0
  }

  /** After k more clearings a shard rebuilt into n slots has just been rebuilt: at the second rebuild,
    * or on the beat that the scan keeps from then on. */
  predicate JustRebuilt(k: nat, n: nat, alive: nat, lf: real)
    requires LoadFactor(lf)
  {
    hide Due, OnBeat, TargetSlotCount;
    k == 0 ||
    var p := First(Fresh(n, alive), k, lf);
    p.Some? && OnBeat(k - p.value, SlotsAfter(Fresh(n, alive), p.value, alive, lf), alive, lf)
  }

  /** Of m dead entries met, none made the scan rebuild the shard, or the last one did. */
  predicate StaysExact(m: nat, c: Tally, alive: nat, lf: real)
    requires LoadFactor(lf)
  {
    hide Due, JustRebuilt, TargetSlotCount;
    var j := First(c, m, lf);
    j.Some? ==> JustRebuilt(m - j.value, SlotsAfter(c, j.value, alive, lf), alive, lf)
  }

  lemma {:induction false} SweepOn(m: nat, k: nat, c: Tally, alive: nat, lf: real)
    requires LoadFactor(lf)
    ensures Sweep(m + k, c, alive, lf) == Sweep(k, Sweep(m, c, alive, lf), alive, lf)
  {
    hide DeadStep;
    if k > 0 {
      SweepOn(m, k - 1, c, alive, lf);
    }
  }

  /** Up to the first rebuild, and at it. */
  lemma UpToFirst(c: Tally, m: nat, alive: nat, lf: real)
    requires LoadFactor(lf)
    ensures var j := First(c, m, lf);
      if j.None? then
        !Rebuilt(m, c, alive, lf) && Sweep(m, c, alive, lf) == c.(live := c.live - m, tombs := c.tombs + m)
      else Rebuilt(m, c, alive, lf) && Sweep(j.value, c, alive, lf) == Fresh(SlotsAfter(c, j.value, alive, lf), alive)
  {
    hide Trigger, TargetSlotCount, TableSlots;
    FirstIsLeast(c, m, lf);
    BeforeRebuild(m, c, alive, lf);
    var j := First(c, m, lf);
    if j.Some? {
      if j.value < m { FewerTriggerToo(c, c.live - j.value, c.live - m, lf); }
      BeforeRebuild(j.value - 1, c, alive, lf);
      UsedAndLiveTrigger(c, j.value, lf);
    }
  }

  lemma UsedAndLiveTrigger(c: Tally, j: nat, lf: real)
    requires LoadFactor(lf) && j > 0
    ensures Trigger(Cleared(c.(live := c.live - (j - 1), tombs := c.tombs + (j - 1))), lf)
      == Trigger(c.(live := c.live - j), lf)
  {
  }

  /** A table size that the rebuilds of a scan keep, or swap with another one at every clearing. */
  ghost predicate Settled(n: nat, alive: nat, lf: real)
    requires LoadFactor(lf)
  {
    || Keeps(n, alive, lf)
    || Swaps(n, alive, lf)
  }

  ghost predicate Keeps(n: nat, alive: nat, lf: real)
    requires LoadFactor(lf)
  {
    forall k: nat ::
      var p := First(Fresh(n, alive), k, lf); p.Some? ==> SlotsAfter(Fresh(n, alive), p.value, alive, lf) == n
  }

  ghost predicate Swaps(n: nat, alive: nat, lf: real)
    requires LoadFactor(lf)
  {
    var n' := SlotsAfter(Fresh(n, alive), 1, alive, lf);
    && First(Fresh(n, alive), 1, lf) == Some(1) && First(Fresh(n', alive), 1, lf) == Some(1)
    && SlotsAfter(Fresh(n', alive), 1, alive, lf) == n
  }

  /** On a settled table the rebuilds keep the beat. */
  lemma {:induction false} KeepsBeat(k: nat, n: nat, alive: nat, lf: real)
    requires LoadFactor(lf) && Settled(n, alive, lf)
    ensures Sweep(k, Fresh(n, alive), alive, lf).live == alive <==> OnBeat(k, n, alive, lf)
  {
    hide Sweep, Due, Trigger, SlotsAfter, Rebuilt, OnBeat;
    UpToFirst(Fresh(n, alive), k, alive, lf);
    SweepNone(Fresh(n, alive), alive, lf);
    BeatMoves(k, n, alive, lf);
    var p := First(Fresh(n, alive), k, lf);
    if p.Some? {
      SweepOn(p.value, k - p.value, Fresh(n, alive), alive, lf);
      KeepsBeat(k - p.value, SlotsAfter(Fresh(n, alive), p.value, alive, lf), alive, lf);
    }
  }

  /** The beat after a rebuild is the beat before it. */
  lemma BeatMoves(k: nat, n: nat, alive: nat, lf: real)
    requires LoadFactor(lf) && Settled(n, alive, lf)
    ensures var p := First(Fresh(n, alive), k, lf);
      if p.None? then OnBeat(k, n, alive, lf) <==> k == 0
      else var n' := SlotsAfter(Fresh(n, alive), p.value, alive, lf);
        Settled(n', alive, lf) && (OnBeat(k - p.value, n', alive, lf) <==> OnBeat(k, n, alive, lf))
  {
    hide Due, SlotsAfter, OnBeat;
    FirstIsLeast(Fresh(n, alive), k, lf);
    BeatOfKept(k, n, alive, lf);
    var p := First(Fresh(n, alive), k, lf);
    if p.Some? && Swaps(n, alive, lf) {
      FirstIsLeast(Fresh(n, alive), 1, lf);
      assert p == Some(1);
      BeatOfOne(k, n, alive, lf);
      BeatOfOne(k - 1, SlotsAfter(Fresh(n, alive), 1, alive, lf), alive, lf);
    }
  }

  lemma BeatOfKept(k: nat, n: nat, alive: nat, lf: real)
    requires LoadFactor(lf)
    ensures var p := First(Fresh(n, alive), k, lf);
      if p.None? then OnBeat(k, n, alive, lf) <==> k == 0
      else OnBeat(k - p.value, n, alive, lf) <==> OnBeat(k, n, alive, lf)
  {
    hide Due;
    FirstIsLeast(Fresh(n, alive), k, lf);
    var p := First(Fresh(n, alive), k, lf);
    if p.Some? {
      var rest := k - p.value;
      FirstIsLeast(Fresh(n, alive), rest, lf);
      assert First(Fresh(n, alive), rest, lf) == if rest < p.value then None else p;
      BeatShift(k, p.value);
      if rest < p.value { SmallMod(rest, p.value); }
    }
  }

  lemma SmallMod(x: nat, p: nat)
    requires x < p
    ensures x % p == x
  {
  }

  lemma BeatOfOne(k: nat, n: nat, alive: nat, lf: real)
    requires LoadFactor(lf) && First(Fresh(n, alive), 1, lf) == Some(1)
    ensures OnBeat(k, n, alive, lf)
  {
    hide Due;
    FirstIsLeast(Fresh(n, alive), 1, lf);
    FirstIsLeast(Fresh(n, alive), k, lf);
  }

  lemma SweepNone(c: Tally, alive: nat, lf: real)
    requires LoadFactor(lf)
    ensures Sweep(0, c, alive, lf) == c
  {
  }

  lemma BeatShift(k: nat, p: nat)
    requires 0 < p <= k
    ensures (k - p) % p == k % p
  {
    var a, b := k / p, (k - p) / p;
    assert k - p == p * (a - 1) + k % p;
    ModUnique(k - p, p, a - 1, k % p);
  }

  lemma ModUnique(x: nat, p: nat, a: int, r: nat)
    requires r < p && x == p * a + r
    ensures x % p == r
  {
    var d := x / p;
    assert p * (a - d) == x % p - r;
    if a > d { Multiples(p, a - d); } else if a < d { Multiples(p, d - a); }
  }

  lemma Multiples(p: nat, k: nat)
    requires k > 0
    ensures p * k >= p
  {
  }

  /** What the rebuild of a table with room for its entries chooses. */
  lemma RebuiltSlots(n: nat, p: nat, alive: nat, lf: real)
    requires LoadFactor(lf) && IsPowerOfTwo(n) && n >= SlotsForEntries(alive, lf) && p > 0
    ensures var q, n' := SlotsForEntries(alive, lf), SlotsAfter(Fresh(n, alive), p, alive, lf);
      if alive >= GrowAt(n, lf) then n' == 4 * n else (n' == n && n <= 2 * q) || n' == q
  {
    var q := SlotsForEntries(alive, lf);
    assert SlotsForEntries(Max(alive, 1), lf) == q;
    NextPowerOfTwoIsLeast(Max(MIN_TABLE_SLOTS, Ceil(Max(1, alive) as real / lf)));
    PowerOfTwoTimesFour(n);
    NextPowerOfPower(n);
    NextPowerOfPower(4 * n);
    NextPowerOfPower(q);
    hide SlotsForEntries, GrowAt, IsPowerOfTwo, NextPowerOfTwo;
  }

  /** A table of at least the least size that is full at once has the least size. */
  lemma FullIsLeast(n: nat, alive: nat, lf: real)
    requires LoadFactor(lf) && IsPowerOfTwo(n) && n >= SlotsForEntries(alive, lf) && alive >= GrowAt(n, lf)
    ensures n == SlotsForEntries(alive, lf)
  {
    var q := SlotsForEntries(alive, lf);
    SlotsHoldEntries(alive, q, lf);
    NextPowerOfTwoIsLeast(Max(MIN_TABLE_SLOTS, Ceil(Max(1, alive) as real / lf)));
    hide SlotsForEntries, IsPowerOfTwo;
    if n > q {
      PowerOfTwoDoubles(q, n);
      GrowsWithSlots(q, n, lf);
    }
  }

  lemma GrowsWithSlots(q: nat, n: nat, lf: real)
    requires LoadFactor(lf) && q >= MIN_TABLE_SLOTS && n >= 2 * q
    ensures GrowAt(q, lf) < GrowAt(n, lf)
  {
    var g := GrowAt(q, lf);
    MultiplyMonotone(0.5, lf, q as real);
    assert q as real * lf >= 16.0;
    GrowAtBelow(q, lf);
    Doubled(q as real, n as real, lf);
    hide GrowAt;
    assert (g + 1) as real <= 2.0 * (q as real * lf);
    GrowAtBounds(g + 1, n, lf);
  }

  lemma GrowAtBelow(q: nat, lf: real)
    requires LoadFactor(lf) && q as real * lf >= 16.0
    ensures GrowAt(q, lf) as real <= q as real * lf
  {
  }

  lemma Doubled(q: real, n: real, lf: real)
    requires 2.0 * q <= n && lf >= 0.0
    ensures 2.0 * (q * lf) <= n * lf
  {
    MultiplyMonotone(2.0 * q, n, lf);
  }

  /** Four times the least size is too large as soon as an entry is cleared. */
  lemma FourfoldShrinks(alive: nat, lf: real)
    requires LoadFactor(lf)
    ensures Trigger(Tally(4 * SlotsForEntries(alive, lf), alive, alive - 1, 1), lf)
  {
    NextPowerOfTwoIsLeast(Max(MIN_TABLE_SLOTS, Ceil(Max(1, alive) as real / lf)));
    SlotsForFewer(Max(alive - 1, 1), Max(alive, 1), lf);
  }

  lemma TriggersAtOnce(n: nat, alive: nat, lf: real)
    requires LoadFactor(lf) && Trigger(Tally(n, alive, alive - 1, 1), lf)
    ensures First(Fresh(n, alive), 1, lf) == Some(1)
  {
    assert Trigger(Fresh(n, alive).(live := alive - 1), lf) == Trigger(Tally(n, alive, alive - 1, 1), lf);
  }

  /** The least size, if its rebuild is due at once, swaps with four times that size. */
  lemma LeastSwaps(alive: nat, lf: real)
    requires LoadFactor(lf) && alive >= GrowAt(SlotsForEntries(alive, lf), lf)
    ensures var q := SlotsForEntries(alive, lf); Swaps(q, alive, lf) && Swaps(4 * q, alive, lf)
  {
    var q := SlotsForEntries(alive, lf);
    NextPowerOfTwoIsLeast(Max(MIN_TABLE_SLOTS, Ceil(Max(1, alive) as real / lf)));
    PowerOfTwoTimesFour(q);
    FourfoldShrinks(alive, lf);
    TriggersAtOnce(q, alive, lf);
    TriggersAtOnce(4 * q, alive, lf);
    RebuiltSlots(q, 1, alive, lf);
    RebuiltSlots(4 * q, 1, alive, lf);
    if alive >= GrowAt(4 * q, lf) { FullIsLeast(4 * q, alive, lf); }
  }

  /** The least size is settled. */
  lemma LeastSettles(alive: nat, lf: real)
    requires LoadFactor(lf)
    ensures Settled(SlotsForEntries(alive, lf), alive, lf)
  {
    var q := SlotsForEntries(alive, lf);
    NextPowerOfTwoIsLeast(Max(MIN_TABLE_SLOTS, Ceil(Max(1, alive) as real / lf)));
    if alive >= GrowAt(q, lf) {
      LeastSwaps(alive, lf);
    } else {
      hide SlotsForEntries, GrowAt, IsPowerOfTwo, SlotsAfter, Due;
      forall k: nat | First(Fresh(q, alive), k, lf).Some?
        ensures SlotsAfter(Fresh(q, alive), First(Fresh(q, alive), k, lf).value, alive, lf) == q
      {
        RebuiltSlots(q, First(Fresh(q, alive), k, lf).value, alive, lf);
      }
    }
  }

  /** A rebuild of a table with room for its entries gives a settled table. */
  lemma Settles(n: nat, k: nat, alive: nat, lf: real)
    requires LoadFactor(lf) && IsPowerOfTwo(n) && n >= SlotsForEntries(alive, lf)
    requires First(Fresh(n, alive), k, lf).Some?
    ensures Settled(SlotsAfter(Fresh(n, alive), First(Fresh(n, alive), k, lf).value, alive, lf), alive, lf)
  {
    hide SlotsForEntries, GrowAt, IsPowerOfTwo, SlotsAfter, Swaps, Keeps, Due;
    var p := First(Fresh(n, alive), k, lf).value;
    RebuiltSlots(n, p, alive, lf);
    LeastSettles(alive, lf);
    if alive >= GrowAt(n, lf) {
      FullIsLeast(n, alive, lf);
      LeastSwaps(alive, lf);
    } else if SlotsAfter(Fresh(n, alive), p, alive, lf) == n {
      SameSizeKeeps(n, k, alive, lf);
    }
  }

  lemma SameSizeKeeps(n: nat, k: nat, alive: nat, lf: real)
    requires LoadFactor(lf) && First(Fresh(n, alive), k, lf).Some?
    requires SlotsAfter(Fresh(n, alive), First(Fresh(n, alive), k, lf).value, alive, lf) == n
    ensures Keeps(n, alive, lf)
  {
    hide SlotsAfter, Due;
    FirstIsLeast(Fresh(n, alive), k, lf);
    forall k': nat | First(Fresh(n, alive), k', lf).Some?
      ensures First(Fresh(n, alive), k', lf) == First(Fresh(n, alive), k, lf)
    {
      FirstIsLeast(Fresh(n, alive), k', lf);
    }
  }

  /** After m dead entries, with counters that said so before, the live counter is right again, or the
    * table is still the one the scan began with, exactly when StaysExact holds: a condition on the
    * numbers before the scan. */
  lemma ExactAfterScan(m: nat, c: Tally, alive: nat, lf: real)
    requires LoadFactor(lf) && c.live >= alive + m
    ensures !Rebuilt(m, c, alive, lf) || Sweep(m, c, alive, lf).live == alive <==> StaysExact(m, c, alive, lf)
  {
    hide IsPowerOfTwo, SlotsForEntries, Sweep, Rebuilt, TargetSlotCount, TableSlots, GrowAt, Due, Trigger, JustRebuilt;
    UpToFirst(c, m, alive, lf);
    var j := First(c, m, lf);
    if j.Some? {
      var n, k := SlotsAfter(c, j.value, alive, lf), m - j.value;
      var target := Max(Max(alive, c.live - j.value), 1);
      TargetIsSound(c.slots, c.used, c.tombs + j.value, MIN_TABLE_SLOTS, target, lf, false);
      SlotsForFewer(alive, target, lf);
      SweepOn(j.value, k, c, alive, lf);
      AfterFirst(n, k, alive, lf);
    }
  }

  /** After all the dead entries the live counter is the number of entries alive exactly when
    * StaysExact holds. */
  lemma LiveAfterScan(dead: nat, c: Tally, alive: nat, lf: real)
    requires LoadFactor(lf) && c.live == alive + dead
    ensures Sweep(dead, c, alive, lf).live == alive <==> StaysExact(dead, c, alive, lf)
  {
    hide Trigger, Due, Sweep, Rebuilt, StaysExact;
    ExactAfterScan(dead, c, alive, lf);
    UpToFirst(c, dead, alive, lf);
  }

  lemma AfterFirst(n: nat, k: nat, alive: nat, lf: real)
    requires LoadFactor(lf) && IsPowerOfTwo(n) && n >= SlotsForEntries(alive, lf)
    ensures Sweep(k, Fresh(n, alive), alive, lf).live == alive <==> JustRebuilt(k, n, alive, lf)
  {
    hide IsPowerOfTwo, SlotsForEntries, Sweep, Rebuilt, SlotsAfter, Due, Trigger, Settled, OnBeat;
    SweepNone(Fresh(n, alive), alive, lf);
    UpToFirst(Fresh(n, alive), k, alive, lf);
    var p := First(Fresh(n, alive), k, lf);
    if p.Some? {
      Settles(n, k, alive, lf);
      SweepOn(p.value, k - p.value, Fresh(n, alive), alive, lf);
      KeepsBeat(k - p.value, SlotsAfter(Fresh(n, alive), p.value, alive, lf), alive, lf);
    }
  }

  /** Two expired entries and nothing else in a table of 128 slots: the scan leaves the live counter,
    * and with it Len, at -1. */
  lemma LenCanGoNegative(lf: real)
    requires LoadFactor(lf)
    ensures Sweep(2, Tally(128, 2, 2, 0), 0, lf).live == -1
  {
    var c := Tally(128, 2, 2, 0);
    assert ShiftLeft(5) == 32 && ShiftLeft(1) == 2;
    var req := SlotsForEntries(1, lf);
    assert 1.0 / lf <= 2.0;
    CeilBounds(1.0 / lf);
    NextPowerOfPower(32);
    assert req == 32;
    assert Trigger(Cleared(c), lf);
    GrowAtBounds(3, 128, lf);
    GrowAtBounds(1, 32, lf);
    assert DeadStep(c, 0, lf) == Tally(32, 0, 0, 0);
    assert !Trigger(Tally(32, 0, -1, 1), lf);
    assert Sweep(1, c, 0, lf) == DeadStep(c, 0, lf);
  }
}
