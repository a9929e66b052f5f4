/** One shard of `Map`, sequentially: slots and control words, entries whose boxes are replaced in
  * place, counters, and every operation with the rebuilds it triggers.
  *
  * Values are stored as given. The ghost table is what the slots and entries hold, the ghost
  * dictionary has a cell for every entry with a box, expired ones included; what a caller sees at
  * a time is that dictionary pruned to the time.
  */
module MapShard {
  import opened Options
  import opened Probe
  import opened Sizing
  import opened Dictionary
  import opened History
  import opened MapTable
  import opened RangeScan

  class Entry<K, V> {
    const key: K
    var value: Option<Box<V>>

    constructor (k: K, b: Box<V>)
      ensures key == k && value == Some(b)
    {
      key, value := k, Some(b);
    }
  }

  class Shard<K(==), V> {
    const hash: K -> nat
    const keySize: K -> nat
    /** The type word of a value; 0 for the nil interface. */
    const typeWord: V -> nat
    const valuesEqual: (V, V) -> bool
    const loadFactor: real

    var slots: array<Entry?<K, V>>
    var ctrl: array<nat>
    var growAt: int
    var live: int
    var used: int
    var tombs: int
    var keyBytes: int
    var needsCleanup: bool

    ghost var entries: set<Entry<K, V>>
    ghost var table: Table<V, K>
    ghost var dict: map<K, Cell<V>>

    ghost function Repr(): set<object>
      reads this`slots, this`ctrl, this`entries
    {
      var tableParts: set<object> := {slots, ctrl};
      tableParts + entries
    }

    /** A table, given as a value, is what the slots and their entries hold; ctrl publishes its
      * fingerprints, 0 exactly where the slot is empty. */
    static ghost predicate LinkedTo(slots: array<Entry?<K, V>>, ctrl: array<nat>, table: Table<V, K>,
        entries: set<Entry<K, V>>, hash: K -> nat)
      reads slots, ctrl, entries
    {
      && |table| == slots.Length == ctrl.Length
      && (forall i :: 0 <= i < |table| ==> ctrl[i] == CtrlWord(hash, table[i]))
      && (forall i :: 0 <= i < |table| ==> (slots[i] == null <==> table[i].Nil?))
      && (forall i :: 0 <= i < |table| && slots[i] != null ==>
            slots[i] in entries && table[i] == Full(slots[i].value, slots[i].key))
    }

    ghost predicate Linked()
      reads this`slots, this`ctrl, this`entries, this`table, Repr()
    {
      LinkedTo(slots, ctrl, table, entries, hash)
    }

    static function CtrlWord(hash: K -> nat, s: Slot<Option<Box<V>>, K>): nat {
      if s.Full? then Fingerprint(hash(s.key)) else 0
    }

    /** The table is right, its fill is counted, and the sizes are sound. */
    ghost predicate Core()
      reads this, Repr()
    {
      && Linked() && Good(table, hash, dict, needsCleanup) && used == Count(IsFull(), table)
      && LoadFactor(loadFactor) && IsPowerOfTwo(slots.Length) && slots.Length >= MIN_TABLE_SLOTS
      && growAt == GrowAt(slots.Length, loadFactor)
    }

    /** All counters are exact. Every operation keeps them so; only Range may not. */
    ghost predicate Exact()
      reads this`live, this`used, this`tombs, this`keyBytes, this`table
    {
      Stats(live, used, tombs, keyBytes) == StatsOf(table, keySize)
    }

    /** Between operations the fill never exceeds growAt. */
    ghost predicate Valid()
      reads this, Repr()
    {
      Core() && used <= growAt
    }

    /** What a caller sees at time `now`. */
    ghost function View(now: nat): map<K, Cell<V>>
      reads this
    {
      Prune(dict, now)
    }

    constructor (hash: K -> nat, keySize: K -> nat, typeWord: V -> nat, valuesEqual: (V, V) -> bool, loadFactor: real,
        capacity: int)
      requires LoadFactor(loadFactor)
      ensures Valid() && Exact() && fresh(Repr()) && dict == map[] && used == tombs == 0
      ensures this.valuesEqual == valuesEqual && this.hash == hash && this.loadFactor == loadFactor
      ensures slots.Length == SlotsForEntries(capacity, loadFactor) && growAt == GrowAt(slots.Length, loadFactor)
    {
      this.hash, this.keySize, this.typeWord := hash, keySize, typeWord;
      this.valuesEqual, this.loadFactor := valuesEqual, loadFactor;
      var n := SlotsForEntries(capacity, loadFactor);
      slots := new Entry?<K, V>[n](_ => null);
      ctrl := new nat[n](_ => 0);
      growAt := GrowAt(n, loadFactor);
      live, used, tombs, keyBytes, needsCleanup := 0, 0, 0, 0, false;
      entries, table, dict := {}, Empty(n), map[];
      new;
      SlotsHoldEntries(capacity, n, loadFactor);
      NextPowerOfTwoIsLeast(Max(MIN_TABLE_SLOTS, Ceil(Max(1, capacity) as real / loadFactor)));
      EmptyStats<V, K>(n, keySize);
    }

    // -------------------------------------------------------------- probing

    /** findEntry, and the probe of the reads: compares keys only where the control word matches. */
    method FindEntry(k: K) returns (at: Option<nat>)
      requires Linked() && WellFormed(table, hash)
      ensures at.Some? ==> at.value < |table| && Has(table[at.value], k) && slots[at.value] != null
      ensures at == None ==> Absent(table, k)
    {
      var n := slots.Length;
      var fp := Fingerprint(hash(k));
      var idx := Home(hash(k), n);
      var probes := 0;
      while probes < n
        invariant 0 <= probes <= n && Misses(table, hash(k), k, probes)
        invariant idx < n && (probes < n ==> idx == At(hash(k), probes, n))
      {
        if ctrl[idx] == 0 {
          MissIsAbsent(table, hash, k, probes);
          return None;
        }
        if ctrl[idx] == fp && slots[idx] != null && slots[idx].key == k {
          return Some(idx);
        }
        if probes + 1 < n { AtNext(hash(k), probes, n); }
        idx := Next(idx, n);
        probes := probes + 1;
      }
      MissIsAbsent(table, hash, k, n);
      return None;
    }

    /** The probe of the writers, on the slots themselves. Below growAt there is always a nil, so it
      * never goes all the way round. */
    method Probe(k: K) returns (found: bool, i: nat, ghost q: nat)
      requires Linked() && WellFormed(table, hash) && NoTombs(table) && Count(IsFull(), table) < |table|
      ensures i < |table| && (found ==> Has(table[i], k) && slots[i] != null)
      ensures !found ==> q < |table| && i == At(hash(k), q, |table|)
      ensures !found ==> Reaches(table, hash(k), q) && table[i] == Nil && Absent(table, k)
    {
      var n := slots.Length;
      ghost var end := EndOfProbe(table, hash(k));
      hide NoTombs, Count;
      i := Home(hash(k), n);
      q := 0;
      while slots[i] != null && slots[i].key != k
        invariant 0 <= q <= end < n && Misses(table, hash(k), k, q) && i == At(hash(k), q, n)
        decreases end - q
      {
        AtNext(hash(k), q, n);
        i := Next(i, n);
        q := q + 1;
      }
      found := slots[i] != null;
      if !found {
        MissIsAbsent(table, hash, k, q);
      }
    }

    // -------------------------------------------------------------- single changes

    /** Point the entry in slot i at a new box, or at nil, with the counter updates that go with it. */
    method SetBox(i: nat, b: Option<Box<V>>, dLive: int, dTombs: int, dBytes: int, flag: bool)
      requires Linked() && WellFormed(table, hash) && i < slots.Length && slots[i] != null
      modifies this`table, this`dict, this`live, this`tombs, this`keyBytes, this`needsCleanup, slots[i]
      ensures Linked() && slots[i].value == b && table == old(table)[i := Full(b, slots[i].key)]
      ensures live == old(live) + dLive && tombs == old(tombs) + dTombs && keyBytes == old(keyBytes) + dBytes
      ensures needsCleanup == (old(needsCleanup) || flag)
      ensures dict == if b.Some? then old(dict)[slots[i].key := CellOf(b.value)] else old(dict) - {slots[i].key}
    {
      UniqueSlots(table, hash, i);
      var e := slots[i];
      e.value := b;
      live, tombs, keyBytes, needsCleanup := live + dLive, tombs + dTombs, keyBytes + dBytes, needsCleanup || flag;
      table := table[i := Full(b, e.key)];
      dict := if b.Some? then dict[e.key := CellOf(b.value)] else dict - {e.key};
    }

    /** Put a new entry in the nil slot i: the slot first, then its control word. */
    method PutEntry(i: nat, k: K, b: Box<V>)
      requires Linked() && i < |table| && table[i].Nil?
      modifies this`table, this`entries, slots, ctrl
      ensures Linked() && table == old(table)[i := Full(Some(b), k)]
      ensures fresh(entries - old(entries)) && entries >= old(entries)
    {
      var e := new Entry(k, b);
      slots[i] := e;
      ctrl[i] := Fingerprint(hash(k));
      entries, table := entries + {e}, table[i := Full(Some(b), k)];
    }

    /** Store new values in the counters. */
    method SetCounters(c: Stats, flag: bool, ghost d: map<K, Cell<V>>)
      modifies this`dict, this`needsCleanup, this`live, this`used, this`tombs, this`keyBytes
      ensures Stats(live, used, tombs, keyBytes) == c && needsCleanup == flag && dict == d
    {
      live, used, tombs, keyBytes := c.live, c.used, c.tombs, c.keyBytes;
      needsCleanup, dict := flag, d;
    }

    /** Replace the box of an entry that has one. */
    method Replace(i: nat, b: Box<V>)
      requires Core() && i < slots.Length && slots[i] != null && slots[i].value.Some?
      modifies this`table, this`dict, this`live, this`tombs, this`keyBytes, this`needsCleanup, slots[i]
      ensures Core() && (old(Exact()) ==> Exact())
      ensures dict == old(dict)[slots[i].key := CellOf(b)] && slots[i].value == Some(b)
    {
      hide WellFormed, Represents, FlagOk, NoTombs, Count, Total, IsPowerOfTwo, CellOf;
      SetGood(table, hash, dict, needsCleanup, i, Some(b), needsCleanup || !IsSimple(b));
      StatsPut(table, keySize, i, slots[i].key, Some(b));
      SetBox(i, Some(b), 0, 0, 0, !IsSimple(b));
    }

    /** Give a box to an entry whose pointer is nil. */
    method Revive(i: nat, b: Box<V>)
      requires Core() && i < slots.Length && slots[i] != null && slots[i].value == None
      modifies this`table, this`dict, this`live, this`tombs, this`keyBytes, this`needsCleanup, slots[i]
      ensures Core() && (old(Exact()) ==> Exact())
      ensures dict == old(dict)[slots[i].key := CellOf(b)] && slots[i].value == Some(b)
    {
      hide WellFormed, Represents, FlagOk, NoTombs, Count, Total, IsPowerOfTwo, CellOf;
      SetGood(table, hash, dict, needsCleanup, i, Some(b), needsCleanup || !IsSimple(b));
      StatsPut(table, keySize, i, slots[i].key, Some(b));
      SetBox(i, Some(b), 1, -1, keySize(slots[i].key), !IsSimple(b));
    }

    /** clearIfMatch. The entry is in the current table, in slot `at`, or in none: then the counters
      * change all the same. */
    method ClearIfMatch(e: Entry<K, V>, ghost at: Option<nat>)
      requires Core() && e.value.Some?
      requires match at
        case Some(i) => i < slots.Length && slots[i] == e
        case None => forall j :: 0 <= j < slots.Length ==> slots[j] != e
      modifies this`table, this`dict, this`live, this`tombs, this`keyBytes, this`needsCleanup, e
      ensures Core() && e.value == None && live == old(live) - 1 && tombs == old(tombs) + 1
      ensures match at
        case Some(i) => (old(Exact()) ==> Exact()) && table == old(table)[i := Full(None, e.key)]
                  && dict == old(dict) - {e.key}
        case None => table == old(table) && dict == old(dict)
    {
      hide WellFormed, Represents, FlagOk, NoTombs, Count, Total, IsPowerOfTwo, CellOf, GrowAt;
      if at.Some? {
        UniqueSlots(table, hash, at.value);
        SetGood(table, hash, dict, needsCleanup, at.value, None, true);
        StatsPut(table, keySize, at.value, e.key, None);
      }
      SetFlag(table, hash, dict, needsCleanup);
      e.value := None;
      live, tombs, keyBytes, needsCleanup := live - 1, tombs + 1, keyBytes - keySize(e.key), true;
      if at.Some? {
        table, dict := table[at.value := Full(None, e.key)], dict - {e.key};
      }
    }

    /** clearIfMatch on the entry in slot i, and the removal at the end of delete and compareAndDelete. */
    method ClearEntry(i: nat)
      requires Core() && i < slots.Length && slots[i] != null && slots[i].value.Some?
      modifies this`table, this`dict, this`live, this`tombs, this`keyBytes, this`needsCleanup, slots[i]
      ensures Core() && (old(Exact()) ==> Exact()) && dict == old(dict) - {slots[i].key} && slots[i].value == None
    {
      hide Good, Count, Total, IsPowerOfTwo, LinkedTo;
      ClearIfMatch(slots[i], Some(i));
    }

    /** insertFresh. */
    method Insert(i: nat, k: K, b: Box<V>, ghost q: nat)
      requires Core() && Absent(table, k) && q < |table| && i == At(hash(k), q, |table|)
      requires Reaches(table, hash(k), q) && table[i] == Nil
      modifies this`table, this`dict, this`entries, this`needsCleanup, this`live, this`used, this`tombs,
          this`keyBytes, slots, ctrl
      ensures Core() && (old(Exact()) ==> Exact()) && dict == old(dict)[k := CellOf(b)]
      ensures fresh(entries - old(entries)) && entries >= old(entries)
      ensures table == old(table)[i := Full(Some(b), k)] && used == old(used) + 1 && tombs == old(tombs)
    {
      hide WellFormed, Represents, FlagOk, NoTombs, Count, Total, IsPowerOfTwo, CellOf;
      InsertGood(table, hash, dict, needsCleanup, k, q, b, needsCleanup || !IsSimple(b));
      StatsPut(table, keySize, i, k, Some(b));
      PutEntry(i, k, b);
      var counts := Stats(live + 1, used + 1, tombs, keyBytes + keySize(k));
      SetCounters(counts, needsCleanup || !IsSimple(b), dict[k := CellOf(b)]);
    }

    // -------------------------------------------------------------- rebuilding

    /** insertClone: into the first nil at or after the entry's home, slot and control word. */
    method InsertClone(nt: array<Entry?<K, V>>, nc: array<nat>, ghost nr: Table<V, K>, e: Entry<K, V>)
        returns (ghost nr': Table<V, K>, ghost q: nat)
      requires LinkedTo(nt, nc, nr, entries, hash) && e in entries && nt != slots
      requires nc != ctrl && NoTombs(nr) && Count(IsFull(), nr) < |nr|
      modifies nt, nc
      ensures q < |nr| && Reaches(nr, hash(e.key), q) && nr[At(hash(e.key), q, |nr|)] == Nil
      ensures nr' == nr[At(hash(e.key), q, |nr|) := Full(e.value, e.key)]
      ensures LinkedTo(nt, nc, nr', entries, hash) && nt[..] == old(nt[..])[At(hash(e.key), q, |nr|) := e]
    {
      var n := nt.Length;
      ghost var h := hash(e.key);
      ghost var end := EndOfProbe(nr, h);
      hide NoTombs, Count;
      var i := Home(hash(e.key), n);
      q := 0;
      while nt[i] != null
        invariant 0 <= q <= end < n && Reaches(nr, h, q) && i == At(h, q, n)
        invariant LinkedTo(nt, nc, nr, entries, hash) && nt[..] == old(nt[..])
        decreases end - q
      {
        AtNext(h, q, n);
        i := Next(i, n);
        q := q + 1;
      }
      nt[i] := e;
      nc[i] := Fingerprint(hash(e.key));
      nr' := nr[i := Full(e.value, e.key)];
    }

    /** The first pass of resizeAt: what will be left, and whether any box has a limit. */
    method Recount(now: nat) returns (n: nat, bytes: nat, limits: bool)
      requires Linked()
      ensures n == Count(Kept(Keep(now)), table) && bytes == Total(KeptBytes(keySize, now), table)
      ensures limits <==> HasLimit(table)
    {
      n, bytes, limits := 0, 0, false;
      for i := 0 to slots.Length
        invariant n == Count(Kept(Keep(now)), table[..i]) && bytes == Total(KeptBytes(keySize, now), table[..i])
        invariant limits <==> HasLimit(table[..i])
      {
        assert table[..i + 1][..i] == table[..i];
        LimitSoFar(table, i);
        var e := slots[i];
        if e != null && e.value.Some? {
          var b := e.value.value;
          limits := limits || b.expiresAt > 0 || b.hits != 0;
          if !Expired(b, now) && b.hits >= 0 {
            n, bytes := n + 1, bytes + keySize(e.key);
          }
        }
      }
      assert table[..slots.Length] == table;
    }

    /** A rebuild has come to slot i: every entry object of the new array was in the old one, and
      * those of the old one that are worth keeping are in the new one. */
    static ghost predicate Carried(was: seq<Entry?<K, V>>, t: Table<V, K>, now: nat, i: nat, is_: seq<Entry?<K, V>>) {
      && i <= |t| == |was|
      && (forall j :: 0 <= j < |is_| && is_[j] != null ==> is_[j] in was)
      && (forall m :: 0 <= m < i && Kept(Keep(now))(t[m]) ==> was[m] != null && was[m] in is_)
    }

    static lemma CarriedOn(was: seq<Entry?<K, V>>, t: Table<V, K>, now: nat, i: nat, is_: seq<Entry?<K, V>>, j: nat)
      requires Carried(was, t, now, i, is_) && i < |t| && was[i] != null && j < |is_| && is_[j] == null
      ensures Carried(was, t, now, i + 1, is_[j := was[i]])
    {
      forall m | 0 <= m < i + 1 && Kept(Keep(now))(t[m]) ensures was[m] != null && was[m] in is_[j := was[i]] {
        if m < i {
          var p :| 0 <= p < |is_| && is_[p] == was[m];
          assert is_[j := was[i]][p] == was[m];
        } else {
          assert is_[j := was[i]][j] == was[m];
        }
      }
    }

    static lemma CarriedSkips(was: seq<Entry?<K, V>>, t: Table<V, K>, now: nat, i: nat, is_: seq<Entry?<K, V>>)
      requires Carried(was, t, now, i, is_) && i < |t| && !Kept(Keep(now))(t[i])
      ensures Carried(was, t, now, i + 1, is_)
    {
    }

    lemma NoneCarried(is_: seq<Entry?<K, V>>, now: nat)
      requires Linked() && forall j :: 0 <= j < |is_| ==> is_[j] == null
      ensures Carried(slots[..], table, now, 0, is_)
    {
    }

    /** The test of the second pass. */
    lemma KeptEntry(i: nat, now: nat)
      requires Linked() && i < slots.Length
      ensures Kept(Keep(now))(table[i])
        <==> slots[i] != null && slots[i].value.Some? && !Expired(slots[i].value.value, now)
             && slots[i].value.value.hits >= 0
    {
    }

    /** The second pass of resizeAt: move the entries worth keeping into the empty new table. */
    method Refill(now: nat, nt: array<Entry?<K, V>>, nc: array<nat>) returns (ghost nr: Table<V, K>)
      requires Linked() && NoTombs(table) && WellFormed(table, hash)
      requires nt != slots && nc != ctrl && LinkedTo(nt, nc, Empty(nt.Length), entries, hash)
      requires Count(Kept(Keep(now)), table) < nt.Length
      modifies nt, nc
      ensures LinkedTo(nt, nc, nr, entries, hash) && |nr| == nt.Length && HoldsKept(hash, table, Keep(now), nr)
      ensures Total(KeyBytes(keySize), nr) == Total(KeptBytes(keySize, now), table)
      ensures Carried(slots[..], table, now, |table|, nt[..])
    {
      nr := Empty(nt.Length);
      EmptyHolds<V, K>(hash, now, keySize, nt.Length);
      hide HoldsKept, NoTombs, WellFormed, Total, Count, Carried, Keep;
      NoneCarried(nt[..], now);
      assert table[..0] == [];
      for i := 0 to slots.Length
        invariant LinkedTo(nt, nc, nr, entries, hash)
        invariant FilledTo(hash, table, now, keySize, i, nr) && Carried(slots[..], table, now, i, nt[..])
      {
        nr := RefillOne(now, nt, nc, nr, i);
      }
      assert table[..slots.Length] == table;
    }

    /** Move the entry in slot i, if it is worth keeping. */
    method RefillOne(now: nat, nt: array<Entry?<K, V>>, nc: array<nat>, ghost nr: Table<V, K>, i: nat)
        returns (ghost nr': Table<V, K>)
      requires Linked() && NoTombs(table) && WellFormed(table, hash) && nt != slots && nc != ctrl && i < |table|
      requires LinkedTo(nt, nc, nr, entries, hash) && Count(Kept(Keep(now)), table) < nt.Length
      requires FilledTo(hash, table, now, keySize, i, nr) && Carried(slots[..], table, now, i, nt[..])
      modifies nt, nc
      ensures LinkedTo(nt, nc, nr', entries, hash)
      ensures FilledTo(hash, table, now, keySize, i + 1, nr') && Carried(slots[..], table, now, i + 1, nt[..])
    {
      hide HoldsKept, NoTombs, WellFormed, FilledTo, Total, Count, Carried, Keep;
      var e := slots[i];
      KeptEntry(i, now);
      if e != null && e.value.Some? && !Expired(e.value.value, now) && e.value.value.hits >= 0 {
        RoomForOne(hash, table, now, keySize, i, nr);
        ghost var before := nt[..];
        ghost var q;
        nr', q := InsertClone(nt, nc, nr, e);
        MovedOne(hash, table, now, keySize, i, nr, q);
        CarriedOn(slots[..], table, now, i, before, At(hash(e.key), q, |nr|));
      } else {
        nr' := nr;
        SkippedOne(hash, table, now, keySize, i, nr);
        CarriedSkips(slots[..], table, now, i, nt[..]);
      }
    }

    predicate ShouldResize()
      requires LoadFactor(loadFactor)
      reads this
    {
      used >= growAt || ShouldShrink(slots.Length, MIN_TABLE_SLOTS, live, loadFactor)
    }

    /** resizeAt, under the gate alone: rebuild if still worth it, or if forced. A rebuild recounts,
      * whatever the counters said before. */
    method ResizeAt(minLive: int, now: nat, force: bool) returns (rebuilt: bool)
      requires Core()
      modifies this`slots, this`ctrl, this`growAt, this`live, this`used, this`tombs, this`keyBytes, this`needsCleanup,
          this`table, this`dict
      ensures Valid() && (rebuilt || old(Exact()) ==> Exact())
      ensures rebuilt == (force || old(ShouldResize()))
      ensures rebuilt ==> fresh(slots) && fresh(ctrl) && |table| == slots.Length
      ensures rebuilt ==> Moved(old(table), table, now, old(slots.Length), old(used), old(tombs), minLive, force)
      ensures rebuilt ==> dict == Prune(old(dict), now) && tombs == 0 && used == live
      ensures rebuilt ==> Carried(old(slots[..]), old(table), now, |old(table)|, slots[..])
      ensures !rebuilt ==> unchanged(this)
    {
      hide Linked, Good, StatsOf, IsPowerOfTwo, Prune, Moved, Carried;
      rebuilt := force || ShouldResize();
      if rebuilt {
        Rebuild(minLive, now, force);
      }
    }

    /** What a rebuild makes of a table: exactly the entries worth keeping, counted, in the number of
      * slots that targetSlotCount asks for. */
    ghost predicate Moved(was: Table<V, K>, is_: Table<V, K>, now: nat, slots: nat, used: int, tombs: int,
        minLive: int, force: bool)
      requires LoadFactor(loadFactor)
    {
      && HoldsKept(hash, was, Keep(now), is_)
      && |is_| == TableSlots(TargetSlotCount(slots, used, tombs, MIN_TABLE_SLOTS,
           Max(Max(Count(Kept(Keep(now)), was), minLive), 1), loadFactor, force))
    }

    method NewTable(size: nat) returns (nt: array<Entry?<K, V>>, nc: array<nat>)
      ensures fresh(nt) && fresh(nc) && nt.Length == size && LinkedTo(nt, nc, Empty(size), entries, hash)
    {
      nt := new Entry?<K, V>[size](_ => null);
      nc := new nat[size](_ => 0);
    }

    /** The stores at the end of resizeAt, and of clear. */
    method Install(nt: array<Entry?<K, V>>, nc: array<nat>, ghost nr: Table<V, K>, ghost d: map<K, Cell<V>>, n: nat,
        bytes: nat, limits: bool)
      requires LinkedTo(nt, nc, nr, entries, hash) && Good(nr, hash, d, limits)
      requires Stats(n, n, 0, bytes) == StatsOf(nr, keySize)
      requires LoadFactor(loadFactor) && IsPowerOfTwo(nt.Length)
      requires nt.Length >= MIN_TABLE_SLOTS && n <= GrowAt(nt.Length, loadFactor)
      modifies this`slots, this`ctrl, this`growAt, this`live, this`used, this`tombs, this`keyBytes, this`needsCleanup,
          this`table, this`dict
      ensures Valid() && Exact() && slots == nt && ctrl == nc && table == nr && |table| == slots.Length
      ensures dict == d && tombs == 0 && used == live == n
    {
      hide Good, Count, Total, IsPowerOfTwo, GrowAt, CtrlWord;
      slots, ctrl, growAt, table := nt, nc, GrowAt(nt.Length, loadFactor), nr;
      SetCounters(Stats(n, n, 0, bytes), limits, d);
    }

    method Rebuild(minLive: int, now: nat, force: bool)
      requires Core()
      modifies this`slots, this`ctrl, this`growAt, this`live, this`used, this`tombs, this`keyBytes, this`needsCleanup,
          this`table, this`dict
      ensures Valid() && Exact() && fresh(slots) && fresh(ctrl) && |table| == slots.Length
      ensures Moved(old(table), table, now, old(slots.Length), old(used), old(tombs), minLive, force)
      ensures dict == Prune(old(dict), now) && tombs == 0 && used == live
      ensures Carried(old(slots[..]), old(table), now, |old(table)|, slots[..])
    {
      hide Carried, LinkedTo, WellFormed, Represents, FlagOk, NoTombs, StatsOf, HoldsKept, IsPowerOfTwo,
          TargetSlotCount,
          TableSlots, SlotsForEntries, GrowAt, Count, Total, Prune;
      var n, bytes, limits := Recount(now);
      var target := Max(Max(n, minLive), 1);
      var size := TableSlots(TargetSlotCount(slots.Length, used, tombs, MIN_TABLE_SLOTS, target, loadFactor, force));
      TargetIsSound(slots.Length, used, tombs, MIN_TABLE_SLOTS, target, loadFactor, force);
      var nt, nc := NewTable(size);
      ghost var nr := Refill(now, nt, nc);
      RebuiltGood(table, hash, dict, needsCleanup, now, nr, limits);
      RebuiltStats(table, hash, keySize, now, nr);
      Install(nt, nc, nr, Prune(dict, now), n, bytes, limits);
    }

    // -------------------------------------------------------------- one key

    /** Slot i holds k's entry, and the dictionary says what its box says. */
    ghost predicate Spot(i: nat, k: K)
      reads this`slots, this`ctrl, this`entries, this`dict, Repr()
    {
      && i < slots.Length && slots[i] != null && slots[i] in entries && slots[i].key == k
      && (slots[i].value.Some? <==> k in dict)
      && (slots[i].value.Some? ==> dict[k] == CellOf(slots[i].value.value))
    }

    /** A probe for k ended at the empty slot i. */
    ghost predicate Vacant(i: nat, k: K, q: nat)
      reads this`table
    {
      && Absent(table, k) && q < |table| && i == At(hash(k), q, |table|)
      && Reaches(table, hash(k), q) && table[i] == Nil
    }

    method Seek(k: K) returns (at: Option<nat>)
      requires Core()
      ensures at.Some? ==> Spot(at.value, k)
      ensures at == None ==> k !in dict
    {
      at := FindEntry(k);
      KeyIsSpot(table, dict, k, at);
    }

    method Locate(k: K) returns (found: bool, i: nat, ghost q: nat)
      requires Valid()
      ensures if found then Spot(i, k) else Vacant(i, k, q) && k !in dict
      ensures found ==> !Absent(table, k)
    {
      GrowAtBelowSlots(slots.Length, loadFactor);
      found, i, q := Probe(k);
      KeyIsSpot(table, dict, k, if found then Some(i) else None);
    }

    /** The rebuild after an insert that filled the table up. */
    method AfterInsert(now: nat)
      requires Core()
      modifies this
      ensures Valid() && (old(Exact()) ==> Exact()) && View(now) == old(View(now)) && fresh(Repr() - old(Repr()))
      ensures old(used < growAt) ==> unchanged(this)
    {
      PruneLater(dict, now, now);
      hide Core, Exact, Prune;
      if used >= growAt {
        var _ := ResizeAt(live + 1, now, false);
      }
    }

    /** The rebuild after any other change, when the table is full or much too large. */
    method AfterChange(now: nat)
      requires Core()
      modifies this
      ensures Valid() && (old(Exact()) ==> Exact()) && View(now) == old(View(now)) && fresh(Repr() - old(Repr()))
    {
      PruneLater(dict, now, now);
      var _ := ResizeAt(live, now, false);
    }

    /** replaceOrRevive: with nobody else writing, its retry loop takes at most two rounds. */
    method ReplaceOrRevive(i: nat, k: K, b: Box<V>, now: nat) returns (seen: Option<V>)
      requires Core() && Spot(i, k)
      modifies this`table, this`dict, this`needsCleanup, this`live, this`tombs, this`keyBytes, slots[i]
      ensures Core() && (old(Exact()) ==> Exact())
      ensures dict == old(dict)[k := CellOf(b)] && seen == Value(old(View(now)), k)
    {
      hide Core, Exact;
      var e := slots[i];
      if e.value.Some? {
        BoxIsCell(e.value.value, b.val, Plain, now);
        if Dead(e.value.value, now) {
          ClearEntry(i);
          assert (old(dict) - {k})[k := CellOf(b)] == old(dict)[k := CellOf(b)];
        }
      }
      if e.value == None {
        Revive(i, b);
        return None;
      }
      seen := Some(e.value.value.val);
      Replace(i, b);
    }

    /** A key without an entry, and a slot for it that does not fill the table up. */
    ghost predicate Room(k: K)
      reads this`table, this`used, this`growAt
    {
      Absent(table, k) && used + 1 < growAt
    }

    /** Without tombstones every key that the dictionary lacks has no entry. */
    lemma NewKey(k: K)
      requires Valid() && Exact() && tombs == 0 && k !in dict
      ensures Absent(table, k)
    {
      NoEntry(table, dict, k);
    }

    /** A key without an entry has taken a slot, and nothing else has happened. */
    ghost predicate AddedTo(d: map<K, Cell<V>>, u: int, gone: int, k: K, c: Cell<V>)
      reads this`dict, this`used, this`tombs
    {
      dict == d[k := c] && used == u + 1 && tombs == gone
    }

    /** store, storeNewBundle and swap. */
    method Put(k: K, b: Box<V>, now: nat) returns (seen: Option<V>)
      requires Valid()
      modifies this, Repr()
      ensures Valid() && (old(Exact()) ==> Exact()) && fresh(Repr() - old(Repr()))
      ensures View(now) == Prune(old(dict)[k := CellOf(b)], now) && seen == Value(old(View(now)), k)
      ensures old(Room(k)) ==> slots == old(slots) && growAt == old(growAt)
      ensures old(Room(k)) ==> AddedTo(old(dict), old(used), old(tombs), k, CellOf(b))
    {
      hide Core, Exact, Prune;
      var found, i, q := Locate(k);
      if found {
        seen := ReplaceOrRevive(i, k, b, now);
        AfterChange(now);
      } else {
        NotSeen(dict, k, now);
        Insert(i, k, b, q);
        AfterInsert(now);
        seen := None;
      }
    }

    /** Store: a value of the same type goes into the data word of a simple box; another box with no
      * expiry is replaced without the gate; anything else takes the slow path. */
    method Store(k: K, v: V, now: nat)
      requires Valid()
      modifies this, Repr()
      ensures Valid() && (old(Exact()) ==> Exact()) && fresh(Repr() - old(Repr()))
      ensures (View(now), Answer(None, true)) == Apply(valuesEqual, old(View(now)), now, Op.Store(k, v, Plain))
    {
      hide Core, Exact, Prune, Apply;
      BoxIsCell(NewBox(v, Plain, now), v, Plain, now);
      PutMeets(valuesEqual, dict, k, v, Plain, Value(View(now), k), now);
      var at := Seek(k);
      if at.Some? && slots[at.value].value.Some? {
        var b := slots[at.value].value.value;
        if IsSimple(b) && typeWord(b.val) == typeWord(v) && typeWord(v) != 0 {
          Replace(at.value, b.(val := v));
          return;
        }
        if b.expiresAt == 0 && b.hits >= 0 {
          Replace(at.value, NewBox(v, Plain, now));
          return;
        }
      }
      var _ := Put(k, NewBox(v, Plain, now), now);
    }

    method StoreWithOptions(k: K, v: V, opt: EntryOptions, now: nat)
      requires Valid()
      modifies this, Repr()
      ensures Valid() && (old(Exact()) ==> Exact()) && fresh(Repr() - old(Repr()))
      ensures (View(now), Answer(None, true)) == Apply(valuesEqual, old(View(now)), now, Op.Store(k, v, opt))
      ensures old(Room(k)) ==> slots == old(slots) && growAt == old(growAt)
      ensures old(Room(k)) ==> AddedTo(old(dict), old(used), old(tombs), k, NewCell(v, opt, now))
    {
      hide Valid, Prune, Apply;
      BoxIsCell(NewBox(v, opt, now), v, opt, now);
      PutMeets(valuesEqual, dict, k, v, opt, Value(View(now), k), now);
      var _ := Put(k, NewBox(v, opt, now), now);
    }

    /** consumeHit, once: the counter goes down to 1 and from there to -1, never to 0. */
    method ConsumeHit(i: nat, k: K) returns (exhausted: bool)
      requires Core() && Spot(i, k) && slots[i].value.Some? && slots[i].value.value.hits > 0
      modifies this`table, this`dict, this`live, this`tombs, this`keyBytes, this`needsCleanup, slots[i]
      ensures Core() && (old(Exact()) ==> Exact()) && Spot(i, k) && slots[i].value.Some?
      ensures var b := old(slots[i].value.value);
        exhausted == (b.hits == 1) && dict == old(dict)[k := CellOf(AfterHit(b))]
    {
      hide Core, Exact;
      var b := slots[i].value.value;
      var next := if b.hits - 1 == 0 then -1 else b.hits - 1;
      Replace(i, b.(hits := next));
      exhausted := next < 0;
    }

    /** The reads of a box with a limit: what is dead is cleared, and a last read clears too. */
    method ReadLimited(i: nat, k: K, now: nat) returns (r: Res<V>)
      requires Valid() && Spot(i, k) && slots[i].value.Some?
      modifies this, Repr()
      ensures Valid() && (old(Exact()) ==> Exact()) && fresh(Repr() - old(Repr()))
      ensures (View(now), r) == Apply(valuesEqual, old(View(now)), now, Op.Load(k))
    {
      hide Core, Exact, Apply, Prune;
      var b := slots[i].value.value;
      ReadMeets(valuesEqual, dict, k, now);
      BoxIsCell(b, b.val, Plain, now);
      BoxSeen(dict, k, b, now);
      if Dead(b, now) {
        DeadDrops(dict, k, now);
        ClearEntry(i);
        AfterChange(now);
        return Answer(None, false);
      }
      if b.hits == 0 {
        ConsumeFree(dict, k, b, now);
        return Answer(Some(b.val), true);
      }
      HitIsRead(dict, k, b, now);
      var exhausted := ConsumeHit(i, k);
      if exhausted {
        ClearEntry(i);
        AfterChange(now);
      }
      return Answer(Some(b.val), true);
    }

    method Load(k: K, now: nat) returns (r: Res<V>)
      requires Valid()
      modifies this, Repr()
      ensures Valid() && (old(Exact()) ==> Exact()) && fresh(Repr() - old(Repr()))
      ensures (View(now), r) == Apply(valuesEqual, old(View(now)), now, Op.Load(k))
    {
      hide Core, Exact, Apply, Prune;
      ReadMeets(valuesEqual, dict, k, now);
      var at := Seek(k);
      if at == None || slots[at.value].value == None {
        NotSeen(dict, k, now);
        return Answer(None, false);
      }
      var b := slots[at.value].value.value;
      if IsSimple(b) {
        BoxSeen(dict, k, b, now);
        ConsumeFree(dict, k, b, now);
        return Answer(Some(b.val), true);
      }
      r := ReadLimited(at.value, k, now);
    }

    method Peek(k: K, now: nat) returns (r: Res<V>)
      requires Valid()
      modifies this, Repr()
      ensures Valid() && (old(Exact()) ==> Exact()) && fresh(Repr() - old(Repr()))
      ensures (View(now), r) == Apply(valuesEqual, old(View(now)), now, Op.Peek(k))
    {
      hide Core, Exact, Apply, Prune;
      ReadMeets(valuesEqual, dict, k, now);
      var at := Seek(k);
      if at == None || slots[at.value].value == None {
        NotSeen(dict, k, now);
        return Answer(None, false);
      }
      var b := slots[at.value].value.value;
      BoxSeen(dict, k, b, now);
      if !Dead(b, now) {
        return Answer(Some(b.val), true);
      }
      if b.expiresAt != 0 {
        DeadDrops(dict, k, now);
        ClearEntry(at.value);
        AfterChange(now);
      }
      return Answer(None, false);
    }

    method Contains(k: K, now: nat) returns (r: bool)
      requires Valid()
      ensures (View(now), Answer(None, r)) == Apply(valuesEqual, View(now), now, Op.Contains(k))
    {
      hide Core, Exact, Apply, Prune;
      ReadMeets(valuesEqual, dict, k, now);
      var at := Seek(k);
      if at == None || slots[at.value].value == None {
        NotSeen(dict, k, now);
        return false;
      }
      BoxSeen(dict, k, slots[at.value].value.value, now);
      return !Dead(slots[at.value].value.value, now);
    }

    /** The locked part of delete, compareAndDelete and compareAndSwap up to the comparison: a dead
      * box is cleared and its value not seen. */
    method Examine(k: K, now: nat) returns (i: nat, seen: Option<V>)
      requires Valid()
      modifies this, Repr()
      ensures Valid() && (old(Exact()) ==> Exact()) && fresh(Repr() - old(Repr()))
      ensures View(now) == old(View(now)) && seen == Value(View(now), k)
      ensures seen.Some? ==> Spot(i, k) && slots[i].value.Some? && slots[i].value.value.val == seen.value
    {
      hide Core, Exact, Prune;
      var at := Seek(k);
      if at == None || slots[at.value].value == None {
        NotSeen(dict, k, now);
        return 0, None;
      }
      i := at.value;
      var b := slots[i].value.value;
      BoxSeen(dict, k, b, now);
      if Dead(b, now) {
        DeadDrops(dict, k, now);
        ClearEntry(i);
        AfterChange(now);
        return i, None;
      }
      return i, Some(b.val);
    }

    method Delete(k: K, now: nat) returns (r: Res<V>)
      requires Valid()
      modifies this, Repr()
      ensures Valid() && (old(Exact()) ==> Exact()) && fresh(Repr() - old(Repr()))
      ensures (View(now), r) == Apply(valuesEqual, old(View(now)), now, Op.Delete(k))
    {
      hide Core, Exact, Apply, Prune, CellOf, Value, Absent;
      var i, seen := Examine(k, now);
      DeleteMeets(valuesEqual, dict, k, seen, now);
      if seen == None {
        AbsentDrops(dict, k, now);
        return Answer(None, false);
      }
      ClearEntry(i);
      AfterChange(now);
      return Answer(seen, true);
    }

    method CompareAndDelete(k: K, o: V, now: nat) returns (r: bool)
      requires Valid()
      modifies this, Repr()
      ensures Valid() && (old(Exact()) ==> Exact()) && fresh(Repr() - old(Repr()))
      ensures (View(now), Answer(None, r)) == Apply(valuesEqual, old(View(now)), now, Op.CompareAndDelete(k, o))
    {
      hide Core, Exact, Apply, Prune, CellOf, Value, Absent;
      var i, seen := Examine(k, now);
      DeleteMeets(valuesEqual, dict, k, seen, now);
      if seen == None || !valuesEqual(seen.value, o) {
        return false;
      }
      ClearEntry(i);
      AfterChange(now);
      return true;
    }

    /** A simple box of the same type is updated in place, any other is replaced. */
    method PutOver(i: nat, k: K, n: V, opt: EntryOptions, now: nat)
      requires Core() && Spot(i, k) && slots[i].value.Some?
      modifies this`table, this`dict, this`needsCleanup, this`live, this`tombs, this`keyBytes, slots[i]
      ensures Core() && (old(Exact()) ==> Exact()) && dict == old(dict)[k := NewCell(n, opt, now)]
    {
      hide Core, Exact, CellOf, NewCell;
      var b, boxed := slots[i].value.value, NewBox(n, opt, now);
      BoxIsCell(boxed, n, opt, now);
      SimpleBoxes(b, n, opt, now);
      if IsSimple(b) && IsSimple(boxed) && typeWord(b.val) == typeWord(n) {
        Replace(i, b.(val := n));
      } else {
        Replace(i, boxed);
      }
    }

    method CompareAndSwap(k: K, o: V, n: V, opt: EntryOptions, now: nat) returns (r: bool)
      requires Valid()
      modifies this, Repr()
      ensures Valid() && (old(Exact()) ==> Exact()) && fresh(Repr() - old(Repr()))
      ensures (View(now), Answer(None, r)) == Apply(valuesEqual, old(View(now)), now, Op.CompareAndSwap(k, o, n, opt))
    {
      hide Core, Exact, Apply, Prune, CellOf, Value, Absent, NewCell;
      var i, seen := Examine(k, now);
      PutMeets(valuesEqual, dict, k, n, opt, seen, now);
      if seen == None || !valuesEqual(seen.value, o) {
        return false;
      }
      PutOver(i, k, n, opt, now);
      AfterChange(now);
      return true;
    }

    /** Swap: in place into a simple box of the same type, else like a store. */
    method Swap(k: K, v: V, opt: EntryOptions, now: nat) returns (r: Res<V>)
      requires Valid()
      modifies this, Repr()
      ensures Valid() && (old(Exact()) ==> Exact()) && fresh(Repr() - old(Repr()))
      ensures (View(now), r) == Apply(valuesEqual, old(View(now)), now, Op.Swap(k, v, opt))
    {
      hide Core, Exact, Apply, Prune;
      BoxIsCell(NewBox(v, opt, now), v, opt, now);
      PutMeets(valuesEqual, dict, k, v, opt, Value(View(now), k), now);
      if opt == Plain {
        var at := Seek(k);
        if at.Some? && slots[at.value].value.Some? {
          var b := slots[at.value].value.value;
          if IsSimple(b) && typeWord(b.val) == typeWord(v) && typeWord(v) != 0 {
            BoxSeen(dict, k, b, now);
            Replace(at.value, b.(val := v));
            return Answer(Some(b.val), true);
          }
        }
      }
      var seen := Put(k, NewBox(v, opt, now), now);
      return Answer(seen, seen.Some?);
    }

    /** A look without the gate at an entry without limits, else the gated half. */
    method LoadOrStore(k: K, v: V, opt: EntryOptions, now: nat) returns (r: Res<V>)
      requires Valid()
      modifies this, Repr()
      ensures Valid() && (old(Exact()) ==> Exact()) && fresh(Repr() - old(Repr()))
      ensures (View(now), r) == Apply(valuesEqual, old(View(now)), now, Op.LoadOrStore(k, v, opt))
    {
      hide Core, Exact, Apply, Prune;
      var at := Seek(k);
      if at.Some? && slots[at.value].value.Some? && IsSimple(slots[at.value].value.value) {
        BoxSeen(dict, k, slots[at.value].value.value, now);
        PutMeets(valuesEqual, dict, k, v, opt, Value(View(now), k), now);
        return Answer(Some(slots[at.value].value.value.val), true);
      }
      r := LoadOrStoreSlow(k, v, opt, now);
    }

    method LoadOrStoreSlow(k: K, v: V, opt: EntryOptions, now: nat) returns (r: Res<V>)
      requires Valid()
      modifies this, Repr()
      ensures Valid() && (old(Exact()) ==> Exact()) && fresh(Repr() - old(Repr()))
      ensures (View(now), r) == Apply(valuesEqual, old(View(now)), now, Op.LoadOrStore(k, v, opt))
    {
      hide Core, Exact, Apply, Prune, CellOf, Value, Absent, Reaches, NewBox, NewCell, IsSimple;
      var boxed := NewBox(v, opt, now);
      BoxIsCell(boxed, v, opt, now);
      PutMeets(valuesEqual, dict, k, v, opt, Value(View(now), k), now);
      var found, i, q := Locate(k);
      if !found {
        NotSeen(dict, k, now);
        Insert(i, k, boxed, q);
        AfterInsert(now);
        return Answer(Some(v), false);
      }
      var seen := LoadOrStoreCurrent(i, k, boxed, now);
      if seen.Some? {
        return Answer(seen, true);
      }
      AfterChange(now);
      return Answer(Some(v), false);
    }

    /** The checks on the entry found, and loadOrStoreCurrent: keep what is alive, revive what is not. */
    method LoadOrStoreCurrent(i: nat, k: K, b: Box<V>, now: nat) returns (seen: Option<V>)
      requires Core() && Spot(i, k)
      modifies this`table, this`dict, this`needsCleanup, this`live, this`tombs, this`keyBytes, slots[i]
      ensures Core() && (old(Exact()) ==> Exact()) && seen == Value(old(View(now)), k)
      ensures dict == if seen.Some? then old(dict) else old(dict)[k := CellOf(b)]
    {
      hide Core, Exact, Prune;
      var e := slots[i];
      NotSeenUnless(dict, k, now);
      if e.value.Some? {
        BoxSeen(dict, k, e.value.value, now);
        if !Dead(e.value.value, now) {
          return Some(e.value.value.val);
        }
        ClearEntry(i);
        assert (old(dict) - {k})[k := CellOf(b)] == old(dict)[k := CellOf(b)];
      }
      Revive(i, b);
      return None;
    }

    /** Skipped when no box has a limit, there are no tombstones and the table is not too large. */
    method CleanupNow(now: nat)
      requires Valid()
      modifies this, Repr()
      ensures Valid() && (old(Exact()) ==> Exact()) && fresh(Repr() - old(Repr()))
      ensures (View(now), Answer(None, true)) == Apply(valuesEqual, old(View(now)), now, Op.CleanupNow)
      ensures dict == View(now) && tombs == 0 && forall u: nat :: now <= u ==> View(u) == old(View(u))
      ensures old(Exact()) ==> forall i :: 0 <= i < |table| && table[i].Full? ==> Keep(now)(table[i])
    {
      forall u: nat | now <= u ensures Prune(Prune(dict, now), u) == Prune(dict, u) { PruneLater(dict, now, u); }
      if !needsCleanup && tombs == 0 && !ShouldShrink(slots.Length, MIN_TABLE_SLOTS, live, loadFactor) {
        CleanAlready(table, hash, dict, now);
        if Exact() { CleanTable(table, hash, dict, now); }
        return;
      }
      hide Core, Exact, Prune, Keep, HoldsKept;
      ghost var was := table;
      var _ := ResizeAt(live, now, true);
      OnlyKept(hash, was, now, table);
    }

    /** An empty table of the initial size. */
    method Clear(now: nat)
      requires Valid()
      modifies this, Repr()
      ensures Valid() && Exact() && fresh(Repr() - old(Repr())) && table == Empty(MIN_TABLE_SLOTS)
      ensures (View(now), Answer(None, true)) == Apply(valuesEqual, old(View(now)), now, Op.Clear)
    {
      InitialSlots();
      GrowAtBelowSlots(MIN_TABLE_SLOTS, loadFactor);
      var nt, nc := NewTable(TableSlots(MIN_TABLE_SLOTS));
      EmptyStats<V, K>(MIN_TABLE_SLOTS, keySize);
      EmptyGood<V, K>(MIN_TABLE_SLOTS, hash);
      hide Core, Exact, Good, StatsOf, IsPowerOfTwo, GrowAt, LinkedTo;
      Install(nt, nc, Empty(MIN_TABLE_SLOTS), map[], 0, 0, false);
    }

    /** The live counter: all entries with a box. Expired ones count until something clears them. */
    method Len(now: nat) returns (n: int)
      requires Valid()
      ensures n == live
      ensures Exact() ==> n == |dict| && (n == |View(now)| <==> View(now) == dict)
    {
      LiveCountsKeys(table);
      PrunedIsSmaller(dict, now);
      return live;
    }

    // -------------------------------------------------------------- Range

    /** The arrays that a scan started with, from slot i on: nobody has touched those entries yet. */
    ghost predicate Unscanned(oslots: array<Entry?<K, V>>, octrl: array<nat>, t: Table<V, K>, i: nat)
      reads this`entries, oslots, octrl, entries
    {
      && |t| == oslots.Length == octrl.Length
      && (forall j :: 0 <= j < |t| ==> octrl[j] == CtrlWord(hash, t[j]))
      && (forall j :: 0 <= j < |t| ==> (oslots[j] == null <==> t[j].Nil?))
      && (forall j :: i <= j < |t| && oslots[j] != null ==>
            oslots[j] in entries && t[j] == Full(oslots[j].value, oslots[j].key))
    }

    /** Where the shard stands against the table that is being scanned: still the same table with its
      * dead entries up to slot i cleared, or rebuilt, and then only entries alive are left, and the
      * counters are exact if and only if the live counter is. */
    ghost predicate Follows(oslots: array<Entry?<K, V>>, octrl: array<nat>, from: Origin<V, K>, now: nat, i: nat)
      requires i <= |from.t|
      reads this, Repr()
    {
      if slots == oslots then ctrl == octrl && table == Swept(from.t, now, i) && (from.exact ==> Exact())
      else OnlyAlive(table, from.t, now) && used == from.Alive(now) >= live && (Exact() <==> live == used)
    }

    /** The numbers are what the m dead entries met so far make of them. */
    ghost predicate CountsFollow(oslots: array<Entry?<K, V>>, from: Origin<V, K>, now: nat, m: nat)
      requires LoadFactor(loadFactor)
      reads this, Repr()
    {
      && Tally(slots.Length, used, live, tombs) == Sweep(m, from.c, from.Alive(now), loadFactor)
      && (slots == oslots <==> !Rebuilt(m, from.c, from.Alive(now), loadFactor))
    }

    /** A scan has come to slot i. */
    ghost predicate Scan(oslots: array<Entry?<K, V>>, octrl: array<nat>, from: Origin<V, K>, now: nat, i: nat)
      reads this, Repr(), oslots, octrl
    {
      && i <= |from.t| && Core() && used <= growAt && Good(from.t, hash, from.d, true)
      && Prune(dict, now) == Prune(from.d, now)
      && Unscanned(oslots, octrl, from.t, i) && Follows(oslots, octrl, from, now, i)
      && CountsFollow(oslots, from, now, from.DeadUpTo(now, i))
    }

    /** Between the clearing of the dead entry in slot i and the check for a rebuild. */
    ghost predicate JustCleared(oslots: array<Entry?<K, V>>, octrl: array<nat>, from: Origin<V, K>, now: nat, i: nat)
      reads this, Repr(), oslots, octrl
    {
      && i < |from.t| && IsDead(now)(from.t[i]) && Core() && used <= growAt && Good(from.t, hash, from.d, true)
      && Prune(dict, now) == Prune(from.d, now)
      && Unscanned(oslots, octrl, from.t, i + 1) && Follows(oslots, octrl, from, now, i + 1)
      && var m, alive := from.DeadUpTo(now, i), from.Alive(now);
      && Tally(slots.Length, used, live, tombs) == Cleared(Sweep(m, from.c, alive, loadFactor))
      && (slots == oslots <==> !Rebuilt(m, from.c, alive, loadFactor))
    }

    /** clearIfMatch on the dead entry in slot i. */
    method ClearInScan(e: Entry<K, V>, ghost oslots: array<Entry?<K, V>>, ghost octrl: array<nat>,
        ghost from: Origin<V, K>, now: nat, ghost i: nat)
      requires Scan(oslots, octrl, from, now, i) && i < |from.t| && oslots[i] == e && IsDead(now)(from.t[i])
      modifies this`table, this`dict, this`live, this`tombs, this`keyBytes, this`needsCleanup, e
      ensures JustCleared(oslots, octrl, from, now, i)
    {
      hide WellFormed, Represents, FlagOk, NoTombs, StatsOf, Count, Total, IsPowerOfTwo, Sweep, Rebuilt, GrowAt, Prune;
      ghost var at := if slots == oslots then Some(i) else None;
      UniqueSlots(from.t, hash, i);
      SweptOn(from.t, now, i);
      if at.Some? {
        DeadKey(table, dict, i, now);
      } else {
        AllAliveStats(table, from.t, now, keySize);
      }
      ClearIfMatch(e, at);
    }

    /** maybeResize. */
    method ResizeInScan(ghost oslots: array<Entry?<K, V>>, ghost octrl: array<nat>, ghost from: Origin<V, K>,
        now: nat, ghost i: nat)
      requires JustCleared(oslots, octrl, from, now, i)
      modifies this
      ensures Scan(oslots, octrl, from, now, i + 1) && entries == old(entries)
      ensures fresh({slots} - {old(slots)}) && fresh({ctrl} - {old(ctrl)})
    {
      hide Linked, Good, Unscanned, Swept, IsPowerOfTwo, TargetSlotCount, TableSlots, ShouldShrink, GrowAt,
          HoldsKept, OnlyAlive, Prune, Carried, StatsOf, Total;
      assert from.t[..i + 1][..i] == from.t[..i];
      assert from.DeadUpTo(now, i + 1) == from.DeadUpTo(now, i) + 1;
      PruneLater(dict, now, now);
      ghost var was := table;
      var rebuilt := ResizeAt(live, now, false);
      if rebuilt {
        RebuiltInScan(hash, was, from.t, now, i + 1, table);
      }
    }

    /** A slot without a dead entry changes nothing. */
    lemma PassSlot(oslots: array<Entry?<K, V>>, octrl: array<nat>, from: Origin<V, K>, now: nat, i: nat)
      requires Scan(oslots, octrl, from, now, i) && i < |from.t| && !IsDead(now)(from.t[i])
      ensures Scan(oslots, octrl, from, now, i + 1)
    {
      hide Core, Good, Exact, Sweep, Rebuilt, Prune;
      SweptOn(from.t, now, i);
      assert from.t[..i + 1][..i] == from.t[..i];
    }

    /** The body of the scan loops: the pair in slot i, if one is to be shown. */
    method ScanSlot(oslots: array<Entry?<K, V>>, octrl: array<nat>, ghost from: Origin<V, K>, now: nat, i: nat)
      returns (pair: Option<(K, V)>)
      requires Scan(oslots, octrl, from, now, i) && i < |from.t|
      modifies this, entries
      ensures Scan(oslots, octrl, from, now, i + 1) && entries == old(entries)
      ensures fresh({slots} - {old(slots)}) && fresh({ctrl} - {old(ctrl)})
      ensures pair == if Kept(Keep(now))(from.t[i]) then Some((from.t[i].key, from.t[i].ref.value.val)) else None
    {
      hide Core, Follows, CountsFollow, Good, Sweep, Rebuilt, Prune;
      pair := None;
      if octrl[i] == 0 || oslots[i] == null || oslots[i].value == None {
        PassSlot(oslots, octrl, from, now, i);
        return;
      }
      var e := oslots[i];
      var b := e.value.value;
      if !Dead(b, now) {
        PassSlot(oslots, octrl, from, now, i);
        return Some((e.key, b.val));
      }
      ClearInScan(e, oslots, octrl, from, now, i);
      ResizeInScan(oslots, octrl, from, now, i);
    }

    /** ctrlAllZero8. */
    predicate AllZero8(octrl: array<nat>, i: nat)
      requires i + 8 <= octrl.Length
      reads octrl
    {
      && octrl[i] == 0 && octrl[i + 1] == 0 && octrl[i + 2] == 0 && octrl[i + 3] == 0
      && octrl[i + 4] == 0 && octrl[i + 5] == 0 && octrl[i + 6] == 0 && octrl[i + 7] == 0
    }

    lemma EmptySlot(oslots: array<Entry?<K, V>>, octrl: array<nat>, from: Origin<V, K>, now: nat, i: nat, j: nat)
      requires Scan(oslots, octrl, from, now, i) && j < |from.t| && octrl[j] == 0
      ensures !IsDead(now)(from.t[j]) && !Kept(Keep(now))(from.t[j])
    {
      hide Core, Follows, CountsFollow, Good, Exact, Prune;
    }

    /** A run of empty slots can be skipped. */
    lemma {:induction false} PassRun(oslots: array<Entry?<K, V>>, octrl: array<nat>, from: Origin<V, K>, now: nat,
        i: nat, n: nat)
      requires Scan(oslots, octrl, from, now, i) && i + n <= |from.t| == octrl.Length
      requires forall j :: i <= j < i + n ==> octrl[j] == 0
      ensures Scan(oslots, octrl, from, now, i + n) && Pairs(from.t[..i + n], now) == Pairs(from.t[..i], now)
    {
      hide Scan, Pairs;
      if n > 0 {
        PassRun(oslots, octrl, from, now, i, n - 1);
        EmptySlot(oslots, octrl, from, now, i, i + n - 1);
        PassSlot(oslots, octrl, from, now, i + n - 1);
        PairsSkip(from.t, now, i + n - 1);
      }
    }

    /** Show the pair of slot i, if there is one. */
    method VisitSlot(more: seq<(K, V)> -> bool, ghost seen: seq<(K, V)>, before: seq<(K, V)>,
        oslots: array<Entry?<K, V>>, octrl: array<nat>,
      ghost from: Origin<V, K>, now: nat, i: nat)
      returns (visited: seq<(K, V)>, go: bool)
      requires Scan(oslots, octrl, from, now, i) && i < |from.t|
      requires Visit(more, seen, Pairs(from.t[..i], now)) == (before, true)
      modifies this, entries
      ensures Scan(oslots, octrl, from, now, i + 1) && entries == old(entries)
      ensures fresh({slots} - {old(slots)}) && fresh({ctrl} - {old(ctrl)})
      ensures Visit(more, seen, Pairs(from.t[..i + 1], now)) == (visited, go)
    {
      hide Scan;
      VisitNext(more, seen, before, from.t, now, i);
      visited, go := before, true;
      var pair := ScanSlot(oslots, octrl, from, now, i);
      if pair.Some? {
        visited := visited + [pair.value];
        go := more(visited);
      }
    }

    /** The slots from i up to end, or to the first no. */
    method VisitRun(more: seq<(K, V)> -> bool, ghost seen: seq<(K, V)>, before: seq<(K, V)>,
        oslots: array<Entry?<K, V>>, octrl: array<nat>,
      ghost from: Origin<V, K>, now: nat, i: nat, end: nat)
      returns (visited: seq<(K, V)>, go: bool, j: nat)
      requires Scan(oslots, octrl, from, now, i) && i <= end <= |from.t|
      requires Visit(more, seen, Pairs(from.t[..i], now)) == (before, true)
      modifies this, entries
      ensures i <= j <= end && (go ==> j == end) && (i < end ==> i < j)
      ensures Scan(oslots, octrl, from, now, j) && entries == old(entries)
      ensures fresh({slots} - {old(slots)}) && fresh({ctrl} - {old(ctrl)})
      ensures Visit(more, seen, Pairs(from.t[..j], now)) == (visited, go)
    {
      hide Scan, Visit, Pairs;
      visited, go, j := before, true, i;
      while j < end && go
        invariant i <= j <= end && (go || i < j) && Scan(oslots, octrl, from, now, j) && entries == old(entries)
        invariant fresh({slots} - {old(slots)}) && fresh({ctrl} - {old(ctrl)})
        invariant Visit(more, seen, Pairs(from.t[..j], now)) == (visited, go)
        decreases end - j
      {
        visited, go := VisitSlot(more, seen, visited, oslots, octrl, from, now, j);
        j := j + 1;
      }
    }

    /** The loops of rangeShardSequential: eight slots at a time, or none of eight, then the rest. */
    method VisitTable(more: seq<(K, V)> -> bool, seen: seq<(K, V)>, oslots: array<Entry?<K, V>>, octrl: array<nat>,
      ghost from: Origin<V, K>, now: nat)
      returns (visited: seq<(K, V)>, go: bool, i: nat)
      requires Scan(oslots, octrl, from, now, 0) && oslots.Length == octrl.Length == |from.t|
      modifies this, entries
      ensures i <= |from.t| && (go ==> i == |from.t|) && Scan(oslots, octrl, from, now, i) && entries == old(entries)
      ensures fresh({slots} - {old(slots)}) && fresh({ctrl} - {old(ctrl)})
      ensures (visited, go) == Visit(more, seen, Pairs(from.t, now))
    {
      hide Scan, Visit, Pairs;
      VisitStarts(more, seen, from.t, now);
      visited, go, i := seen, true, 0;
      var n := oslots.Length;
      while i + 8 <= n && go
        invariant i <= n && Scan(oslots, octrl, from, now, i) && entries == old(entries)
        invariant fresh({slots} - {old(slots)}) && fresh({ctrl} - {old(ctrl)})
        invariant Visit(more, seen, Pairs(from.t[..i], now)) == (visited, go)
        decreases n - i
      {
        if AllZero8(octrl, i) {
          PassRun(oslots, octrl, from, now, i, 8);
          i := i + 8;
        } else {
          visited, go, i := VisitRun(more, seen, visited, oslots, octrl, from, now, i, i + 8);
        }
      }
      if go {
        visited, go, i := VisitRun(more, seen, visited, oslots, octrl, from, now, i, n);
      }
      VisitStops(more, seen, from.t, now, i);
    }

    /** What a scan up to slot `upto` leaves of the counters: what the dead entries it met make of
      * them. If they were exact, they still are if and only if the last of those entries, or none,
      * made the scan rebuild the shard; after a whole scan Len is right in just that case. */
    ghost predicate CountersAfter(from: Origin<V, K>, now: nat, upto: nat)
      reads this, Repr()
    {
      && LoadFactor(loadFactor) && upto <= |from.t|
      && Tally(slots.Length, used, live, tombs) == Sweep(from.DeadUpTo(now, upto), from.c, from.Alive(now), loadFactor)
      && (from.exact ==> (Exact() <==> StaysExact(from.DeadUpTo(now, upto), from.c, from.Alive(now), loadFactor)))
      && (from.exact && upto == |from.t| ==> (live == |View(now)| <==> Exact()))
    }

    /** The shard as a scan finds it. */
    ghost function Start(): Origin<V, K>
      reads this
    {
      Origin(table, dict, Tally(slots.Length, used, live, tombs), Exact())
    }

    /** rangeShardSequential, on a shard that nobody else uses: it visits what the plain scan of the
      * table visits, cut at the first no, and changes nothing a caller can see. The counters it
      * leaves exact only under a condition. */
    method RangeShard(more: seq<(K, V)> -> bool, seen: seq<(K, V)>, now: nat)
      returns (visited: seq<(K, V)>, go: bool, ghost upto: nat)
      requires Valid()
      modifies this, Repr()
      ensures Valid() && View(now) == old(View(now)) && fresh(Repr() - old(Repr()))
      ensures (visited, go) == Visit(more, seen, Pairs(old(table), now))
      ensures upto <= |old(table)| && (go ==> upto == |old(table)|)
      ensures CountersAfter(old(Start()), now, upto)
    {
      ghost var from := Start();
      StartScan(now);
      hide Valid, Scan, Core, Exact, Visit, Pairs, CountersAfter, Prune;
      var i: nat;
      visited, go, i := VisitTable(more, seen, slots, ctrl, from, now);
      upto := i;
      StopScan(old(slots), old(ctrl), from, now, i);
    }

    lemma StartScan(now: nat)
      requires Valid()
      ensures Scan(slots, ctrl, Start(), now, 0) && |table| == slots.Length == ctrl.Length
      ensures Exact() ==> live == Start().Alive(now) + Start().DeadUpTo(now, |table|)
    {
      SetFlag(table, hash, dict, needsCleanup);
      SweptNone(table, now);
      LiveIsAliveOrDead(table, now);
      assert table[..|table|] == table;
    }

    lemma StopScan(oslots: array<Entry?<K, V>>, octrl: array<nat>, from: Origin<V, K>, now: nat, i: nat)
      requires Scan(oslots, octrl, from, now, i)
      requires from.exact ==> from.c.live == from.Alive(now) + from.DeadUpTo(now, |from.t|)
      ensures i <= |from.t| && Valid() && Prune(dict, now) == Prune(from.d, now) && CountersAfter(from, now, i)
    {
      assert from.t[..|from.t|] == from.t;
      CountPrefix(IsDead(now), from.t, i);
      hide Trigger, Rebuilt, Sweep, Good, Linked, Follows, Unscanned, Exact, GrowAt, IsPowerOfTwo, Prune, IsDead,
          Keep, StaysExact;
      AliveCountsView(from.t, from.d, now);
      if from.exact {
        ExactAfterScan(from.DeadUpTo(now, i), from.c, from.Alive(now), loadFactor);
        if i == |from.t| { LiveAfterScan(from.DeadUpTo(now, i), from.c, from.Alive(now), loadFactor); }
      }
    }

    /** Any operation meets the specification at the time it runs. */
    method Do(now: nat, op: Op<K, V>) returns (r: Res<V>)
      requires Valid() && !op.Compute?
      modifies this, Repr()
      ensures Valid() && used <= growAt && (old(Exact()) ==> Exact()) && fresh(Repr() - old(Repr()))
      ensures (View(now), r) == Apply(valuesEqual, old(View(now)), now, op)
    {
      hide Core, Exact, Apply, Prune;
      r := Answer(None, true);
      match op {
        case Load(k) => r := Load(k, now);
        case Peek(k) => r := Peek(k, now);
        case Contains(k) => var ok := Contains(k, now); r := Answer(None, ok);
        case Store(k, v, opt) => if opt == Plain { Store(k, v, now); } else { StoreWithOptions(k, v, opt, now); }
        case Delete(k) => r := Delete(k, now);
        case LoadOrStore(k, v, opt) => r := LoadOrStore(k, v, opt, now);
        case Swap(k, v, opt) => r := Swap(k, v, opt, now);
        case CompareAndSwap(k, o, n, opt) => var ok := CompareAndSwap(k, o, n, opt, now); r := Answer(None, ok);
        case CompareAndDelete(k, o) => var ok := CompareAndDelete(k, o, now); r := Answer(None, ok);
        case CleanupNow => CleanupNow(now);
        case Clear => Clear(now);
      }
    }

    /** After i operations of a run the shard stands where the dictionary stands. */
    ghost predicate OnTrack(ops: seq<(nat, Op<K, V>)>, i: nat, answers: seq<Res<V>>)
      requires i <= |ops|
      reads this
    {
      && answers == Run(valuesEqual, map[], ops[..i]).1
      && (i < |ops| ==> View(ops[i].0) == Prune(Run(valuesEqual, map[], ops[..i]).0, ops[i].0))
    }

    method DoNext(ops: seq<(nat, Op<K, V>)>, i: nat, answers: seq<Res<V>>) returns (answers': seq<Res<V>>)
      requires Valid() && i < |ops| && !ops[i].1.Compute? && OnTrack(ops, i, answers)
      requires i + 1 < |ops| ==> ops[i].0 <= ops[i + 1].0
      modifies this, Repr()
      ensures Valid() && used <= growAt && (old(Exact()) ==> Exact())
      ensures fresh(Repr() - old(Repr())) && OnTrack(ops, i + 1, answers')
    {
      hide Valid, Run, Apply, Prune;
      var (now, op) := ops[i];
      ghost var before := View(now);
      var r := Do(now, op);
      RunStep(valuesEqual, ops, i, before, View(now), r);
      answers' := answers + [r];
      if i + 1 < |ops| {
        PruneLater(dict, now, ops[i + 1].0);
      }
    }

    method DoAll(ops: seq<(nat, Op<K, V>)>) returns (answers: seq<Res<V>>)
      requires Valid() && Exact() && OnTrack(ops, 0, [])
      requires forall i :: 0 <= i < |ops| ==> !ops[i].1.Compute?
      requires forall i, j :: 0 <= i < j < |ops| ==> ops[i].0 <= ops[j].0
      modifies this, Repr()
      ensures Valid() && Exact() && fresh(Repr() - old(Repr()))
      ensures answers == Run(valuesEqual, map[], ops).1
    {
      hide Valid, Exact, Run, Apply, Prune;
      answers := [];
      for i := 0 to |ops|
        invariant fresh(Repr() - old(Repr())) && Valid() && Exact() && OnTrack(ops, i, answers)
      {
        answers := DoNext(ops, i, answers);
      }
      assert ops[..|ops|] == ops;
    }
  }

  /** Every sequential run of a new shard, with a clock that does not go back, answers what the
    * dictionary answers, which is what the calls before and their answers call for, and leaves a
    * shard with exact counters that is no fuller than growAt. */
  method RunShard<K(==), V>(hash: K -> nat, keySize: K -> nat, typeWord: V -> nat, valuesEqual: (V, V) -> bool,
    loadFactor: real, capacity: int, ops: seq<(nat, Op<K, V>)>) returns (answers: seq<Res<V>>, shard: Shard<K, V>)
    requires LoadFactor(loadFactor)
    requires forall i :: 0 <= i < |ops| ==> !ops[i].1.Compute?
    requires Rising(ops)
    ensures answers == Run(valuesEqual, map[], ops).1 && Explained(valuesEqual, ops, answers)
    ensures fresh(shard) && shard.Valid() && shard.Exact()
  {
    RunIsExplained(valuesEqual, ops, Run(valuesEqual, map[], ops).1);
    hide Shard.Valid, Shard.Exact, Run, Apply, Prune, Explained;
    shard := new Shard<K, V>(hash, keySize, typeWord, valuesEqual, loadFactor, capacity);
    EmptyRun(valuesEqual, ops);
    answers := shard.DoAll(ops);
  }

  // ---------------------------------------------------------------- what Len may say

  /** A shard made with room for 60 entries, at the time when the two entries stored in it expire. */
  method TwoExpired<K(==), V>(hash: K -> nat, keySize: K -> nat, typeWord: V -> nat, valuesEqual: (V, V) -> bool,
    loadFactor: real, a: K, b: K, v: V, ttl: nat) returns (shard: Shard<K, V>)
    requires LoadFactor(loadFactor) && a != b && ttl > 0
    ensures fresh(shard) && fresh(shard.Repr()) && shard.Valid() && shard.Exact() && |shard.dict| == 2
    ensures shard.View(ttl) == map[] && shard.Start().c == Tally(128, 2, 2, 0) && shard.loadFactor == loadFactor
  {
    hide Prune, GrowAt, SlotsForEntries, Shard.Core, Shard.Exact, Count;
    RoomForSixty(loadFactor);
    shard := new Shard<K, V>(hash, keySize, typeWord, valuesEqual, loadFactor, 60);
    shard.NewKey(a);
    shard.StoreWithOptions(a, v, EntryOptions(ttl, 0), 0);
    shard.NewKey(b);
    shard.StoreWithOptions(b, v, EntryOptions(ttl, 0), 0);
    TwoCells(a, b, v, ttl);
    AllLive(shard);
  }

  lemma TwoCells<K, V>(a: K, b: K, v: V, ttl: nat)
    requires a != b && ttl > 0
    ensures var c := NewCell(v, EntryOptions(ttl, 0), 0);
      var d := map[a := c, b := c]; |d| == 2 && Prune(d, ttl) == map[]
  {
    var c := NewCell(v, EntryOptions(ttl, 0), 0);
    assert map[a := c, b := c].Keys == {a, b};
  }

  lemma AllLive<K, V>(shard: Shard<K, V>)
    requires shard.Valid() && shard.Exact()
    ensures shard.live == |shard.dict|
  {
    LiveCountsKeys(shard.table);
  }

  lemma RoomForSixty(lf: real)
    requires LoadFactor(lf)
    ensures SlotsForEntries(60, lf) == 128 && GrowAt(128, lf) > 2
  {
    assert ShiftLeft(6) == 64 && ShiftLeft(7) == 128;
    var q := 60.0 / lf;
    QuotientBounds(q, lf);
    CeilBounds(q);
    var n := Ceil(q);
    NextPowerOfTwoIsLeast(n);
    PowerOfTwoDoubles(64, NextPowerOfTwo(n));
    GrowAtBounds(3, 128, lf);
  }

  lemma QuotientBounds(q: real, lf: real)
    requires LoadFactor(lf) && q == 60.0 / lf
    ensures 64.0 < q <= 120.0
  {
    assert q * lf == 60.0;
    if q <= 64.0 { MultiplyMonotone(q, 64.0, lf); }
    if q > 120.0 { MultiplyMonotone(120.0, q, lf); }
  }

  /** A run after which Len is 2 and the map is empty: nothing has cleared the two expired entries. */
  method LenOfExpired<K(==), V>(hash: K -> nat, keySize: K -> nat, typeWord: V -> nat, valuesEqual: (V, V) -> bool,
    loadFactor: real, a: K, b: K, v: V, ttl: nat) returns (shard: Shard<K, V>, n: int)
    requires LoadFactor(loadFactor) && a != b && ttl > 0
    ensures n == 2 && shard.View(ttl) == map[]
  {
    shard := TwoExpired(hash, keySize, typeWord, valuesEqual, loadFactor, a, b, v, ttl);
    n := shard.Len(ttl);
  }

  /** A run after which Len is -1: Range meets the two expired entries, and clears one of them a
    * second time after its rebuild has dropped it. */
  method LenAfterRange<K(==), V>(hash: K -> nat, keySize: K -> nat, typeWord: V -> nat, valuesEqual: (V, V) -> bool,
    loadFactor: real, a: K, b: K, v: V, ttl: nat) returns (shard: Shard<K, V>, n: int)
    requires LoadFactor(loadFactor) && a != b && ttl > 0
    ensures n == -1 && shard.View(ttl) == map[]
  {
    shard := TwoExpired(hash, keySize, typeWord, valuesEqual, loadFactor, a, b, v, ttl);
    LenCanGoNegative(loadFactor);
    VisitAll((_: seq<(K, V)>) => true, [], Pairs(shard.table, ttl));
    AllDead(shard, ttl);
    hide Shard.Valid, Shard.Exact, Visit, Pairs, Trigger, Sweep, Prune, StaysExact;
    var _, _, _ := shard.RangeShard((_: seq<(K, V)>) => true, [], ttl);
    n := shard.Len(ttl);
  }

  lemma AllDead<K, V>(shard: Shard<K, V>, now: nat)
    requires shard.Valid() && shard.Exact() && shard.View(now) == map[]
    ensures shard.Start().Alive(now) == 0 && shard.Start().DeadUpTo(now, |shard.table|) == shard.live
  {
    AliveCountsView(shard.table, shard.dict, now);
    LiveIsAliveOrDead(shard.table, now);
    assert shard.table[..|shard.table|] == shard.table;
  }
}
