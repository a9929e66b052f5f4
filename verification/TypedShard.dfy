/** One shard of `TypedMap`, sequentially: its table, its entries, and every operation on them.
  *
  * The shard is an object whose slots, counters, entry words and metadata change in place. Its
  * ghost dictionary has a cell for every entry in the table, dead ones included; what a caller
  * sees at a time is that dictionary pruned to the time.
  */
module TypedShard {
  import opened Options
  import opened Probe
  import opened Sizing
  import opened Dictionary
  import opened History

  /** typedMeta: expireAt 0 means no expiry; `hits` counts down and may pass below zero. */
  datatype Meta = Meta(expireAt: nat, hitLimited: bool, hits: int)

  predicate DeadForView(md: Option<Meta>, now: nat) {
    md.Some? && ((md.value.expireAt != 0 && now >= md.value.expireAt) || (md.value.hitLimited && md.value.hits <= 0))
  }

  function NewMeta(opt: EntryOptions, now: nat): Option<Meta> {
    if opt.ttl <= 0 && opt.hits <= 0 then None
    else Some(Meta(if opt.ttl > 0 then now + opt.ttl else 0, opt.hits > 0, if opt.hits > 0 then opt.hits else 0))
  }

  function CellOf<V>(val: V, md: Option<Meta>): Cell<V> {
    Cell(val,
         if md.Some? && md.value.expireAt != 0 then Some(md.value.expireAt) else None,
         if md.Some? && md.value.hitLimited then Some(Max(md.value.hits, 0)) else None)
  }

  /** The encoding in the entry says what the dictionary's cell says. */
  lemma MetaIsCell<V>(val: V, md: Option<Meta>, opt: EntryOptions, now: nat)
    ensures DeadForView(md, now) <==> !Alive(CellOf(val, md), now)
    ensures CellOf(val, NewMeta(opt, now)) == NewCell(val, opt, now)
  {
  }

  class Entry<V> {
    var val: V
    var meta: Option<Meta>

    constructor (v: V, md: Option<Meta>)
      ensures val == v && meta == md
    {
      val, meta := v, md;
    }
  }

  /** What an entry's fields hold. */
  datatype Word<+V> = Word(val: V, meta: Option<Meta>)

  ghost function KeysIn<R, K>(s: seq<Slot<R, K>>): set<K> {
    set i | 0 <= i < |s| && s[i].Full? :: s[i].key
  }

  class Shard<K(==), V(==)> {
    const hash: K -> nat
    var slots: array<Slot<Entry<V>, K>>
    var count: int
    var tombs: int
    var hasMeta: bool

    /** The entries ever made for this table, with what their fields hold. */
    ghost var words: map<Entry<V>, Word<V>>
    ghost var dict: map<K, Cell<V>>
    /** Old slots scanned by growLocked, and inserts that used up a nil slot, since the start. */
    ghost var scanned: nat
    ghost var nilInserts: nat

    /** The table works, the counters are exact, and there is always a nil left. */
    ghost predicate TableOk()
      reads this, slots
    {
      && WellFormed(slots[..], hash)
      && IsPowerOfTwo(slots.Length) && slots.Length >= 8
      && count == Count(IsFull(), slots[..]) && tombs == Count(IsTomb(), slots[..])
    }

    /** Each key of the dictionary has its own entry, in exactly one slot, and the hasMeta flag is
      * set whenever an entry in the table carries metadata. */
    static ghost predicate Holds(s: seq<Slot<Entry<V>, K>>, d: map<K, Cell<V>>, words: map<Entry<V>, Word<V>>,
        hasMeta: bool) {
      && (forall i :: 0 <= i < |s| && s[i].Full? ==>
            && s[i].ref in words && s[i].key in d
            && d[s[i].key] == CellOf(words[s[i].ref].val, words[s[i].ref].meta)
            && (!hasMeta ==> words[s[i].ref].meta == None))
      && (forall i, j :: 0 <= i < j < |s| && s[i].Full? && s[j].Full? ==> s[i].ref != s[j].ref)
      && d.Keys == KeysIn(s)
    }

    ghost predicate DictOk()
      reads this, slots, words.Keys
    {
      && Holds(slots[..], dict, words, hasMeta)
      && (forall e :: e in words ==> words[e] == Word(e.val, e.meta))
    }

    ghost predicate BoundsOk()
      reads this, slots
    {
      && 4 * (count + tombs) < 3 * slots.Length
      && scanned <= 8 * nilInserts
      && scanned + 8 * (count + tombs) <= 8 * nilInserts + 4 * slots.Length
    }

    ghost predicate Valid()
      reads this, slots, words.Keys
    {
      TableOk() && DictOk() && BoundsOk()
    }

    /** What a caller sees at time `now`. */
    ghost function View(now: nat): map<K, Cell<V>>
      reads this
    {
      Prune(dict, now)
    }

    constructor (hash: K -> nat, size: nat)
      requires IsPowerOfTwo(size) && size >= 8
      ensures Valid() && dict == map[] && fresh(slots) && words == map[] && this.hash == hash
      ensures scanned == nilInserts == 0
    {
      this.hash := hash;
      slots := new Slot<Entry<V>, K>[size](_ => Nil);
      count, tombs, hasMeta := 0, 0, false;
      words, dict := map[], map[];
      scanned, nilInserts := 0, 0;
      new;
      assert slots[..] == Empty(size);
      EmptyCounts<Entry<V>, K>(size);
    }

    // -------------------------------------------------------------- probing

    /** find: the slot of k's entry, if k has one. */
    method Find(k: K) returns (at: Option<nat>)
      requires TableOk()
      ensures match at
        case Some(i) => i < slots.Length && Has(slots[i], k)
        case None => Absent(slots[..], k)
    {
      var n := slots.Length;
      var idx := Home(hash(k), n);
      assert n > 0 ==> idx == At(hash(k), 0, n);
      var probes := 0;
      while probes < n
        invariant 0 <= probes <= n && Misses(slots[..], hash(k), k, probes)
        invariant idx < n && (probes < n ==> idx == At(hash(k), probes, n))
      {
        if slots[idx].Nil? {
          MissIsAbsent(slots[..], hash, k, probes);
          return None;
        }
        if Has(slots[idx], k) {
          return Some(idx);
        }
        if probes + 1 < n { AtNext(hash(k), probes, n); }
        idx := Next(idx, n);
        probes := probes + 1;
      }
      MissIsAbsent(slots[..], hash, k, n);
      return None;
    }

    /** The probe loop of the writers, which has no bound of its own: it ends at k's entry or at a
      * nil, and then the place for a new entry is the first tombstone it met, or that nil. */
    method Locate(k: K) returns (found: bool, i: nat, ghost q: nat)
      requires TableOk() && 4 * (count + tombs) < 3 * slots.Length
      ensures i < slots.Length
      ensures found ==> Has(slots[i], k)
      ensures !found ==> Absent(slots[..], k) && !slots[i].Full?
      ensures !found ==> q < slots.Length && i == At(hash(k), q, slots.Length) && Reaches(slots[..], hash(k), q)
    {
      var n := slots.Length;
      ghost var s := slots[..];
      SparseHasNil(s);
      NilIsAhead(s, hash(k));
      ghost var end := FirstNil(s, hash(k), 0);
      var idx := Home(hash(k), n);
      var firstTomb: Option<nat> := None;
      ghost var d, tombAt := 0, 0;
      while true
        invariant 0 <= d <= end < n && Misses(s, hash(k), k, d) && idx == At(hash(k), d, n)
        invariant firstTomb.Some? ==> tombAt < d && firstTomb.value == At(hash(k), tombAt, n)
        invariant firstTomb.Some? ==> s[firstTomb.value].Tomb?
        decreases end - d
      {
        match slots[idx] {
          case Nil =>
            MissIsAbsent(s, hash, k, d);
            if firstTomb.Some? {
              return false, firstTomb.value, tombAt;
            }
            return false, idx, d;
          case Tomb =>
            if firstTomb == None {
              firstTomb, tombAt := Some(idx), d;
            }
          case Full(_, key) =>
            if key == k {
              return true, idx, d;
            }
        }
        AtNext(hash(k), d, n);
        idx := Next(idx, n);
        d := d + 1;
      }
    }

    // -------------------------------------------------------------- single changes

    /** Publish a value and its metadata on the entry in slot i. */
    method SetEntry(i: nat, v: V, md: Option<Meta>)
      requires Valid() && i < slots.Length && slots[i].Full? && (md.Some? ==> hasMeta)
      modifies this`dict, this`words, slots[i].ref
      ensures Valid() && dict == old(dict)[slots[i].key := CellOf(v, md)] && words.Keys == old(words.Keys)
    {
      hide WellFormed, Holds, Count, IsPowerOfTwo, KeysIn, CellOf;
      ghost var s := slots[..];
      var e := slots[i].ref;
      assert s[i] == slots[i];
      SetHolds(s, hash, dict, words, hasMeta, i, Word(v, md));
      e.val := v;
      e.meta := md;
      assert slots[..] == s;
      dict, words := dict[slots[i].key := CellOf(v, md)], words[e := Word(v, md)];
    }

    /** Insert a new entry where Locate said; room for it was made before. */
    method Insert(k: K, v: V, md: Option<Meta>, i: nat, ghost q: nat)
      requires Valid() && 4 * (count + tombs + 1) < 3 * slots.Length && (md.Some? ==> hasMeta)
      requires Absent(slots[..], k) && q < slots.Length && i == At(hash(k), q, slots.Length)
      requires Reaches(slots[..], hash(k), q) && !slots[i].Full?
      modifies this`count, this`tombs, this`words, this`dict, this`nilInserts, slots
      ensures Valid() && dict == old(dict)[k := CellOf(v, md)] && fresh(words.Keys - old(words.Keys))
      ensures nilInserts == old(nilInserts) + (if old(slots[i]).Nil? then 1 else 0)
    {
      hide WellFormed, IsPowerOfTwo, KeysIn;
      var e := new Entry(v, md);
      ghost var is_ := slots[..][i := Full(e, k)];
      InsertedHolds(slots[..], dict, words, hasMeta, i, k, e, Word(v, md));
      nilInserts := nilInserts + if slots[i].Nil? then 1 else 0;
      PutSlot(k, e, i, q);
      words, dict := words[e := Word(v, md)], dict[k := CellOf(v, md)];
      assert slots[..] == is_;
      assert DictOk();
    }

    method PutSlot(k: K, e: Entry<V>, i: nat, ghost q: nat)
      requires TableOk() && Absent(slots[..], k) && q < slots.Length && i == At(hash(k), q, slots.Length)
      requires Reaches(slots[..], hash(k), q) && !slots[i].Full?
      modifies this`count, this`tombs, slots
      ensures TableOk() && slots[..] == old(slots[..])[i := Full(e, k)]
      ensures count == old(count) + 1 && tombs == old(tombs) - (if old(slots[i]).Tomb? then 1 else 0)
    {
      PutKeepsTable(slots[..], hash, k, q, e);
      ghost var is_ := slots[..][i := Full(e, k)];
      if slots[i].Tomb? {
        tombs := tombs - 1;
      }
      slots[i] := Full(e, k);
      count := count + 1;
      assert slots[..] == is_;
    }

    /** Turn the entry in slot i into a tombstone. */
    method DropEntry(i: nat)
      requires Valid() && i < slots.Length && slots[i].Full?
      modifies this`count, this`tombs, this`dict, slots
      ensures Valid() && dict == old(dict) - {old(slots[i].key)}
    {
      ghost var was := slots[..];
      assert was[i] == slots[i];
      dict := dict - {slots[i].key};
      slots[i] := Tomb;
      count, tombs := count - 1, tombs + 1;
      assert slots[..] == was[i := Tomb];
      TombKeepsWellFormed(was, hash, i);
      CountUpdate(IsFull(), was, i, Tomb);
      CountUpdate(IsTomb(), was, i, Tomb);
      DroppedHolds(was, old(dict), words, hasMeta, i);
    }

    // -------------------------------------------------------------- rebuilding

    static ghost function InSet(keep: set<Entry<V>>): Slot<Entry<V>, K> -> bool {
      (s: Slot<Entry<V>, K>) => s.Full? ==> s.ref in keep
    }

    /** The cells of the dictionary that a rebuild keeps. */
    static function Moved(d: map<K, Cell<V>>, dropDead: bool, now: nat): map<K, Cell<V>> {
      if dropDead then Prune(d, now) else d
    }

    /** The loop of growLocked and CleanupNow: move the entries into a fresh table of `size` slots,
      * all of them or, in a cleanup, those alive at `now`. */
    method MoveAll(size: nat, dropDead: bool, now: nat, ghost keep: set<Entry<V>>)
        returns (nt: array<Slot<Entry<V>, K>>, cnt: nat)
      requires TableOk() && size > 0 && count < size
      requires forall i :: 0 <= i < slots.Length && slots[i].Full? ==>
        (slots[i].ref in keep <==> !(dropDead && DeadForView(slots[i].ref.meta, now)))
      ensures fresh(nt) && nt.Length == size
      ensures HoldsKept(hash, slots[..], InSet(keep), nt[..]) && cnt == Count(Kept(InSet(keep)), slots[..]) <= count
    {
      ghost var s := slots[..];
      nt := new Slot<Entry<V>, K>[size](_ => Nil);
      assert nt[..] == Empty(size);
      EmptyCounts<Entry<V>, K>(size);
      KeptAtMostAll(s, keep);
      cnt := 0;
      for i := 0 to slots.Length
        invariant s == slots[..]
        invariant HoldsKept(hash, s[..i], InSet(keep), nt[..]) && cnt == Count(Kept(InSet(keep)), s[..i])
      {
        assert s[..i + 1] == s[..i] + [s[i]] && s[..i + 1][..i] == s[..i];
        if slots[i].Full? && !(dropDead && DeadForView(slots[i].ref.meta, now)) {
          CountPrefix(Kept(InSet(keep)), s, i);
          RoomForClone(hash, s[..i], InSet(keep), nt[..], s[i].key);
          NotBefore(s, i);
          InsertClone(nt, slots[i], s[..i], keep);
          cnt := cnt + 1;
        } else {
          HoldsKeptSkips(hash, s[..i], InSet(keep), nt[..], s[i]);
        }
      }
      assert s[..slots.Length] == s;
    }

    method MovedTable(size: nat, dropDead: bool, now: nat) returns (nt: array<Slot<Entry<V>, K>>, cnt: nat)
      requires TableOk() && DictOk() && size > 0 && count < size
      ensures fresh(nt) && nt.Length == size && WellFormed(nt[..], hash)
      ensures cnt == Count(IsFull(), nt[..]) <= count && Count(IsTomb(), nt[..]) == 0 && (!dropDead ==> cnt == count)
      ensures Holds(nt[..], Moved(dict, dropDead, now), words, hasMeta)
    {
      ghost var keep := set e | e in words && !(dropDead && DeadForView(words[e].meta, now));
      KeptIsAlive(slots[..], dict, words, hasMeta, dropDead, now, keep);
      nt, cnt := MoveAll(size, dropDead, now, keep);
      MovedHolds(hash, slots[..], dict, words, hasMeta, keep, nt[..], Moved(dict, dropDead, now));
    }

    /** Replace the table by one of `size` slots with the kept entries. */
    method MoveInto(size: nat, dropDead: bool, now: nat)
      requires TableOk() && DictOk() && IsPowerOfTwo(size) && size >= 8 && count < size
      modifies this`slots, this`count, this`tombs, this`dict
      ensures TableOk() && DictOk() && fresh(slots) && slots.Length == size && tombs == 0 && 0 <= count <= old(count)
      ensures dict == Moved(old(dict), dropDead, now)
      ensures !dropDead ==> count == old(count)
    {
      hide WellFormed, IsPowerOfTwo, KeysIn, Prune;
      var nt, cnt := MovedTable(size, dropDead, now);
      ghost var r, d := nt[..], Moved(dict, dropDead, now);
      slots, count, tombs, dict := nt, cnt, 0, d;
      assert slots[..] == r;
      assert DictOk();
      assert TableOk();
    }

    /** insertion into the private new table, with the probe loop written out. */
    method InsertClone(nt: array<Slot<Entry<V>, K>>, s: Slot<Entry<V>, K>, ghost done: seq<Slot<Entry<V>, K>>,
        ghost keep: set<Entry<V>>)
      requires s.Full? && InSet(keep)(s) && Absent(done, s.key) && HoldsKept(hash, done, InSet(keep), nt[..])
      requires exists j :: 0 <= j < nt.Length && nt[..][At(hash(s.key), j, nt.Length)] == Nil
      modifies nt
      ensures HoldsKept(hash, done + [s], InSet(keep), nt[..])
    {
      var n := nt.Length;
      ghost var h, was := hash(s.key), nt[..];
      ghost var end := FirstNil(was, h, 0);
      var idx := Home(hash(s.key), n);
      ghost var d := 0;
      while !nt[idx].Nil?
        invariant 0 <= d <= end < n && Reaches(was, h, d) && idx == At(h, d, n) && nt[..] == was
        decreases end - d
      {
        AtNext(h, d, n);
        idx := Next(idx, n);
        d := d + 1;
      }
      nt[idx] := s;
      assert nt[..] == was[idx := s];
      PutCloneHolds(hash, done, InSet(keep), was, s, d);
    }

    /** The check at the head of every write that may insert, and growLocked. A rebuild at the
      * three-quarter mark is paid for by the nil slots used up since the last one. */
    method MaybeGrow()
      requires Valid()
      modifies this`slots, this`count, this`tombs, this`dict, this`scanned
      ensures Valid() && dict == old(dict) && 4 * (count + tombs + 1) < 3 * slots.Length
      ensures slots == old(slots) || (fresh(slots) && tombs == 0 && 2 * count <= slots.Length)
      ensures slots != old(slots) ==> slots.Length == 8 || slots.Length < 8 * count
      ensures scanned == old(scanned) + if slots == old(slots) then 0 else old(slots.Length)
    {
      if 4 * (count + tombs + 1) >= 3 * slots.Length {
        var size := TargetTypedSlots(slots.Length, count);
        TypedTargetIsSound(slots.Length, count);
        scanned := scanned + slots.Length;
        MoveInto(size, false, 0);
      }
    }

    // -------------------------------------------------------------- operations

    method MarkMeta(md: Option<Meta>)
      requires Valid()
      modifies this`hasMeta
      ensures Valid() && (md.Some? ==> hasMeta) && (old(hasMeta) ==> hasMeta)
    {
      if md.Some? {
        hasMeta := true;
      }
    }

    /** find, with what it means for the dictionary. */
    method Search(k: K) returns (at: Option<nat>)
      requires Valid()
      ensures at.Some? <==> k in dict
      ensures at.Some? ==> at.value < slots.Length && Has(slots[at.value], k) && slots[at.value].ref in words
      ensures at.Some? ==> dict[k] == CellOf(slots[at.value].ref.val, slots[at.value].ref.meta)
      ensures at.Some? && !hasMeta ==> slots[at.value].ref.meta == None
    {
      at := Find(k);
      KeyHasSlot(slots[..], k);
      if at.Some? { assert slots[..][at.value] == slots[at.value]; }
    }

    /** The locked probe of a writer, with what it means for the dictionary. */
    method Seek(k: K) returns (found: bool, i: nat, ghost q: nat)
      requires Valid()
      ensures i < slots.Length && (found <==> k in dict)
      ensures found ==> Has(slots[i], k) && slots[i].ref in words
      ensures found ==> dict[k] == CellOf(slots[i].ref.val, slots[i].ref.meta)
      ensures !found ==> Absent(slots[..], k) && !slots[i].Full?
      ensures !found ==> q < slots.Length && i == At(hash(k), q, slots.Length) && Reaches(slots[..], hash(k), q)
    {
      found, i, q := Locate(k);
      KeyHasSlot(slots[..], k);
      assert slots[..][i] == slots[i];
    }

    /** Publish on the entry found, or insert. */
    method Write(k: K, v: V, md: Option<Meta>, found: bool, i: nat, ghost q: nat)
      requires Valid() && (md.Some? ==> hasMeta) && 4 * (count + tombs + 1) < 3 * slots.Length && i < slots.Length
      requires found ==> Has(slots[i], k) && slots[i].ref in words
      requires !found ==> Absent(slots[..], k) && !slots[i].Full?
      requires !found ==> q < slots.Length && i == At(hash(k), q, slots.Length) && Reaches(slots[..], hash(k), q)
      modifies this`count, this`tombs, this`words, this`dict, this`nilInserts, slots, words.Keys
      ensures nilInserts <= old(nilInserts) + 1
      ensures Valid() && dict == old(dict)[k := CellOf(v, md)] && fresh(words.Keys - old(words.Keys))
    {
      if found {
        SetEntry(i, v, md);
      } else {
        Insert(k, v, md, i, q);
      }
    }

    /** The writing half of Store, putMeta and swapMeta; returns the value it replaces. */
    method WriteOver(k: K, v: V, md: Option<Meta>, now: nat) returns (seen: Option<V>)
      requires Valid() && (md.Some? ==> hasMeta)
      modifies this, slots, words.Keys
      ensures nilInserts <= old(nilInserts) + 1
      ensures Valid() && dict == old(dict)[k := CellOf(v, md)] && seen == Value(old(View(now)), k)
      ensures fresh({slots} - {old(slots)}) && fresh(words.Keys - old(words.Keys))
    {
      hide Valid;
      MaybeGrow();
      var found, i, q := Seek(k);
      seen := if found then Visible(slots[i].ref.val, slots[i].ref.meta, now) else None;
      Write(k, v, md, found, i, q);
    }

    method Store(k: K, v: V, opt: EntryOptions, now: nat)
      requires Valid()
      modifies this, slots, words.Keys
      ensures nilInserts <= old(nilInserts) + 1
      ensures Valid() && fresh({slots} - {old(slots)}) && fresh(words.Keys - old(words.Keys))
      ensures (View(now), Answer(None, true)) == Apply(Same(), old(View(now)), now, Op.Store(k, v, opt))
    {
      hide Valid;
      MarkMeta(NewMeta(opt, now));
      MetaIsCell(v, NewMeta(opt, now), opt, now);
      PutMeets(Same(), dict, k, v, opt, Value(View(now), k), now);
      var _ := WriteOver(k, v, NewMeta(opt, now), now);
    }

    /** Lock-free in the source. The hasMeta flag, when clear, lets it skip the metadata. */
    method Load(k: K, now: nat) returns (r: Res<V>)
      requires Valid()
      modifies this`dict, this`words, words.Keys
      ensures Valid() && words.Keys == old(words.Keys)
      ensures (View(now), r) == Apply(Same(), old(View(now)), now, Op.Load(k))
    {
      var at := Search(k);
      if at == None {
        return Answer(None, false);
      }
      var e := slots[at.value].ref;
      if hasMeta && e.meta.Some? {
        var md := e.meta.value;
        if md.expireAt != 0 && now >= md.expireAt {
          return Answer(None, false);
        }
        if md.hitLimited {
          ReadsCount(dict, k, now, e.val, md);
          SetEntry(at.value, e.val, Some(md.(hits := md.hits - 1)));
          if md.hits - 1 < 0 {
            return Answer(None, false);
          }
        }
      }
      return Answer(Some(e.val), true);
    }

    method Peek(k: K, now: nat) returns (r: Res<V>)
      requires Valid()
      ensures (View(now), r) == Apply(Same(), View(now), now, Op.Peek(k))
    {
      var at := Search(k);
      if at == None || DeadForView(slots[at.value].ref.meta, now) {
        return Answer(None, false);
      }
      return Answer(Some(slots[at.value].ref.val), true);
    }

    method Contains(k: K, now: nat) returns (r: bool)
      requires Valid()
      ensures (View(now), Answer(None, r)) == Apply(Same(), View(now), now, Op.Contains(k))
    {
      var at := Search(k);
      return at.Some? && !DeadForView(slots[at.value].ref.meta, now);
    }

    method Delete(k: K, now: nat) returns (r: Res<V>)
      requires Valid()
      modifies this`count, this`tombs, this`dict, slots
      ensures Valid()
      ensures (View(now), r) == Apply(Same(), old(View(now)), now, Op.Delete(k))
    {
      hide Valid;
      var at := Search(k);
      if at == None {
        DeleteMeets(Same(), dict, k, None, now);
        assert dict - {k} == dict;
        return Answer(None, false);
      }
      var seen := Visible(slots[at.value].ref.val, slots[at.value].ref.meta, now);
      DeleteMeets(Same(), dict, k, seen, now);
      DropEntry(at.value);
      return Answer(seen, seen.Some?);
    }

    /** A read without the lock, and, when it finds nothing alive, the locked half. */
    method LoadOrStore(k: K, v: V, opt: EntryOptions, now: nat) returns (r: Res<V>)
      requires Valid()
      modifies this, slots, words.Keys
      ensures nilInserts <= old(nilInserts) + 1
      ensures Valid() && fresh({slots} - {old(slots)}) && fresh(words.Keys - old(words.Keys))
      ensures (View(now), r) == Apply(Same(), old(View(now)), now, Op.LoadOrStore(k, v, opt))
    {
      hide Valid;
      MarkMeta(NewMeta(opt, now));
      var at := Search(k);
      if at.Some? && !DeadForView(slots[at.value].ref.meta, now) {
        return Answer(Some(slots[at.value].ref.val), true);
      }
      r := LoadOrStoreLocked(k, v, opt, now);
    }

    method LoadOrStoreLocked(k: K, v: V, opt: EntryOptions, now: nat) returns (r: Res<V>)
      requires Valid() && (NewMeta(opt, now).Some? ==> hasMeta)
      modifies this, slots, words.Keys
      ensures nilInserts <= old(nilInserts) + 1
      ensures Valid() && fresh({slots} - {old(slots)}) && fresh(words.Keys - old(words.Keys))
      ensures (View(now), r) == Apply(Same(), old(View(now)), now, Op.LoadOrStore(k, v, opt))
    {
      hide Valid;
      MaybeGrow();
      var found, i, q := Seek(k);
      var seen := if found then Visible(slots[i].ref.val, slots[i].ref.meta, now) else None;
      MetaIsCell(v, NewMeta(opt, now), opt, now);
      PutMeets(Same(), dict, k, v, opt, seen, now);
      if seen.Some? {
        return Answer(seen, true);
      }
      Write(k, v, NewMeta(opt, now), found, i, q);
      return Answer(Some(v), false);
    }

    method Swap(k: K, v: V, opt: EntryOptions, now: nat) returns (r: Res<V>)
      requires Valid()
      modifies this, slots, words.Keys
      ensures nilInserts <= old(nilInserts) + 1
      ensures Valid() && fresh({slots} - {old(slots)}) && fresh(words.Keys - old(words.Keys))
      ensures (View(now), r) == Apply(Same(), old(View(now)), now, Op.Swap(k, v, opt))
    {
      hide Valid;
      MarkMeta(NewMeta(opt, now));
      MetaIsCell(v, NewMeta(opt, now), opt, now);
      PutMeets(Same(), dict, k, v, opt, Value(View(now), k), now);
      var seen := WriteOver(k, v, NewMeta(opt, now), now);
      return Answer(seen, seen.Some?);
    }

    /** The function sees the value only when it is alive; an update stores a value without limits. */
    method Compute(k: K, fn: Option<V> -> Decision<V>, now: nat) returns (r: Res<V>)
      requires Valid()
      modifies this, slots, words.Keys
      ensures nilInserts <= old(nilInserts) + 1
      ensures Valid() && fresh({slots} - {old(slots)}) && fresh(words.Keys - old(words.Keys))
      ensures (View(now), r) == Apply(Same(), old(View(now)), now, Op.Compute(k, fn))
    {
      hide Valid;
      MaybeGrow();
      var found, i, q := Seek(k);
      var seen := if found then Visible(slots[i].ref.val, slots[i].ref.meta, now) else None;
      ComputeMeets(Same(), dict, k, fn, seen, now);
      var decision := fn(seen);
      Carry(k, decision, found, i, q);
      return if decision.Update? then Answer(Some(decision.v), true) else Answer(seen, decision.Cancel? && seen.Some?);
    }

    /** Carry out what Compute's function decided. */
    method Carry(k: K, decision: Decision<V>, found: bool, i: nat, ghost q: nat)
      requires Valid() && 4 * (count + tombs + 1) < 3 * slots.Length && i < slots.Length && (found <==> k in dict)
      requires found ==> Has(slots[i], k) && slots[i].ref in words
      requires !found ==> Absent(slots[..], k) && !slots[i].Full?
      requires !found ==> q < slots.Length && i == At(hash(k), q, slots.Length) && Reaches(slots[..], hash(k), q)
      modifies this`count, this`tombs, this`words, this`dict, this`nilInserts, slots, words.Keys
      ensures nilInserts <= old(nilInserts) + 1
      ensures Valid() && fresh(words.Keys - old(words.Keys))
      ensures dict == match decision
        case Cancel => old(dict)
        case Update(v) => old(dict)[k := CellOf(v, None)]
        case Remove => old(dict) - {k}
    {
      match decision {
        case Cancel =>
        case Update(v) =>
          Write(k, v, None, found, i, q);
        case Remove =>
          if found {
            DropEntry(i);
          }
      }
    }

    /** Fails without a change to any value; the flag for metadata is set even then. */
    method CompareAndSwap(k: K, o: V, n: V, opt: EntryOptions, now: nat) returns (r: bool)
      requires Valid()
      modifies this`hasMeta, this`dict, this`words, words.Keys
      ensures Valid() && words.Keys == old(words.Keys)
      ensures (View(now), Answer(None, r)) == Apply(Same(), old(View(now)), now, Op.CompareAndSwap(k, o, n, opt))
    {
      hide Valid;
      MarkMeta(NewMeta(opt, now));
      var at := Search(k);
      if at == None || DeadForView(slots[at.value].ref.meta, now) || slots[at.value].ref.val != o {
        return false;
      }
      MetaIsCell(n, NewMeta(opt, now), opt, now);
      PutMeets(Same(), dict, k, n, opt, Some(o), now);
      SetEntry(at.value, n, NewMeta(opt, now));
      return true;
    }

    method CompareAndDelete(k: K, o: V, now: nat) returns (r: bool)
      requires Valid()
      modifies this`count, this`tombs, this`dict, slots
      ensures Valid()
      ensures (View(now), Answer(None, r)) == Apply(Same(), old(View(now)), now, Op.CompareAndDelete(k, o))
    {
      hide Valid;
      var at := Search(k);
      if at == None || DeadForView(slots[at.value].ref.meta, now) || slots[at.value].ref.val != o {
        return false;
      }
      DeleteMeets(Same(), dict, k, Some(o), now);
      DropEntry(at.value);
      return true;
    }

    /** Rebuilds only when there is a tombstone or a dead entry, and leaves neither. */
    method CleanupNow(now: nat)
      requires Valid()
      modifies this`slots, this`count, this`tombs, this`dict
      ensures Valid() && fresh({slots} - {old(slots)})
      ensures (View(now), Answer(None, true)) == Apply(Same(), old(View(now)), now, Op.CleanupNow)
      ensures dict == View(now) && tombs == 0 && forall u: nat :: now <= u ==> View(u) == old(View(u))
    {
      var reclaimable := false;
      var j := 0;
      while j < slots.Length && !reclaimable
        invariant 0 <= j <= slots.Length
        invariant !reclaimable ==> forall i :: 0 <= i < j ==>
          !slots[i].Tomb? && (slots[i].Full? ==> !DeadForView(slots[i].ref.meta, now))
        decreases slots.Length - j + if reclaimable then 0 else 1
      {
        reclaimable := slots[j].Tomb? || (slots[j].Full? && DeadForView(slots[j].ref.meta, now));
        j := j + 1;
      }
      if !reclaimable {
        NothingToReclaim(slots[..], dict, words, hasMeta, now);
        return;
      }
      forall u: nat | now <= u ensures Prune(Prune(dict, now), u) == Prune(dict, u) { PruneLater(dict, now, u); }
      TypedTargetIsSound(slots.Length, count);
      MoveInto(TargetTypedSlots(slots.Length, count), true, now);
      PruneLater(old(dict), now, now);
    }

    /** A fresh table of the same size. */
    method Clear(now: nat)
      requires Valid()
      modifies this`slots, this`count, this`tombs, this`dict
      ensures Valid() && fresh(slots) && slots.Length == old(slots.Length)
      ensures (View(now), Answer(None, true)) == Apply(Same(), old(View(now)), now, Op.Clear)
    {
      hide WellFormed, KeysIn, IsPowerOfTwo, Count, Holds;
      EmptyTable(slots.Length, hash, words, hasMeta);
      slots := new Slot<Entry<V>, K>[slots.Length](_ => Nil);
      count, tombs, dict := 0, 0, map[];
      assert slots[..] == Empty(slots.Length);
    }

    /** Counts the entries alive, as many as the caller's dictionary has keys. */
    method Len(now: nat) returns (n: nat)
      requires Valid()
      ensures n == |View(now)|
    {
      ghost var s := slots[..];
      ghost var keep := set e | e in words && !DeadForView(words[e].meta, now);
      n := 0;
      for i := 0 to slots.Length
        invariant n == Count(Kept(InSet(keep)), s[..i])
      {
        assert s[..i + 1][..i] == s[..i] && s[i] == slots[i];
        if slots[i].Full? && !DeadForView(slots[i].ref.meta, now) {
          n := n + 1;
        }
      }
      assert s[..slots.Length] == s;
      KeptIsAlive(s, dict, words, hasMeta, true, now, keep);
      KeysCounted(InSet(keep), s);
      KeptKeys(InSet(keep), s, dict.Keys, View(now).Keys);
    }

    /** Any operation meets the specification at the time it runs. */
    method Do(now: nat, op: Op<K, V>) returns (r: Res<V>)
      requires Valid()
      modifies this, slots, words.Keys
      ensures nilInserts <= old(nilInserts) + 1
      ensures Valid() && fresh({slots} - {old(slots)}) && fresh(words.Keys - old(words.Keys))
      ensures (View(now), r) == Apply(Same(), old(View(now)), now, op)
    {
      hide Valid;
      r := Answer(None, true);
      match op {
        case Load(k) => r := Load(k, now);
        case Peek(k) => r := Peek(k, now);
        case Contains(k) => var ok := Contains(k, now); r := Answer(None, ok);
        case Store(k, v, opt) => Store(k, v, opt, now);
        case Delete(k) => r := Delete(k, now);
        case LoadOrStore(k, v, opt) => r := LoadOrStore(k, v, opt, now);
        case Swap(k, v, opt) => r := Swap(k, v, opt, now);
        case CompareAndSwap(k, o, n, opt) => var ok := CompareAndSwap(k, o, n, opt, now); r := Answer(None, ok);
        case CompareAndDelete(k, o) => var ok := CompareAndDelete(k, o, now); r := Answer(None, ok);
        case Compute(k, fn) => r := Compute(k, fn, now);
        case CleanupNow => CleanupNow(now);
        case Clear => Clear(now);
      }
    }

    /** After i operations of a run the shard stands where the dictionary stands. */
    ghost predicate OnTrack(ops: seq<(nat, Op<K, V>)>, i: nat, answers: seq<Res<V>>)
      requires i <= |ops|
      reads this
    {
      && answers == Run(Same(), map[], ops[..i]).1
      && (i < |ops| ==> View(ops[i].0) == Prune(Run(Same(), map[], ops[..i]).0, ops[i].0))
    }

    method DoNext(ops: seq<(nat, Op<K, V>)>, i: nat, answers: seq<Res<V>>) returns (answers': seq<Res<V>>)
      requires Valid() && i < |ops| && OnTrack(ops, i, answers)
      requires i + 1 < |ops| ==> ops[i].0 <= ops[i + 1].0
      modifies this, slots, words.Keys
      ensures nilInserts <= old(nilInserts) + 1
      ensures Valid() && fresh({slots} - {old(slots)}) && fresh(words.Keys - old(words.Keys))
      ensures OnTrack(ops, i + 1, answers')
    {
      hide Valid, Run, Apply, Prune;
      var (now, op) := ops[i];
      ghost var before := View(now);
      var r := Do(now, op);
      RunStep(Same(), ops, i, before, View(now), r);
      answers' := answers + [r];
      if i + 1 < |ops| {
        PruneLater(dict, now, ops[i + 1].0);
      }
    }

    method DoAll(ops: seq<(nat, Op<K, V>)>) returns (answers: seq<Res<V>>)
      requires Valid() && OnTrack(ops, 0, []) && Rising(ops)
      modifies this, slots, words.Keys
      ensures Valid() && answers == Run(Same(), map[], ops).1 && nilInserts <= old(nilInserts) + |ops|
    {
      hide Valid, Run, Apply, Prune;
      answers := [];
      for i := 0 to |ops|
        invariant fresh({slots} - {old(slots)}) && fresh(words.Keys - old(words.Keys))
        invariant Valid() && OnTrack(ops, i, answers) && nilInserts <= old(nilInserts) + i
      {
        answers := DoNext(ops, i, answers);
      }
      assert ops[..|ops|] == ops;
    }
  }

  /** Every sequential run of a new shard of any size it may be made with, with a clock that does not
    * go back, answers what the dictionary answers, which is what the calls before and their answers
    * call for; and all its rebuilds for growth together scanned at most eight old slots per operation. */
  method RunShard<K(==), V(==)>(hash: K -> nat, size: nat, ops: seq<(nat, Op<K, V>)>) returns (answers: seq<Res<V>>,
      ghost scanned: nat)
    requires IsPowerOfTwo(size) && size >= 8
    requires Rising(ops)
    ensures answers == Run(Same(), map[], ops).1 && Explained(Same(), ops, answers)
    ensures scanned <= 8 * |ops|
  {
    hide Run, Apply, Prune, Explained, Shard.TableOk, Shard.DictOk;
    var shard := new Shard<K, V>(hash, size);
    EmptyRun(Same(), ops);
    answers := shard.DoAll(ops);
    RunIsExplained(Same(), ops, answers);
    scanned := shard.scanned;
  }

  // ---------------------------------------------------------------- lemmas about slots

  lemma KeyHasSlot<R, K>(s: seq<Slot<R, K>>, k: K)
    ensures k in KeysIn(s) <==> !Absent(s, k)
  {
    if i :| 0 <= i < |s| && Has(s[i], k) {
      assert s[i].Full? && s[i].key == k;
    }
  }

  function Same<V(==)>(): (V, V) -> bool {
    (a, b) => a == b
  }

  /** One decrement of the hit counter is one read less; below zero it changes nothing. */
  lemma ReadsCount<K, V>(d: map<K, Cell<V>>, k: K, now: nat, val: V, md: Meta)
    requires k in d && d[k] == CellOf(val, Some(md)) && md.hitLimited && !(md.expireAt != 0 && now >= md.expireAt)
    ensures Prune(d[k := CellOf(val, Some(md.(hits := md.hits - 1)))], now)
         == if md.hits > 0 then Consume(Prune(d, now), k) else Prune(d, now)
  {
    PrunePut(d, k, CellOf(val, Some(md.(hits := md.hits - 1))), now);
  }

  /** What a caller at `now` sees of an entry. */
  function Visible<V>(val: V, md: Option<Meta>, now: nat): (v: Option<V>)
    ensures v == if Alive(CellOf(val, md), now) then Some(val) else None
  {
    if DeadForView(md, now) then None else Some(val)
  }

  lemma NothingToReclaim<V, K>(s: seq<Slot<Entry<V>, K>>, d: map<K, Cell<V>>, words: map<Entry<V>, Word<V>>,
      hasMeta: bool, now: nat)
    requires Shard.Holds(s, d, words, hasMeta)
    requires forall i :: 0 <= i < |s| ==> !s[i].Tomb? && (s[i].Full? ==> !DeadForView(words[s[i].ref].meta, now))
    ensures Prune(d, now) == d && Count(IsTomb(), s) == 0
  {
    CountAll(IsTomb(), s);
    forall k | k in d ensures Alive(d[k], now) {
      var i :| 0 <= i < |s| && s[i].Full? && s[i].key == k;
      MetaIsCell(words[s[i].ref].val, words[s[i].ref].meta, Plain, now);
    }
  }

  lemma EmptyTable<V, K>(n: nat, hash: K -> nat, words: map<Entry<V>, Word<V>>, hasMeta: bool)
    requires n > 0
    ensures WellFormed<Entry<V>, K>(Empty(n), hash) && Shard<K, V>.Holds(Empty(n), map[], words, hasMeta)
    ensures Count(IsFull<Entry<V>, K>(), Empty(n)) == 0 && Count(IsTomb<Entry<V>, K>(), Empty(n)) == 0
  {
    EmptyCounts<Entry<V>, K>(n);
  }

  lemma UniqueKey<V, K>(s: seq<Slot<Entry<V>, K>>, i: nat)
    requires Unique(s) && i < |s| && s[i].Full?
    ensures forall j :: 0 <= j < |s| && j != i && s[j].Full? ==> s[j].key != s[i].key
  {
  }

  /** New values in the entry of slot i. */
  lemma SetHolds<V, K>(s: seq<Slot<Entry<V>, K>>, hash: K -> nat, d: map<K, Cell<V>>, words: map<Entry<V>, Word<V>>,
      hasMeta: bool, i: nat, w: Word<V>)
    requires WellFormed(s, hash) && Shard<K, V>.Holds(s, d, words, hasMeta) && i < |s| && s[i].Full?
    requires w.meta.Some? ==> hasMeta
    ensures Shard<K, V>.Holds(s, d[s[i].key := CellOf(w.val, w.meta)], words[s[i].ref := w], hasMeta)
    ensures s[i].key in d && s[i].ref in words
  {
    UniqueKey(s, i);
  }

  lemma InsertedHolds<V, K>(was: seq<Slot<Entry<V>, K>>, d: map<K, Cell<V>>, words: map<Entry<V>, Word<V>>,
      hasMeta: bool, i: nat, k: K, e: Entry<V>, w: Word<V>)
    requires i < |was| && Absent(was, k) && !was[i].Full?
    requires Shard.Holds(was, d, words, hasMeta) && e !in words && (w.meta.Some? ==> hasMeta)
    ensures Shard.Holds(was[i := Full(e, k)], d[k := CellOf(w.val, w.meta)], words[e := w], hasMeta)
  {
    var is_ := was[i := Full(e, k)];
    forall j | 0 <= j < |is_| && j != i ensures is_[j] == was[j] && !Has(is_[j], k) {
      assert !Has(was[j], k);
    }
    assert is_[i].key in KeysIn(is_);
    forall x | x in KeysIn(was) ensures x in KeysIn(is_) {
      var j :| 0 <= j < |was| && was[j].Full? && was[j].key == x;
      assert is_[j].Full? && is_[j].key == x;
    }
  }

  lemma DroppedHolds<V, K>(was: seq<Slot<Entry<V>, K>>, d: map<K, Cell<V>>, words: map<Entry<V>, Word<V>>,
      hasMeta: bool, i: nat)
    requires Unique(was) && i < |was| && was[i].Full?
    requires Shard.Holds(was, d, words, hasMeta)
    ensures Shard.Holds(was[i := Tomb], d - {was[i].key}, words, hasMeta)
  {
    UniqueKey(was, i);
    var is_ := was[i := Tomb];
    forall x | x in KeysIn(was) && x != was[i].key ensures x in KeysIn(is_) {
      var j :| 0 <= j < |was| && was[j].Full? && was[j].key == x;
      assert is_[j].Full? && is_[j].key == x;
    }
  }

  lemma KeptIsAlive<V, K>(s: seq<Slot<Entry<V>, K>>, d: map<K, Cell<V>>, words: map<Entry<V>, Word<V>>, hasMeta: bool,
      dropDead: bool, now: nat, keep: set<Entry<V>>)
    requires Shard.Holds(s, d, words, hasMeta)
    requires keep == set e | e in words && !(dropDead && DeadForView(words[e].meta, now))
    ensures forall i :: 0 <= i < |s| && s[i].Full? ==> (s[i].key in Shard.Moved(d, dropDead, now) <==> s[i].ref in keep)
    ensures !dropDead ==> Count(Kept(Shard<K, V>.InSet(keep)), s) == Count(IsFull(), s)
  {
    if !dropDead { AllKept(s, keep); }
  }

  /** Moving the entries in `keep` keeps the dictionary's cells of those entries. */
  lemma MovedHolds<V, K>(hash: K -> nat, s: seq<Slot<Entry<V>, K>>, was: map<K, Cell<V>>,
      words: map<Entry<V>, Word<V>>, hasMeta: bool,
    keep: set<Entry<V>>, r: seq<Slot<Entry<V>, K>>, d: map<K, Cell<V>>)
    requires HoldsKept(hash, s, Shard<K, V>.InSet(keep), r) && Shard.Holds(s, was, words, hasMeta)
    requires forall k :: k in d ==> k in was && d[k] == was[k]
    requires forall i :: 0 <= i < |s| && s[i].Full? ==> (s[i].key in d <==> s[i].ref in keep)
    ensures Shard.Holds(r, d, words, hasMeta)
  {
    forall i | 0 <= i < |r| && r[i].Full?
      ensures
        && r[i].ref in words && r[i].key in d
        && d[r[i].key] == CellOf(words[r[i].ref].val, words[r[i].ref].meta)
        && (!hasMeta ==> words[r[i].ref].meta == None)
    {
      assert r[i] in s;
    }
    forall i, j | 0 <= i < j < |r| && r[i].Full? && r[j].Full? ensures r[i].ref != r[j].ref {
      assert r[i] in s && r[j] in s && r[i].key != r[j].key;
    }
    forall k | k in d ensures k in KeysIn(r) {
      var m :| 0 <= m < |s| && s[m].Full? && s[m].key == k;
      assert s[m] in r;
      var j :| 0 <= j < |r| && r[j] == s[m];
      assert r[j].Full? && r[j].key == k;
    }
    forall k | k in KeysIn(r) ensures k in d {
      var j :| 0 <= j < |r| && r[j].Full? && r[j].key == k;
      assert r[j] in s;
    }
  }

  ghost function KeysKept<R, K>(keep: Slot<R, K> -> bool, s: seq<Slot<R, K>>): set<K> {
    set i | 0 <= i < |s| && Kept(keep)(s[i]) :: s[i].key
  }

  /** With no key twice, counting slots counts keys. */
  lemma {:induction false} KeysCounted<R, K>(keep: Slot<R, K> -> bool, s: seq<Slot<R, K>>)
    requires Unique(s)
    ensures |KeysKept(keep, s)| == Count(Kept(keep), s)
  {
    if s == [] {
      assert KeysKept(keep, s) == {};
    } else {
      var front, last := s[..|s| - 1], s[|s| - 1];
      KeysCounted(keep, front);
      OneMoreKey(keep, front, last);
      assert s == front + [last];
    }
  }

  lemma OneMoreKey<R, K>(keep: Slot<R, K> -> bool, front: seq<Slot<R, K>>, last: Slot<R, K>)
    ensures KeysKept(keep, front + [last]) == KeysKept(keep, front) + if Kept(keep)(last) then {last.key} else {}
  {
    var s := front + [last];
    forall k | k in KeysKept(keep, front) ensures k in KeysKept(keep, s) {
      var i :| 0 <= i < |front| && Kept(keep)(front[i]) && front[i].key == k;
      assert Kept(keep)(s[i]);
    }
    if Kept(keep)(last) {
      assert Kept(keep)(s[|front|]);
    }
  }

  lemma KeptKeys<R, K>(keep: Slot<R, K> -> bool, s: seq<Slot<R, K>>, all: set<K>, some: set<K>)
    requires all == KeysIn(s) && some <= all
    requires forall i :: 0 <= i < |s| && s[i].Full? ==> (s[i].key in some <==> keep(s[i]))
    ensures KeysKept(keep, s) == some
  {
    forall k | k in some ensures k in KeysKept(keep, s) {
      var i :| 0 <= i < |s| && s[i].Full? && s[i].key == k;
      assert Kept(keep)(s[i]);
    }
  }

  lemma PutKeepsTable<V, K>(was: seq<Slot<Entry<V>, K>>, hash: K -> nat, k: K, q: nat, e: Entry<V>)
    requires WellFormed(was, hash) && Absent(was, k)
    requires q < |was| && Reaches(was, hash(k), q) && !was[At(hash(k), q, |was|)].Full?
    ensures
      var i := At(hash(k), q, |was|);
      var is_ := was[i := Full(e, k)];
      && WellFormed(is_, hash)
      && Count(IsFull(), is_) == Count(IsFull(), was) + 1
      && Count(IsTomb(), is_) == Count(IsTomb(), was) - (if was[i].Tomb? then 1 else 0)
  {
    var i := At(hash(k), q, |was|);
    PutKeepsWellFormed(was, hash, k, q, e);
    CountUpdate(IsFull(), was, i, Full(e, k));
    CountUpdate(IsTomb(), was, i, Full(e, k));
  }

  lemma KeptAtMostAll<V, K>(s: seq<Slot<Entry<V>, K>>, keep: set<Entry<V>>)
    ensures Count(Kept(Shard<K, V>.InSet(keep)), s) <= Count(IsFull(), s)
  {
    CountMonotone(Kept(Shard<K, V>.InSet(keep)), IsFull(), s);
  }

  lemma AllKept<V, K>(s: seq<Slot<Entry<V>, K>>, keep: set<Entry<V>>)
    requires forall i :: 0 <= i < |s| && s[i].Full? ==> s[i].ref in keep
    ensures Count(Kept(Shard<K, V>.InSet(keep)), s) == Count(IsFull(), s)
  {
    KeptAtMostAll(s, keep);
    CountMonotone(IsFull(), Kept(Shard<K, V>.InSet(keep)), s);
  }

  lemma NotBefore<V, K>(s: seq<Slot<Entry<V>, K>>, i: nat)
    requires Unique(s) && i < |s| && s[i].Full?
    ensures Absent(s[..i], s[i].key)
  {
  }
}
