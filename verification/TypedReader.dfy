/** Lock-free reads of a `TypedMap` shard against its locked writers.
  *
  * Writers hold the shard's mutex, probe the current table and make one visible write: the value
  * word of an entry, a slot, or the table pointer. Readers hold no lock: they load the table
  * pointer once and then read one slot per step, possibly of a table that has been replaced in
  * the meantime, and finally the value word of the entry they found. Entries are shared between
  * a table and the tables rebuilt from it. Entries here carry no expiry and no hit budget.
  */
module TypedReader {
  import opened Options
  import opened Probe

  datatype Entry<K, V> = Entry(key: K, val: V)

  /** Put: Store, LoadOrStore, Swap and an updating Compute, which make room for an entry first.
    * Exchange: CompareAndSwap, which writes only over a value. Drop: Delete, CompareAndDelete and a
    * deleting Compute. */
  datatype Work<K> = Put(key: K) | Exchange(key: K) | Drop(key: K)

  /** What the holder of the mutex is doing: `tomb` is the distance of the first tombstone met. */
  datatype Lock<K> = Free | Entered(work: Work<K>) | Probing(work: Work<K>, d: nat, tomb: Option<nat>)

  /** A Load or Peek: `start` is the time it loaded the table pointer. */
  datatype Reader<K, V> =
    | Resting
    | Scanning(k: K, start: nat, table: nat, d: nat)
    | Reading(k: K, start: nat, e: nat)
    | Returned(k: K, start: nat, end: nat, res: Option<V>)

  /** The current table and the entries at one moment. */
  datatype Moment<K, V> = Moment(slots: seq<Slot<nat, K>>, entries: seq<Entry<K, V>>)

  /** The last of `tables` is current; `past[i]` is what was current after i steps. */
  datatype State<K, V> = State(
    tables: seq<seq<Slot<nat, K>>>,
    entries: seq<Entry<K, V>>,
    lock: Lock<K>,
    readers: seq<Reader<K, V>>,
    past: seq<Moment<K, V>>)

  function Current<K, V>(s: State<K, V>): seq<Slot<nat, K>>
    requires |s.tables| > 0
  {
    s.tables[|s.tables| - 1]
  }

  /** What key k has at a moment: a value, or nothing. */
  ghost predicate Shows<K, V>(m: Moment<K, V>, k: K, res: Option<V>) {
    match res
    case None => Absent(m.slots, k)
    case Some(v) =>
      exists i :: 0 <= i < |m.slots| && Has(m.slots[i], k) && m.slots[i].ref < |m.entries|
        && m.entries[m.slots[i].ref].val == v
  }

  /** Some moment from start to end showed that. */
  ghost predicate ShownBetween<K, V>(past: seq<Moment<K, V>>, k: K, start: nat, end: nat, res: Option<V>) {
    exists t :: start <= t <= end && t < |past| && Shows(past[t], k, res)
  }

  // ---------------------------------------------------------------- the steps

  /** `val`: what the writer stores. `alt`: a conditional operation that does not write.
    * `size`: the slot count of a rebuild; more than the entries it keeps (see module Sizing). */
  datatype Choice<K, V> =
    | Acquire(work: Work<K>)
    | Grow(size: nat)
    | Write(val: V, alt: bool)
    | CleanupNow(size: nat)
    | Clear
    | StartRead(r: nat, k: K)
    | Read(r: nat)

  function All<K>(): Slot<nat, K> -> bool { (_: Slot<nat, K>) => true }

  /** One more entry or tombstone would fill three quarters of the table. */
  predicate NeedsRoom<K>(slots: seq<Slot<nat, K>>) {
    4 * (Used(slots) + 1) >= 3 * |slots|
  }

  predicate Enabled<K, V>(s: State<K, V>, c: Choice<K, V>) {
    && |s.tables| > 0
    && (match c
        case Acquire(_) => s.lock.Free?
        case Grow(size) =>
          && s.lock.Entered? && s.lock.work.Put? && NeedsRoom(Current(s)) && Count(Kept(All()), Current(s)) < size
        case Write(_, _) => !s.lock.Free? && (s.lock.Entered? && s.lock.work.Put? ==> !NeedsRoom(Current(s)))
        case CleanupNow(size) => s.lock.Free? && Count(Kept(All()), Current(s)) < size
        case Clear => s.lock.Free?
        case StartRead(r, _) => r < |s.readers| && !s.readers[r].Scanning? && !s.readers[r].Reading?
        case Read(r) => r < |s.readers| && (s.readers[r].Scanning? || s.readers[r].Reading?))
  }

  function SetCurrent<K, V>(s: State<K, V>, slots: seq<Slot<nat, K>>): State<K, V>
    requires |s.tables| > 0
  {
    s.(tables := s.tables[|s.tables| - 1 := slots])
  }

  /** A step of the mutex holder: it reads one slot, or makes its write and unlocks. */
  function WriteStep<K(==), V>(hash: K -> nat, s: State<K, V>, val: V, alt: bool): State<K, V>
    requires |s.tables| > 0
  {
    match s.lock
    case Free => s
    case Entered(work) => s.(lock := Probing(work, 0, None))
    case Probing(work, d, tomb) =>
      var slots, k := Current(s), work.key;
      if d >= |slots| then if work.Put? then s else s.(lock := Free) else
      var i := At(hash(k), d, |slots|);
      match slots[i]
      case Nil =>
        if !work.Put? || alt then s.(lock := Free) else
        var at := At(hash(k), if tomb.Some? && tomb.value < |slots| then tomb.value else d, |slots|);
        SetCurrent(s, slots[at := Full(|s.entries|, k)]).(entries := s.entries + [Entry(k, val)], lock := Free)
      case Tomb => s.(lock := Probing(work, d + 1, if tomb.Some? then tomb else Some(d)))
      case Full(e, key) =>
        if key != k then s.(lock := Probing(work, d + 1, tomb))
        else if alt || e >= |s.entries| then s.(lock := Free)
        else if !work.Drop? then s.(entries := s.entries[e := s.entries[e].(val := val)], lock := Free)
        else SetCurrent(s, slots[i := Tomb]).(lock := Free)
  }

  /** A step of a reader: it reads one slot, or the value word of the entry it found. */
  function ReadStep<K(==), V>(hash: K -> nat, s: State<K, V>, r: nat): State<K, V>
    requires r < |s.readers| && |s.past| > 0
  {
    var now := |s.past| - 1;
    match s.readers[r]
    case Scanning(k, start, table, d) =>
      if table >= |s.tables| then s else
      var slots := s.tables[table];
      s.(readers := s.readers[r :=
        if d >= |slots| then Returned(k, start, now, None) else
        match slots[At(hash(k), d, |slots|)]
        case Nil => Returned(k, start, now, None)
        case Tomb => Scanning(k, start, table, d + 1)
        case Full(e, key) => if key == k then Reading(k, start, e) else Scanning(k, start, table, d + 1)])
    case Reading(k, start, e) =>
      if e >= |s.entries| then s else s.(readers := s.readers[r := Returned(k, start, now, Some(s.entries[e].val))])
    case _ => s
  }

  function Act<K(==), V>(hash: K -> nat, s: State<K, V>, c: Choice<K, V>): State<K, V>
    requires Enabled(s, c) && |s.past| > 0
  {
    match c
    case Acquire(work) => s.(lock := Entered(work))
    case Grow(size) =>
      s.(tables := s.tables + [Rebuild(hash, Current(s), All(), size)], lock := Probing(s.lock.work, 0, None))
    case Write(val, alt) => WriteStep(hash, s, val, alt)
    case CleanupNow(size) => s.(tables := s.tables + [Rebuild(hash, Current(s), All(), size)])
    case Clear => s.(tables := s.tables + [Empty(|Current(s)|)])
    case StartRead(r, k) => s.(readers := s.readers[r := Scanning(k, |s.past| - 1, |s.tables| - 1, 0)])
    case Read(r) => ReadStep(hash, s, r)
  }

  /** Every step adds the moment after it to the past. */
  function Step<K(==), V>(hash: K -> nat, s: State<K, V>, c: Choice<K, V>): State<K, V>
    requires Enabled(s, c) && |s.past| > 0
  {
    var s' := Act(hash, s, c);
    if |s'.tables| == 0 then s' else s'.(past := s.past + [Moment(Current(s'), s'.entries)])
  }

  function Init<K, V>(size: nat, readers: nat): State<K, V> {
    State([Empty(size)], [], Free, seq(readers, _ => Resting), [Moment(Empty(size), [])])
  }

  function Run<K(==), V>(hash: K -> nat, size: nat, readers: nat, schedule: seq<Choice<K, V>>): Option<State<K, V>> {
    if schedule == [] then Some(Init(size, readers)) else
    var before := Run(hash, size, readers, schedule[..|schedule| - 1]);
    var c := schedule[|schedule| - 1];
    if before.Some? && Enabled(before.value, c) && |before.value.past| > 0
    then Some(Step(hash, before.value, c)) else None
  }

  // ---------------------------------------------------------------- the invariant

  ghost predicate TableOk<K, V>(hash: K -> nat, entries: seq<Entry<K, V>>, slots: seq<Slot<nat, K>>) {
    && WellFormed(slots, hash)
    && (forall i :: 0 <= i < |slots| && slots[i].Full? ==>
          slots[i].ref < |entries| && entries[slots[i].ref].key == slots[i].key)
  }

  /** What the probe of a locked writer has established. */
  ghost predicate LockOk<K>(hash: K -> nat, slots: seq<Slot<nat, K>>, lock: Lock<K>) {
    lock.Probing? ==>
      && (lock.work.Put? ==> Nil in slots)
      && lock.d <= |slots| && Misses(slots, hash(lock.work.key), lock.work.key, lock.d)
      && (lock.tomb.Some? ==> lock.tomb.value < lock.d
                                && slots[At(hash(lock.work.key), lock.tomb.value, |slots|)] == Tomb)
  }

  /** The entry of k lies at distance d or more, and no nil before it. */
  ghost predicate Ahead<K>(hash: K -> nat, slots: seq<Slot<nat, K>>, k: K, d: nat) {
    exists q :: d <= q < |slots| && Has(slots[At(hash(k), q, |slots|)], k) && Reaches(slots, hash(k), q)
  }

  /** A reader has k ahead of it in its table unless k was absent at some moment since it began,
    * and whatever entry of k it may find in there carries a value k had since it began. */
  ghost predicate ReaderOk<K, V>(hash: K -> nat, s: State<K, V>, r: Reader<K, V>)
    requires |s.past| > 0
  {
    match r
    case Resting => true
    case Scanning(k, start, table, d) =>
      && table < |s.tables| && start < |s.past| && d <= |s.tables[table]|
      && (Ahead(hash, s.tables[table], k, d) || ShownBetween(s.past, k, start, |s.past| - 1, None))
      && (forall i :: 0 <= i < |s.tables[table]| && Has(s.tables[table][i], k)
                      && s.tables[table][i].ref < |s.entries| ==>
            ShownBetween(s.past, k, start, |s.past| - 1, Some(s.entries[s.tables[table][i].ref].val)))
    case Reading(k, start, e) =>
      && e < |s.entries| && s.entries[e].key == k
      && ShownBetween(s.past, k, start, |s.past| - 1, Some(s.entries[e].val))
    case Returned(k, start, end, res) => start <= end < |s.past| && ShownBetween(s.past, k, start, end, res)
  }

  ghost predicate TablesOk<K, V>(hash: K -> nat, s: State<K, V>) {
    forall t :: 0 <= t < |s.tables| ==> TableOk(hash, s.entries, s.tables[t])
  }

  ghost predicate ReadersOk<K, V>(hash: K -> nat, s: State<K, V>)
    requires |s.past| > 0
  {
    forall r :: 0 <= r < |s.readers| ==> ReaderOk(hash, s, s.readers[r])
  }

  ghost predicate Inv<K, V>(hash: K -> nat, s: State<K, V>) {
    && |s.tables| > 0 && |s.past| > 0
    && TablesOk(hash, s)
    && LockOk(hash, Current(s), s.lock)
    && s.past[|s.past| - 1] == Moment(Current(s), s.entries)
    && ReadersOk(hash, s)
  }

  // ---------------------------------------------------------------- what a step may change

  /** From one moment to the next, as far as a reader can tell: an entry of k that disappears from
    * a table leaves k absent, and an entry that appears or changes its value is what k has now. */
  ghost predicate Evolves<K, V>(hash: K -> nat, s: State<K, V>, s': State<K, V>) {
    && 0 < |s.tables| <= |s'.tables| && |s.entries| <= |s'.entries| && |s.past| > 0
    && s'.past == s.past + [Moment(Current(s'), s'.entries)]
    && (forall t :: 0 <= t < |s.tables| ==> TableEvolves(hash, s, s', s.tables[t], s'.tables[t]))
    && (forall e :: 0 <= e < |s.entries| ==>
          && s'.entries[e].key == s.entries[e].key
          && (s'.entries[e].val == s.entries[e].val
              || Shows(Moment(Current(s'), s'.entries), s'.entries[e].key, Some(s'.entries[e].val))))
  }

  ghost predicate TableEvolves<K, V>(hash: K -> nat, s: State<K, V>, s': State<K, V>, was: seq<Slot<nat, K>>,
      is_: seq<Slot<nat, K>>)
    requires |s'.tables| > 0
  {
    var m' := Moment(Current(s'), s'.entries);
    && |is_| == |was|
    && (forall i :: 0 <= i < |was| && was[i] != Nil ==> is_[i] != Nil)
    && (forall i :: 0 <= i < |was| && was[i].Full? && is_[i] != was[i] ==> Shows(m', was[i].key, None))
    && (forall i :: 0 <= i < |was| && is_[i].Full? && is_[i] != was[i] && is_[i].ref < |s'.entries| ==>
          Shows(m', is_[i].key, Some(s'.entries[is_[i].ref].val)))
  }

  lemma ShownLater<K, V>(past: seq<Moment<K, V>>, m: Moment<K, V>, k: K, start: nat, end: nat, end': nat,
      res: Option<V>)
    requires ShownBetween(past, k, start, end, res) && end <= end'
    ensures ShownBetween(past + [m], k, start, end', res)
  {
    var t :| start <= t <= end && t < |past| && Shows(past[t], k, res);
    assert (past + [m])[t] == past[t];
  }

  lemma ShownNow<K, V>(past: seq<Moment<K, V>>, m: Moment<K, V>, k: K, start: nat, res: Option<V>)
    requires start <= |past| && Shows(m, k, res)
    ensures ShownBetween(past + [m], k, start, |past|, res)
  {
    assert (past + [m])[|past|] == m;
  }

  lemma AheadKept<K, V>(hash: K -> nat, s: State<K, V>, s': State<K, V>, was: seq<Slot<nat, K>>,
      is_: seq<Slot<nat, K>>, k: K, d: nat)
    requires |s'.tables| > 0 && TableEvolves(hash, s, s', was, is_) && Ahead(hash, was, k, d)
    ensures Ahead(hash, is_, k, d) || Shows(Moment(Current(s'), s'.entries), k, None)
  {
    var q :| d <= q < |was| && Has(was[At(hash(k), q, |was|)], k) && Reaches(was, hash(k), q);
    assert Reaches(is_, hash(k), q);
    var i := At(hash(k), q, |was|);
    if is_[i] == was[i] {
      assert d <= q < |is_| && Has(is_[At(hash(k), q, |is_|)], k);
    }
  }

  lemma ScanKept<K, V>(hash: K -> nat, s: State<K, V>, s': State<K, V>, r: Reader<K, V>)
    requires |s.past| > 0 && ReaderOk(hash, s, r) && Evolves(hash, s, s') && TablesOk(hash, s) && r.Scanning?
    ensures ReaderOk(hash, s', r)
  {
    var Scanning(k, start, table, d) := r;
    var m' := Moment(Current(s'), s'.entries);
    var was, is_ := s.tables[table], s'.tables[table];
    assert TableEvolves(hash, s, s', was, is_);
    if Ahead(hash, was, k, d) {
      AheadKept(hash, s, s', was, is_, k, d);
      if !Ahead(hash, is_, k, d) { ShownNow(s.past, m', k, start, None); }
    } else {
      ShownLater(s.past, m', k, start, |s.past| - 1, |s.past|, None);
    }
    forall i | 0 <= i < |is_| && Has(is_[i], k) && is_[i].ref < |s'.entries|
      ensures ShownBetween(s'.past, k, start, |s.past|, Some(s'.entries[is_[i].ref].val))
    {
      var v := s'.entries[is_[i].ref].val;
      assert TableOk(hash, s.entries, was);
      if is_[i] == was[i] && s.entries[is_[i].ref].val == v {
        ShownLater(s.past, m', k, start, |s.past| - 1, |s.past|, Some(v));
      } else {
        ShownNow(s.past, m', k, start, Some(v));
      }
    }
  }

  lemma ReaderKept<K, V>(hash: K -> nat, s: State<K, V>, s': State<K, V>, r: Reader<K, V>)
    requires |s.past| > 0 && ReaderOk(hash, s, r) && Evolves(hash, s, s') && TablesOk(hash, s)
    ensures ReaderOk(hash, s', r)
  {
    var m' := Moment(Current(s'), s'.entries);
    match r
    case Resting =>
    case Scanning(_, _, _, _) => ScanKept(hash, s, s', r);
    case Reading(k, start, e) =>
      if s'.entries[e].val == s.entries[e].val {
        ShownLater(s.past, m', k, start, |s.past| - 1, |s.past|, Some(s.entries[e].val));
      } else {
        ShownBoundsStart(s.past, k, start, Some(s.entries[e].val));
        ShownNow(s.past, m', k, start, Some(s'.entries[e].val));
      }
    case Returned(k, start, end, res) => ShownLater(s.past, m', k, start, end, end, res);
  }

  lemma ShownBoundsStart<K, V>(past: seq<Moment<K, V>>, k: K, start: nat, res: Option<V>)
    requires |past| > 0 && ShownBetween(past, k, start, |past| - 1, res)
    ensures start < |past|
  {
  }

  // ---------------------------------------------------------------- each kind of step evolves

  lemma SameMoment<K, V>(hash: K -> nat, s: State<K, V>, s': State<K, V>)
    requires Inv(hash, s) && s'.tables == s.tables && s'.entries == s.entries
    requires s'.past == s.past + [Moment(Current(s'), s'.entries)]
    ensures Evolves(hash, s, s')
  {
  }

  lemma NewTable<K, V>(hash: K -> nat, s: State<K, V>, s': State<K, V>, slots: seq<Slot<nat, K>>)
    requires Inv(hash, s) && s'.tables == s.tables + [slots] && s'.entries == s.entries
    requires s'.past == s.past + [Moment(Current(s'), s'.entries)]
    requires TableOk(hash, s.entries, slots)
    ensures Evolves(hash, s, s') && TablesOk(hash, s')
  {
  }

  lemma InPlace<K, V>(hash: K -> nat, s: State<K, V>, s': State<K, V>, i: nat, val: V)
    requires Inv(hash, s) && i < |Current(s)| && Current(s)[i].Full?
    requires var e := Current(s)[i].ref;
      e < |s.entries| && s'.tables == s.tables && s'.entries == s.entries[e := s.entries[e].(val := val)]
    requires s'.past == s.past + [Moment(Current(s'), s'.entries)]
    ensures Evolves(hash, s, s') && TablesOk(hash, s')
  {
    var e := Current(s)[i].ref;
    assert TableOk(hash, s.entries, Current(s));
    assert Has(Current(s')[i], s.entries[e].key) && s'.entries[e].val == val;
    forall t | 0 <= t < |s'.tables| ensures TableOk(hash, s'.entries, s'.tables[t]) {
      assert TableOk(hash, s.entries, s.tables[t]);
    }
  }

  /** Filling slot i of the current table with a new entry of k, which no slot held. */
  lemma Insert<K, V>(hash: K -> nat, s: State<K, V>, s': State<K, V>, k: K, q: nat, val: V)
    requires Inv(hash, s) && Absent(Current(s), k) && q < |Current(s)| && Reaches(Current(s), hash(k), q)
    requires var slots := Current(s); var i := At(hash(k), q, |slots|);
      && !slots[i].Full?
      && s'.tables == s.tables[|s.tables| - 1 := slots[i := Full(|s.entries|, k)]]
      && s'.entries == s.entries + [Entry(k, val)]
      && s'.past == s.past + [Moment(Current(s'), s'.entries)]
    ensures Evolves(hash, s, s') && TablesOk(hash, s')
  {
    var slots := Current(s);
    var i := At(hash(k), q, |slots|);
    assert TableOk(hash, s.entries, slots);
    PutKeepsWellFormed(slots, hash, k, q, |s.entries|);
    assert Has(Current(s')[i], k) && s'.entries[|s.entries|].val == val;
    forall t | 0 <= t < |s'.tables| ensures TableOk(hash, s'.entries, s'.tables[t]) {
      if t < |s.tables| - 1 { assert TableOk(hash, s.entries, s.tables[t]); }
    }
  }

  lemma Remove<K, V>(hash: K -> nat, s: State<K, V>, s': State<K, V>, i: nat)
    requires Inv(hash, s) && i < |Current(s)| && Current(s)[i].Full?
    requires s'.tables == s.tables[|s.tables| - 1 := Current(s)[i := Tomb]] && s'.entries == s.entries
    requires s'.past == s.past + [Moment(Current(s'), s'.entries)]
    ensures Evolves(hash, s, s') && TablesOk(hash, s')
  {
    assert TableOk(hash, s.entries, Current(s));
    TombKeepsWellFormed(Current(s), hash, i);
    assert Shows(Moment(Current(s'), s'.entries), Current(s)[i].key, None);
    forall t | 0 <= t < |s'.tables| ensures TableOk(hash, s'.entries, s'.tables[t]) {
      if t < |s.tables| - 1 { assert TableOk(hash, s.entries, s.tables[t]); }
    }
  }

  lemma RebuiltTable<K, V>(hash: K -> nat, s: State<K, V>, size: nat)
    requires |s.tables| > 0 && TableOk(hash, s.entries, Current(s)) && Count(Kept(All()), Current(s)) < size
    ensures TableOk(hash, s.entries, Rebuild(hash, Current(s), All(), size))
    ensures Nil in Rebuild(hash, Current(s), All(), size)
  {
    RebuildHolds<nat, K>(hash, Current(s), All(), size);
    var r: seq<Slot<nat, K>> := Rebuild<nat, K>(hash, Current(s), All(), size);
    SparseHasNil(r);
    forall j | 0 <= j < |r| && r[j].Full? ensures r[j].ref < |s.entries| && s.entries[r[j].ref].key == r[j].key {
      var m :| 0 <= m < |Current(s)| && Current(s)[m] == r[j];
    }
  }

  // ---------------------------------------------------------------- every step keeps the invariant

  lemma ReadersKept<K, V>(hash: K -> nat, s: State<K, V>, s': State<K, V>)
    requires |s.past| > 0 && ReadersOk(hash, s) && Evolves(hash, s, s') && TablesOk(hash, s)
    requires s'.readers == s.readers
    ensures ReadersOk(hash, s')
  {
    forall r | 0 <= r < |s'.readers| ensures ReaderOk(hash, s', s'.readers[r]) {
      ReaderKept(hash, s, s', s.readers[r]);
    }
  }

  /** The slot a writer inserts into: the first tombstone it met, or the nil that ended its probe. */
  lemma InsertPoint<K>(hash: K -> nat, slots: seq<Slot<nat, K>>, lock: Lock<K>) returns (q: nat)
    requires Chained(slots, hash) && lock.Probing? && LockOk(hash, slots, lock)
    requires lock.d < |slots| && slots[At(hash(lock.work.key), lock.d, |slots|)] == Nil
    ensures Absent(slots, lock.work.key)
    ensures q == (if lock.tomb.Some? then lock.tomb.value else lock.d) && q < |slots|
    ensures Reaches(slots, hash(lock.work.key), q) && !slots[At(hash(lock.work.key), q, |slots|)].Full?
  {
    MissIsAbsent(slots, hash, lock.work.key, lock.d);
    q := if lock.tomb.Some? then lock.tomb.value else lock.d;
  }

  lemma WriteKeeps<K, V>(hash: K -> nat, s: State<K, V>, val: V, alt: bool)
    requires Inv(hash, s) && Enabled(s, Write(val, alt))
    ensures Inv(hash, Step(hash, s, Write(val, alt)))
  {
    WriteEvolves(hash, s, val, alt);
    WriteLock(hash, s, val, alt);
    hide TableOk, TablesOk, ReaderOk, ReadersOk, LockOk, Evolves;
    ReadersKept(hash, s, Step(hash, s, Write(val, alt)));
  }

  lemma WriteEvolves<K, V>(hash: K -> nat, s: State<K, V>, val: V, alt: bool)
    requires Inv(hash, s) && Enabled(s, Write(val, alt))
    ensures var s' := Step(hash, s, Write(val, alt)); Evolves(hash, s, s') && TablesOk(hash, s')
  {
    var s' := Step(hash, s, Write(val, alt));
    assert TableOk(hash, s.entries, Current(s));
    hide ReadersOk, Evolves;
    if s'.tables == s.tables && s'.entries == s.entries {
      SameMoment(hash, s, s');
    } else {
      var slots, k, d := Current(s), s.lock.work.key, s.lock.d;
      var i := At(hash(k), d, |slots|);
      if slots[i].Nil? {
        var q := InsertPoint(hash, slots, s.lock);
        Insert(hash, s, s', k, q, val);
      } else if !s.lock.work.Drop? {
        InPlace(hash, s, s', i, val);
      } else {
        Remove(hash, s, s', i);
      }
    }
  }

  lemma WriteLock<K, V>(hash: K -> nat, s: State<K, V>, val: V, alt: bool)
    requires Inv(hash, s) && Enabled(s, Write(val, alt))
    ensures var s' := Step(hash, s, Write(val, alt)); |s'.tables| > 0 && LockOk(hash, Current(s'), s'.lock)
  {
    hide TablesOk, ReadersOk, Used, LockOk;
    var slots := Current(s);
    SparseHasNil(slots);
    FreshLocks(hash, slots, s.lock);
    if s.lock.Probing? && s.lock.d < |slots| {
      LockMoves(hash, slots, s.lock);
    }
  }

  lemma FreshLocks<K>(hash: K -> nat, slots: seq<Slot<nat, K>>, lock: Lock<K>)
    ensures LockOk(hash, slots, Free)
    ensures forall s: seq<Slot<nat, K>> :: LockOk(hash, s, Free)
    ensures !lock.Free? && (lock.work.Put? ==> Nil in slots) ==> LockOk(hash, slots, Probing(lock.work, 0, None))
  {
  }

  /** The probe of a locked writer goes on behind a tombstone or another key. */
  lemma LockMoves<K>(hash: K -> nat, slots: seq<Slot<nat, K>>, lock: Lock<K>)
    requires lock.Probing? && LockOk(hash, slots, lock) && lock.d < |slots|
    ensures var Probing(work, d, tomb) := lock;
      var slot := slots[At(hash(work.key), d, |slots|)];
      && (slot.Tomb? ==> LockOk(hash, slots, Probing(work, d + 1, if tomb.Some? then tomb else Some(d))))
      && (slot.Full? && slot.key != work.key ==> LockOk(hash, slots, Probing(work, d + 1, tomb)))
  {
  }

  lemma ReadKeeps<K, V>(hash: K -> nat, s: State<K, V>, r: nat)
    requires Inv(hash, s) && Enabled(s, Read(r))
    ensures Inv(hash, Step(hash, s, Read(r)))
  {
    var s' := Step(hash, s, Read(r));
    SameMoment(hash, s, s');
    OwnRead(hash, s, r);
    forall u | 0 <= u < |s'.readers| ensures ReaderOk(hash, s', s'.readers[u]) {
      if u != r { ReaderKept(hash, s, s', s.readers[u]); }
    }
  }

  /** What the reader learns from its own step, one slot or one value word. */
  lemma OwnRead<K, V>(hash: K -> nat, s: State<K, V>, r: nat)
    requires Inv(hash, s) && Enabled(s, Read(r))
    ensures var s' := Step(hash, s, Read(r)); ReaderOk(hash, s', s'.readers[r])
  {
    if s.readers[r].Scanning? {
      OwnScan(hash, s, r);
    } else {
      OwnReading(hash, s, r);
    }
  }

  lemma OwnReading<K, V>(hash: K -> nat, s: State<K, V>, r: nat)
    requires Inv(hash, s) && Enabled(s, Read(r)) && s.readers[r].Reading?
    ensures var s' := Step(hash, s, Read(r)); ReaderOk(hash, s', s'.readers[r])
  {
    assert ReaderOk(hash, s, s.readers[r]);
    hide TablesOk, LockOk, ReadersOk, ShownBetween;
    var Reading(k, start, e) := s.readers[r];
    var m, now := Moment(Current(s), s.entries), |s.past| - 1;
    ShownBoundsStart(s.past, k, start, Some(s.entries[e].val));
    ShownLater(s.past, m, k, start, now, now, Some(s.entries[e].val));
  }

  lemma OwnScan<K, V>(hash: K -> nat, s: State<K, V>, r: nat)
    requires Inv(hash, s) && Enabled(s, Read(r)) && s.readers[r].Scanning?
    ensures var s' := Step(hash, s, Read(r)); ReaderOk(hash, s', s'.readers[r])
  {
    var s' := Step(hash, s, Read(r));
    var m, now := Moment(Current(s), s.entries), |s.past| - 1;
    var Scanning(k, start, table, d) := s.readers[r];
    var slots := s.tables[table];
    assert ReaderOk(hash, s, s.readers[r]);
    assert TableOk(hash, s.entries, slots);
    hide TablesOk, LockOk, ReadersOk, ShownBetween, WellFormed, Ahead;
    if d < |slots| && Has(slots[At(hash(k), d, |slots|)], k) {
      var e := slots[At(hash(k), d, |slots|)].ref;
      ShownLater(s.past, m, k, start, now, now + 1, Some(s.entries[e].val));
    } else if ShownBetween(s.past, k, start, now, None) {
      ShownLater(s.past, m, k, start, now, now, None);
      ShownLater(s.past, m, k, start, now, now + 1, None);
      ShownBoundsStart(s.past, k, start, None);
      ReadScan(hash, s, s', r);
    } else {
      AheadSkips(hash, slots, k, d);
      ReadScan(hash, s, s', r);
    }
  }

  lemma AheadSkips<K>(hash: K -> nat, slots: seq<Slot<nat, K>>, k: K, d: nat)
    requires Ahead(hash, slots, k, d)
    ensures d < |slots| && slots[At(hash(k), d, |slots|)] != Nil
    ensures Has(slots[At(hash(k), d, |slots|)], k) || Ahead(hash, slots, k, d + 1)
  {
    var q :| d <= q < |slots| && Has(slots[At(hash(k), q, |slots|)], k) && Reaches(slots, hash(k), q);
    if q > d {
      assert d + 1 <= q < |slots|;
    }
  }

  /** The part of a scanning reader's invariant about values, carried over its own step. */
  lemma ReadScan<K, V>(hash: K -> nat, s: State<K, V>, s': State<K, V>, r: nat)
    requires Inv(hash, s) && r < |s.readers| && s.readers[r].Scanning?
    requires s'.tables == s.tables && s'.entries == s.entries && s'.past == s.past + [Moment(Current(s), s.entries)]
    ensures var Scanning(k, start, table, _) := s.readers[r];
      && table < |s'.tables|
      && (forall i :: 0 <= i < |s'.tables[table]| && Has(s'.tables[table][i], k)
                      && s'.tables[table][i].ref < |s'.entries| ==>
            ShownBetween(s'.past, k, start, |s'.past| - 1, Some(s'.entries[s'.tables[table][i].ref].val)))
  {
    var Scanning(k, start, table, _) := s.readers[r];
    assert ReaderOk(hash, s, s.readers[r]);
    forall i | 0 <= i < |s'.tables[table]| && Has(s'.tables[table][i], k) && s'.tables[table][i].ref < |s'.entries|
      ensures ShownBetween(s'.past, k, start, |s'.past| - 1, Some(s'.entries[s'.tables[table][i].ref].val))
    {
      var v := s.entries[s.tables[table][i].ref].val;
      ShownLater(s.past, Moment(Current(s), s.entries), k, start, |s.past| - 1, |s.past|, Some(v));
    }
  }

  lemma StartKeeps<K, V>(hash: K -> nat, s: State<K, V>, r: nat, k: K)
    requires Inv(hash, s) && Enabled(s, StartRead(r, k))
    ensures Inv(hash, Step(hash, s, StartRead(r, k)))
  {
    var s' := Step(hash, s, StartRead(r, k));
    SameMoment(hash, s, s');
    OwnStart(hash, s, r, k);
    forall u | 0 <= u < |s'.readers| ensures ReaderOk(hash, s', s'.readers[u]) {
      if u != r { ReaderKept(hash, s, s', s.readers[u]); }
    }
  }

  lemma OwnStart<K, V>(hash: K -> nat, s: State<K, V>, r: nat, k: K)
    requires Inv(hash, s) && Enabled(s, StartRead(r, k))
    ensures ReaderOk(hash, Step(hash, s, StartRead(r, k)), Scanning(k, |s.past| - 1, |s.tables| - 1, 0))
  {
    var s' := Step(hash, s, StartRead(r, k));
    var slots, now := Current(s), |s.past| - 1;
    assert TableOk(hash, s.entries, slots);
    assert s'.past[now] == Moment(slots, s.entries);
    if i :| 0 <= i < |slots| && Has(slots[i], k) {
      AtDist(hash(k), i, |slots|);
      assert Ahead(hash, slots, k, 0);
    } else {
      assert Shows(s'.past[now], k, None);
      assert ShownBetween(s'.past, k, now, now + 1, None);
    }
    forall i | 0 <= i < |slots| && Has(slots[i], k)
      ensures ShownBetween(s'.past, k, now, now + 1, Some(s.entries[slots[i].ref].val))
    {
      assert Shows(s'.past[now], k, Some(s.entries[slots[i].ref].val));
    }
  }

  lemma TableKeeps<K, V>(hash: K -> nat, s: State<K, V>, c: Choice<K, V>)
    requires Inv(hash, s) && Enabled(s, c) && (c.Acquire? || c.Grow? || c.CleanupNow? || c.Clear?)
    ensures Inv(hash, Step(hash, s, c))
  {
    var s' := Step(hash, s, c);
    assert TableOk(hash, s.entries, Current(s));
    match c {
      case Acquire(_) => SameMoment(hash, s, s');
      case Grow(size) => RebuiltTable(hash, s, size); NewTable(hash, s, s', Current(s'));
      case CleanupNow(size) => RebuiltTable(hash, s, size); NewTable(hash, s, s', Current(s'));
      case Clear => NewTable(hash, s, s', Current(s'));
    }
    ReadersKept(hash, s, s');
  }

  lemma StepKeeps<K, V>(hash: K -> nat, s: State<K, V>, c: Choice<K, V>)
    requires Inv(hash, s) && Enabled(s, c)
    ensures Inv(hash, Step(hash, s, c))
  {
    match c
    case Write(val, alt) => WriteKeeps(hash, s, val, alt);
    case StartRead(r, k) => StartKeeps(hash, s, r, k);
    case Read(r) => ReadKeeps(hash, s, r);
    case _ => TableKeeps(hash, s, c);
  }

  lemma {:induction false} RunKeepsInv<K, V>(hash: K -> nat, size: nat, readers: nat, schedule: seq<Choice<K, V>>)
    requires size > 0 && Run(hash, size, readers, schedule).Some?
    ensures Inv(hash, Run(hash, size, readers, schedule).value)
  {
    if schedule != [] {
      var front := schedule[..|schedule| - 1];
      RunKeepsInv(hash, size, readers, front);
      StepKeeps(hash, Run(hash, size, readers, front).value, schedule[|schedule| - 1]);
    }
  }

  // ---------------------------------------------------------------- main theorem

  /** Under every interleaving, a lock-free read that has returned gave what its key had, a value
    * or nothing, at some moment between its first and its last step. */
  lemma {:induction false} ReadsAreTimely<K, V>(hash: K -> nat, size: nat, readers: nat, schedule: seq<Choice<K, V>>,
      r: nat)
    requires size > 0 && Run(hash, size, readers, schedule).Some?
    ensures
      var s := Run(hash, size, readers, schedule).value;
      r < |s.readers| && s.readers[r].Returned? ==>
        ShownBetween(s.past, s.readers[r].k, s.readers[r].start, s.readers[r].end, s.readers[r].res)
  {
    RunKeepsInv(hash, size, readers, schedule);
    var s := Run(hash, size, readers, schedule).value;
    if r < |s.readers| {
      assert ReaderOk(hash, s, s.readers[r]);
    }
  }

  lemma PastStays<K, V>(hash: K -> nat, s: State<K, V>, c: Choice<K, V>)
    requires Inv(hash, s) && Enabled(s, c)
    ensures var s' := Step(hash, s, c); |s'.past| <= |s.past| + 1 && s.past <= s'.past
  {
  }

  lemma ShowsOnce<K, V>(hash: K -> nat, s: State<K, V>, k: K, a: Option<V>, b: Option<V>)
    requires Inv(hash, s) && Shows(s.past[|s.past| - 1], k, a) && Shows(s.past[|s.past| - 1], k, b)
    ensures a == b
  {
    assert TableOk(hash, s.entries, Current(s));
  }

  /** At every moment of a run a key shows one thing only, so the answer means something. */
  lemma {:induction false} MomentsAreFunctions<K, V>(
    hash: K -> nat, size: nat, readers: nat, schedule: seq<Choice<K, V>>, t: nat, k: K, a: Option<V>, b: Option<V>)
    requires size > 0 && Run(hash, size, readers, schedule).Some?
    requires var s := Run(hash, size, readers, schedule).value;
      t < |s.past| && Shows(s.past[t], k, a) && Shows(s.past[t], k, b)
    ensures a == b
  {
    if schedule == [] {
    } else {
      var front := schedule[..|schedule| - 1];
      var s, s' := Run(hash, size, readers, front).value, Run(hash, size, readers, schedule).value;
      RunKeepsInv(hash, size, readers, front);
      RunKeepsInv(hash, size, readers, schedule);
      PastStays(hash, s, schedule[|schedule| - 1]);
      hide Step, Inv, Shows;
      if t < |s.past| {
        MomentsAreFunctions(hash, size, readers, front, t, k, a, b);
      } else {
        ShowsOnce(hash, s', k, a, b);
      }
    }
  }
}
