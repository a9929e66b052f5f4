/** What the writers of a `TypedMap` shard leave for its lock-free readers: at every moment a key shows
  * what the last completed write on it stored.
  */
module TypedWrites {
  import opened Options
  import opened Probe
  import opened TypedReader

  /** Key k has the same at both moments. */
  ghost predicate SameFor<K, V(!new)>(m: Moment<K, V>, m': Moment<K, V>, k: K) {
    forall res: Option<V> :: Shows(m, k, res) <==> Shows(m', k, res)
  }

  ghost predicate SameForOthers<K(!new), V(!new)>(m: Moment<K, V>, m': Moment<K, V>, k: K) {
    forall x :: x != k ==> SameFor(m, m', x)
  }

  function Now<K, V>(s: State<K, V>): Moment<K, V>
    requires |s.tables| > 0
  {
    Moment(Current(s), s.entries)
  }

  /** Slot i is k's, and says what k shows. */
  lemma OneSlotShows<K, V>(m: Moment<K, V>, k: K, i: nat)
    requires Unique(m.slots) && i < |m.slots| && Has(m.slots[i], k) && m.slots[i].ref < |m.entries|
    ensures forall res: Option<V> :: Shows(m, k, res) <==> res == Some(m.entries[m.slots[i].ref].val)
  {
    forall res: Option<V> | Shows(m, k, res) ensures res == Some(m.entries[m.slots[i].ref].val) {
      if res.Some? {
        var j :| 0 <= j < |m.slots| && Has(m.slots[j], k) && m.slots[j].ref < |m.entries|
          && m.entries[m.slots[j].ref].val == res.value;
        assert j == i;
      }
    }
    assert Has(m.slots[i], k);
  }

  lemma NoSlotShows<K, V>(m: Moment<K, V>, k: K)
    requires Absent(m.slots, k)
    ensures forall res: Option<V> :: Shows(m, k, res) <==> res == None
  {
  }

  /** Two tables with the same entry for k, or none. */
  lemma SameSlot<K, V(!new)>(m: Moment<K, V>, m': Moment<K, V>, k: K)
    requires Unique(m.slots) && Unique(m'.slots)
    requires forall i :: 0 <= i < |m.slots| && Has(m.slots[i], k) ==>
      m.slots[i].ref < |m.entries| && m.slots[i] in m'.slots
    requires forall i :: 0 <= i < |m'.slots| && Has(m'.slots[i], k) ==>
      m'.slots[i].ref < |m.entries| && m'.slots[i].ref < |m'.entries| && m'.slots[i] in m.slots
      && m'.entries[m'.slots[i].ref].val == m.entries[m'.slots[i].ref].val
    ensures SameFor(m, m', k)
  {
    if i :| 0 <= i < |m.slots| && Has(m.slots[i], k) {
      var j :| 0 <= j < |m'.slots| && m'.slots[j] == m.slots[i];
      OneSlotShows(m, k, i);
      OneSlotShows(m', k, j);
    } else {
      NoSlotShows(m, k);
      NoSlotShows(m', k);
    }
  }

  /** Tables that differ in one slot, which is not k's in either, have the same slot for k. */
  lemma OtherSlots<K>(a: seq<Slot<nat, K>>, b: seq<Slot<nat, K>>, i: nat, k: K)
    requires i < |a| == |b| && b == a[i := b[i]] && !Has(a[i], k) && !Has(b[i], k)
    ensures forall j :: 0 <= j < |a| && Has(a[j], k) ==> a[j] in b
    ensures forall j :: 0 <= j < |b| && Has(b[j], k) ==> b[j] in a
  {
    forall j | 0 <= j < |a| && j != i ensures a[j] in b && b[j] in a {
      assert b[j] == a[j];
    }
  }

  // ---------------------------------------------------------------- one completed write

  /** The write that ends a locked operation: it stores val under k, or takes k out, or, with `alt`
    * and where there is nothing to exchange or to drop, does nothing. */
  ghost predicate Writes<K(!new), V(!new)>(m: Moment<K, V>, m': Moment<K, V>, work: Work<K>, val: V, alt: bool) {
    var k := work.key;
    && SameForOthers(m, m', k)
    && (if alt || (!work.Put? && Absent(m.slots, k)) then SameFor(m, m', k)
        else Shows(m', k, if work.Drop? then None else Some(val)))
  }

  lemma InsertWrites<K(!new), V(!new)>(hash: K -> nat, s: State<K, V>, s': State<K, V>, val: V, q: nat)
    requires Inv(hash, s) && s.lock.Probing? && s.lock.work.Put?
    requires var slots, k := Current(s), s.lock.work.key;
      && Absent(slots, k) && q < |slots| && !slots[At(hash(k), q, |slots|)].Full?
      && s'.tables == s.tables[|s.tables| - 1 := slots[At(hash(k), q, |slots|) := Full(|s.entries|, k)]]
      && s'.entries == s.entries + [Entry(k, val)] && Unique(Current(s'))
    ensures Writes(Now(s), Now(s'), s.lock.work, val, false)
  {
    var m, m', k := Now(s), Now(s'), s.lock.work.key;
    var i := At(hash(k), q, |m.slots|);
    assert TableOk(hash, s.entries, m.slots);
    OneSlotShows(m', k, i);
    forall x | x != k ensures SameFor(m, m', x) {
      OtherSlots(m.slots, m'.slots, i, x);
      SameSlot(m, m', x);
    }
  }

  lemma InPlaceWrites<K(!new), V(!new)>(hash: K -> nat, s: State<K, V>, s': State<K, V>, val: V, i: nat)
    requires Inv(hash, s) && s.lock.Probing? && !s.lock.work.Drop?
    requires i < |Current(s)| && Has(Current(s)[i], s.lock.work.key)
    requires var e := Current(s)[i].ref;
      e < |s.entries| && s'.tables == s.tables && s'.entries == s.entries[e := s.entries[e].(val := val)]
    ensures Writes(Now(s), Now(s'), s.lock.work, val, false)
  {
    var m, m', k := Now(s), Now(s'), s.lock.work.key;
    assert TableOk(hash, s.entries, m.slots);
    OneSlotShows(m', k, i);
    forall x | x != k ensures SameFor(m, m', x) {
      SameSlot(m, m', x);
    }
  }

  lemma RemoveWrites<K(!new), V(!new)>(hash: K -> nat, s: State<K, V>, s': State<K, V>, val: V, i: nat)
    requires Inv(hash, s) && s.lock.Probing? && s.lock.work.Drop?
    requires i < |Current(s)| && Has(Current(s)[i], s.lock.work.key)
    requires s'.tables == s.tables[|s.tables| - 1 := Current(s)[i := Tomb]] && s'.entries == s.entries
    ensures Writes(Now(s), Now(s'), s.lock.work, val, false)
  {
    var m, m', k := Now(s), Now(s'), s.lock.work.key;
    assert TableOk(hash, s.entries, m.slots);
    NoSlotShows(m', k);
    forall x | x != k ensures SameFor(m, m', x) {
      OtherSlots(m.slots, m'.slots, i, x);
      SameSlot(m, m', x);
    }
  }

  /** When a locked operation unlocks, it has done its write: the new moment shows it, and every other
    * key has what it had before. Until then nothing changes. */
  lemma WriteIsSeen<K(!new), V(!new)>(hash: K -> nat, s: State<K, V>, val: V, alt: bool)
    requires Inv(hash, s) && Enabled(s, Write(val, alt))
    ensures var s' := Step(hash, s, Write(val, alt));
      && |s'.tables| > 0
      && (s'.lock.Free? ==> s.lock.Probing? && Writes(Now(s), Now(s'), s.lock.work, val, alt))
      && (!s'.lock.Free? ==> Now(s') == Now(s))
  {
    var s' := Step(hash, s, Write(val, alt));
    assert TableOk(hash, s.entries, Current(s));
    hide Writes, ReadersOk;
    if s.lock.Probing? && s'.lock.Free? {
      var Probing(work, d, tomb) := s.lock;
      var slots, k := Current(s), work.key;
      if d >= |slots| || (slots[At(hash(k), d, |slots|)].Nil? && (!work.Put? || alt)) {
        MissIsAbsent(slots, hash, k, d);
        NothingWritten(Now(s), work, val, alt);
      } else if alt {
        NothingWritten(Now(s), work, val, alt);
      } else if slots[At(hash(k), d, |slots|)].Nil? {
        var q := InsertPoint(hash, slots, s.lock);
        PutKeepsWellFormed(slots, hash, k, q, |s.entries|);
        InsertWrites(hash, s, s', val, q);
      } else if work.Drop? {
        RemoveWrites(hash, s, s', val, At(hash(k), d, |slots|));
      } else {
        InPlaceWrites(hash, s, s', val, At(hash(k), d, |slots|));
      }
    }
  }

  lemma NothingWritten<K(!new), V(!new)>(m: Moment<K, V>, work: Work<K>, val: V, alt: bool)
    requires alt || (!work.Put? && Absent(m.slots, work.key))
    ensures Writes(m, m, work, val, alt)
  {
  }

  /** Growing and cleaning up change what no key shows, and after a clear no key shows anything. */
  lemma TablesAreSeen<K(!new), V(!new)>(hash: K -> nat, s: State<K, V>, c: Choice<K, V>, k: K)
    requires Inv(hash, s) && Enabled(s, c) && !c.Write?
    ensures var s' := Step(hash, s, c);
      && |s'.tables| > 0
      && (if c.Clear? then Shows(Now(s'), k, None) else SameFor(Now(s), Now(s'), k))
  {
    var s' := Step(hash, s, c);
    if c.Grow? || c.CleanupNow? {
      assert TableOk(hash, s.entries, Current(s));
      RebuildHolds<nat, K>(hash, Current(s), All(), c.size);
      hide HoldsKept;
      RebuiltHas(hash, Current(s), c.size, k);
      RebuildHolds<nat, K>(hash, Current(s), All(), c.size);
      RebuiltIsUnique(hash, Current(s), c.size);
      SameSlot(Now(s), Now(s'), k);
    }
  }

  lemma RebuiltIsUnique<K>(hash: K -> nat, slots: seq<Slot<nat, K>>, size: nat)
    requires HoldsKept(hash, slots, All(), Rebuild(hash, slots, All(), size))
    ensures Unique(Rebuild(hash, slots, All(), size))
  {
  }

  lemma RebuiltHas<K>(hash: K -> nat, slots: seq<Slot<nat, K>>, size: nat, k: K)
    requires HoldsKept(hash, slots, All(), Rebuild(hash, slots, All(), size))
    ensures var r := Rebuild(hash, slots, All(), size);
      && (forall i :: 0 <= i < |slots| && Has(slots[i], k) ==> slots[i] in r)
      && (forall i :: 0 <= i < |r| && Has(r[i], k) ==> r[i] in slots)
  {
  }

  // ---------------------------------------------------------------- over a run

  /** What the completed writes of a run have left under k. */
  ghost function LastWritten<K, V>(hash: K -> nat, size: nat, readers: nat, schedule: seq<Choice<K, V>>,
      k: K): Option<V>
    requires Run(hash, size, readers, schedule).Some?
  {
    if schedule == [] then None else
    var front, c := schedule[..|schedule| - 1], schedule[|schedule| - 1];
    var s := Run(hash, size, readers, front).value;
    AfterStep(s, Step(hash, s, c), c, k, LastWritten(hash, size, readers, front, k))
  }

  /** At every moment every key shows what the completed writes before it have left. */
  lemma {:induction false} ShowsLastWritten<K(!new), V(!new)>(hash: K -> nat, size: nat, readers: nat,
      schedule: seq<Choice<K, V>>, k: K)
    requires size > 0 && Run(hash, size, readers, schedule).Some?
    ensures var s := Run(hash, size, readers, schedule).value;
      |s.tables| > 0 && Shows(Now(s), k, LastWritten(hash, size, readers, schedule, k))
  {
    if schedule != [] {
      var front, c := schedule[..|schedule| - 1], schedule[|schedule| - 1];
      var s := Run(hash, size, readers, front).value;
      ShowsLastWritten(hash, size, readers, front, k);
      RunKeepsInv(hash, size, readers, front);
      StepShows(hash, s, c, k, LastWritten(hash, size, readers, front, k));
    }
  }

  /** What k shows after a step, if it showed `before`. */
  ghost function AfterStep<K, V>(s: State<K, V>, s': State<K, V>, c: Choice<K, V>, k: K, before: Option<V>): Option<V> {
    match c
    case Clear => None
    case Write(val, alt) =>
      if alt || !s.lock.Probing? || s.lock.work.key != k || !s'.lock.Free? then before
      else (match s.lock.work
        case Put(_) => Some(val)
        case Exchange(_) => if before.Some? then Some(val) else None
        case Drop(_) => None)
    case _ => before
  }

  lemma WriteShows<K(!new), V(!new)>(hash: K -> nat, s: State<K, V>, val: V, alt: bool, k: K, before: Option<V>)
    requires Inv(hash, s) && Enabled(s, Write(val, alt)) && Shows(Now(s), k, before)
    ensures var s' := Step(hash, s, Write(val, alt));
      |s'.tables| > 0 && Shows(Now(s'), k, AfterStep(s, s', Write(val, alt), k, before))
  {
    WriteIsSeen(hash, s, val, alt);
    assert before == None <==> Absent(Current(s), k);
    hide Inv, Step;
    var s' := Step(hash, s, Write(val, alt));
    if s'.lock.Free? && s.lock.work.key != k {
      assert SameFor(Now(s), Now(s'), k);
    }
  }

  /** One step of that. */
  lemma StepShows<K(!new), V(!new)>(hash: K -> nat, s: State<K, V>, c: Choice<K, V>, k: K, before: Option<V>)
    requires Inv(hash, s) && Enabled(s, c) && Shows(Now(s), k, before)
    ensures var s' := Step(hash, s, c); |s'.tables| > 0 && Shows(Now(s'), k, AfterStep(s, s', c, k, before))
  {
    hide Inv, Shows, Step;
    if c.Write? {
      WriteShows(hash, s, c.val, c.alt, k, before);
    } else {
      TablesAreSeen(hash, s, c, k);
    }
  }

  lemma {:induction false} PastOfRun<K, V>(hash: K -> nat, size: nat, readers: nat, schedule: seq<Choice<K, V>>, t: nat)
    requires size > 0 && Run(hash, size, readers, schedule).Some? && t <= |schedule|
    ensures Run(hash, size, readers, schedule[..t]).Some?
    ensures |Run(hash, size, readers, schedule).value.past| == |schedule| + 1
    ensures var s := Run(hash, size, readers, schedule[..t]).value;
      |s.tables| > 0 && Run(hash, size, readers, schedule).value.past[t] == Now(s)
  {
    RunKeepsInv(hash, size, readers, schedule);
    if schedule == [] {
      assert schedule[..t] == [];
    } else {
      var front, c := schedule[..|schedule| - 1], schedule[|schedule| - 1];
      PastOfRun(hash, size, readers, front, if t < |schedule| then t else 0);
      RunKeepsInv(hash, size, readers, front);
      PastStays(hash, Run(hash, size, readers, front).value, c);
      hide Inv, Step;
      if t < |schedule| {
        assert schedule[..t] == front[..t];
      } else {
        assert schedule[..t] == schedule;
      }
    }
  }

  /** Under every interleaving, a lock-free read that has returned gave what the completed writes had
    * left under its key at some moment between its first and its last step. */
  lemma ReadsGiveLastWritten<K(!new), V(!new)>(hash: K -> nat, size: nat, readers: nat,
      schedule: seq<Choice<K, V>>, r: nat)
    requires size > 0 && Run(hash, size, readers, schedule).Some?
    requires var s := Run(hash, size, readers, schedule).value; r < |s.readers| && s.readers[r].Returned?
    ensures var Returned(k, start, end, res) := Run(hash, size, readers, schedule).value.readers[r];
      exists t: nat :: start <= t <= end && t <= |schedule| && Run(hash, size, readers, schedule[..t]).Some?
        && res == LastWritten(hash, size, readers, schedule[..t], k)
  {
    var s := Run(hash, size, readers, schedule).value;
    var Returned(k, start, end, res) := s.readers[r];
    ReadsAreTimely(hash, size, readers, schedule, r);
    var t: nat :| start <= t <= end && t < |s.past| && Shows(s.past[t], k, res);
    hide Run, Inv, Shows;
    PastOfRun(hash, size, readers, schedule, |schedule|);
    PastOfRun(hash, size, readers, schedule, t);
    ShowsLastWritten(hash, size, readers, schedule[..t], k);
    MomentsAreFunctions(hash, size, readers, schedule, t, k, res, LastWritten(hash, size, readers, schedule[..t], k));
  }

  /** The holder of the mutex is never stuck: each of its steps brings it one slot further, and it
    * unlocks before it has gone round. */
  lemma WriterMovesOn<K, V>(hash: K -> nat, s: State<K, V>, val: V, alt: bool)
    requires Inv(hash, s) && Enabled(s, Write(val, alt))
    ensures var lock := Step(hash, s, Write(val, alt)).lock;
      || lock.Free?
      || (s.lock.Entered? && lock == Probing(s.lock.work, 0, None))
      || (s.lock.Probing? && lock.Probing? && lock.work == s.lock.work && lock.d == s.lock.d + 1 <= |Current(s)|)
  {
    if s.lock.Probing? && s.lock.work.Put? && s.lock.d == |Current(s)| {
      var i :| 0 <= i < |Current(s)| && Current(s)[i] == Nil;
      AtDist(hash(s.lock.work.key), i, |Current(s)|);
    }
  }

  /** Nor is a reader: each step brings it one slot further, to its entry, or home. */
  lemma ReaderMovesOn<K, V>(hash: K -> nat, s: State<K, V>, r: nat)
    requires Inv(hash, s) && Enabled(s, Read(r))
    ensures var (was, is_) := (s.readers[r], Step(hash, s, Read(r)).readers[r]);
      || is_.Returned?
      || (was.Scanning? && is_.Reading?)
      || (was.Scanning? && is_.Scanning? && is_.table == was.table < |s.tables|
          && is_.d == was.d + 1 <= |s.tables[was.table]|)
  {
    assert ReaderOk(hash, s, s.readers[r]);
  }
}
