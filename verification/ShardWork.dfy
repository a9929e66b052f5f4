/** What a thread of a `Map` shard has done when it is through with its work, whatever the others did
  * meanwhile.
  */
module ShardWork {
  import opened Options
  import opened Probe
  import opened ShardMachine

  /** The work that a thread still has before it. A remover that has claimed a box has done it. */
  function Doing<K>(s: State<K>, t: nat): Option<Work<K>>
    requires t < |s.threads|
  {
    match s.threads[t]
    case Gate(_, work) => Some(work)
    case Enter(work) => Some(work)
    case Retry(work) => Some(work)
    case Probe(probe, k, _) => Some(if probe.PutSlot? || probe.PutCas? then Put(k) else Remove(k))
    case Swapping(e, _) => if e < |s.entries| then Some(Put(s.entries[e].key)) else None
    case AtEntry(at, e, _) =>
      if e >= |s.entries| || at.RemoveUnlink? then None
      else Some(if at.PutLoad? || at.PutSwap? then Put(s.entries[e].key) else Remove(s.entries[e].key))
    case _ => None
  }

  /** An entry of the table for k. */
  ghost predicate EntryOf<K>(s: State<K>, e: nat, k: K) {
    e < |s.entries| && s.entries[e].key == k && InTable(s, e)
  }

  /** k, which was nowhere in the table, has got a slot with an entry and a fresh box. */
  ghost predicate Inserts<K>(s: State<K>, s': State<K>, k: K, i: nat) {
    && Absent(s.slots, k) && i < |s.slots| && s.slots[i] == Nil && s'.slots == s.slots[i := Full(|s.entries|, k)]
    && s'.entries == s.entries + [Entry(k, Some(|s.boxes|))] && s'.boxes == s.boxes + [Box(|s.entries|, false)]
  }

  /** Entry e of k points to a fresh box. */
  ghost predicate Replaces<K>(s: State<K>, s': State<K>, k: K, e: nat) {
    && e < |s.entries| && s.entries[e].key == k && s'.slots == s.slots
    && s'.entries == s.entries[e := Entry(k, Some(|s.boxes|))] && s'.boxes == s.boxes + [Box(e, false)]
  }

  /** The box that k's entry points to, or pointed to when it was loaded, is claimed by this step. */
  ghost predicate Claims<K>(s: State<K>, s': State<K>, t: nat, k: K, e: nat, b: nat) {
    && t < |s.threads| && EntryOf(s, e, k) && BoxOf(s, e, b) && !s.boxes[b].claimed
    && s' == SetPc(s.(boxes := s.boxes[b := Box(e, true)]), t, AtEntry(RemoveUnlink, e, Some(b)))
  }

  /** A lookup of k has come past other keys only, up to a slot whose insert has not written its
    * control word yet. */
  ghost predicate MeetsInsert<K>(hash: K -> nat, s: State<K>, k: K, d: nat, u: nat) {
    && d < |s.slots| && Misses(s.slots, hash(k), k, d) && Publishing(s.threads, u, At(hash(k), d, |s.slots|))
    && Inside(s.threads[u])
  }

  /** Why a remover of k may go away with nothing done: there is no k, an insert that has not returned
    * stands in its way, k's entry has no box, or the box that it had loaded is another remover's. */
  ghost predicate NothingToRemove<K>(hash: K -> nat, s: State<K>, t: nat, k: K)
    requires t < |s.threads|
  {
    || Absent(s.slots, k)
    || (exists d: nat, u: nat :: MeetsInsert(hash, s, k, d, u))
    || (exists e: nat :: EntryOf(s, e, k) && s.entries[e].box == None)
    || (exists e: nat, b: nat :: EntryOf(s, e, k) && BoxOf(s, e, b) && s.boxes[b].claimed
                                 && s.threads[t] == AtEntry(RemoveClaim, e, Some(b)))
  }

  /** What a thread has done in the step with which its work is behind it. `alt` stands for a
    * LoadOrStore that found a value, and for a conditional operation that compared unequal. */
  ghost predicate Done<K>(hash: K -> nat, s: State<K>, s': State<K>, t: nat, work: Work<K>, alt: bool)
    requires t < |s.threads|
  {
    match work
    case Put(k) =>
      || (exists i: nat :: Inserts(s, s', k, i))
      || (exists e: nat :: Replaces(s, s', k, e))
      || (alt && s' == SetPc(s, t, Leave()) && exists e: nat :: EntryOf(s, e, k) && s.entries[e].box.Some?)
    case Remove(k) =>
      || (exists e: nat, b: nat :: Claims(s, s', t, k, e, b))
      || (s' == SetPc(s, t, Leave()) && (NothingToRemove(hash, s, t, k) || (alt && exists e: nat :: EntryOf(s, e, k))))
  }

  ghost predicate GoesOnOrDone<K>(hash: K -> nat, s: State<K>, t: nat, alt: bool, size: nat)
    requires Enabled(s, t, Go(alt, size))
  {
    var s' := Step(hash, s, t, Go(alt, size));
    Doing(s, t).Some? && t < |s'.threads| &&
    (Doing(s', t) == Doing(s, t) || (Doing(s', t) == None && Done(hash, s, s', t, Doing(s, t).value, alt)))
  }

  lemma PutProbeWork<K>(hash: K -> nat, s: State<K>, t: nat, alt: bool, size: nat)
    requires Inv(hash, s) && Enabled(s, t, Go(alt, size)) && s.threads[t].Probe?
    requires s.threads[t].probe.PutSlot? || s.threads[t].probe.PutCas?
    ensures GoesOnOrDone(hash, s, t, alt, size)
  {
    InvPc(hash, s, t);
    var Probe(probe, k, d) := s.threads[t];
    var s' := Step(hash, s, t, Go(alt, size));
    hide CountsOk, GateOk, BoxesOk, PcsOk, CtrlOk, Sum, BoxOf;
    if probe.PutCas? && d < |s.slots| && !s.slots[At(hash(k), d, |s.slots|)].Full? {
      MissIsAbsent(s.slots, hash, k, d);
      assert Inserts(s, s', k, At(hash(k), d, |s.slots|));
    }
  }

  /** A control word that is still 0 ends the lookup: there is no k, or an insert in its way. */
  lemma ZeroEndsLookup<K>(hash: K -> nat, s: State<K>, k: K, d: nat)
    requires TableOk(hash, s.entries, s.slots) && CtrlOk(hash, s.slots, s.ctrl, s.threads)
    requires d < |s.slots| && Misses(s.slots, hash(k), k, d) && s.ctrl[At(hash(k), d, |s.slots|)] == 0
    ensures Absent(s.slots, k) || exists u: nat :: MeetsInsert(hash, s, k, d, u)
  {
    var i := At(hash(k), d, |s.slots|);
    if s.slots[i].Full? {
      var u: nat :| Publishing(s.threads, u, i);
      assert s.threads[u].Publish?;
      assert MeetsInsert(hash, s, k, d, u);
    } else {
      MissIsAbsent(s.slots, hash, k, d);
    }
  }

  lemma RemoveProbeWork<K>(hash: K -> nat, s: State<K>, t: nat, alt: bool, size: nat)
    requires Inv(hash, s) && Enabled(s, t, Go(alt, size)) && s.threads[t].Probe?
    requires s.threads[t].probe.RemoveCtrl? || s.threads[t].probe.RemoveSlot?
    ensures GoesOnOrDone(hash, s, t, alt, size)
  {
    InvPc(hash, s, t);
    var Probe(probe, k, d) := s.threads[t];
    if d >= |s.slots| {
      MissIsAbsent(s.slots, hash, k, d);
    } else if probe.RemoveCtrl? && s.ctrl[At(hash(k), d, |s.slots|)] == 0 {
      ZeroEndsLookup(hash, s, k, d);
    }
    hide CountsOk, GateOk, BoxesOk, PcsOk, CtrlOk, Inside, Sum, BoxOf, Absent, Misses, MeetsInsert;
  }

  lemma PutEntryWork<K>(hash: K -> nat, s: State<K>, t: nat, alt: bool, size: nat)
    requires Inv(hash, s) && Enabled(s, t, Go(alt, size))
    requires s.threads[t].AtEntry? && (s.threads[t].at.PutLoad? || s.threads[t].at.PutSwap?)
    ensures GoesOnOrDone(hash, s, t, alt, size)
  {
    hide CountsOk, GateOk, BoxesOk, CtrlOk, PcsOk, TableOk, Sum, InTable, BoxOf;
    InvPc(hash, s, t);
    var AtEntry(at, e, seen) := s.threads[t];
    var s' := Step(hash, s, t, Go(alt, size));
    assert EntryOf(s, e, s.entries[e].key);
    if at.PutSwap? && s.entries[e].box == seen {
      assert Replaces(s, s', s.entries[e].key, e);
    }
  }

  lemma RemoveEntryWork<K>(hash: K -> nat, s: State<K>, t: nat, alt: bool, size: nat)
    requires Inv(hash, s) && Enabled(s, t, Go(alt, size))
    requires s.threads[t].AtEntry? && (s.threads[t].at.RemoveLoad? || s.threads[t].at.RemoveClaim?)
    ensures GoesOnOrDone(hash, s, t, alt, size)
  {
    InvPc(hash, s, t);
    var AtEntry(at, e, seen) := s.threads[t];
    var s' := Step(hash, s, t, Go(alt, size));
    hide CountsOk, GateOk, BoxesOk, CtrlOk, PcsOk, TableOk, InTable;
    assert EntryOf(s, e, s.entries[e].key);
    if at.RemoveClaim? && !alt && !s.boxes[seen.value].claimed {
      assert Claims(s, s', t, s.entries[e].key, e, seen.value);
    }
  }

  lemma SwapWork<K>(hash: K -> nat, s: State<K>, t: nat, alt: bool, size: nat)
    requires Inv(hash, s) && Enabled(s, t, Go(alt, size)) && s.threads[t].Swapping?
    ensures GoesOnOrDone(hash, s, t, alt, size)
  {
    InvPc(hash, s, t);
    var Swapping(e, seen) := s.threads[t];
    hide CountsOk, GateOk, BoxesOk, CtrlOk, PcsOk, TableOk;
    if s.entries[e].box == seen {
      assert Replaces(s, Step(hash, s, t, Go(alt, size)), s.entries[e].key, e);
    }
  }

  /** A thread with work before it still has that work before it after its step, or this step did it,
    * or found that there is nothing to do. */
  lemma WorkIsDone<K(!new)>(hash: K -> nat, s: State<K>, t: nat, alt: bool, size: nat)
    requires Reachable(hash, s) && Enabled(s, t, Go(alt, size)) && Doing(s, t).Some?
    ensures GoesOnOrDone(hash, s, t, alt, size)
  {
    ReachableInv(hash, s);
    if s.threads[t].Probe? || s.threads[t].AtEntry? || s.threads[t].Swapping? {
      hide GoesOnOrDone, Inv;
      match s.threads[t] {
        case Probe(probe, _, _) =>
          if probe.PutSlot? || probe.PutCas? { PutProbeWork(hash, s, t, alt, size); }
          else { RemoveProbeWork(hash, s, t, alt, size); }
        case AtEntry(at, _, _) =>
          if at.PutLoad? || at.PutSwap? { PutEntryWork(hash, s, t, alt, size); }
          else { RemoveEntryWork(hash, s, t, alt, size); }
        case Swapping(_, _) => SwapWork(hash, s, t, alt, size);
      }
    } else {
      LoadedInRange(s, t);
      hide Inv, Done;
    }
  }

  lemma LoadedInRange<K>(s: State<K>, t: nat)
    requires GateOk(s) && t < |s.threads|
    ensures t < |s.loaded|
  {
  }

  /** A remover that has claimed a box unlinks it, or finds it unlinked: after its step no entry of
    * the table points to that box any more. */
  lemma ClaimedIsUnlinked<K(!new)>(hash: K -> nat, s: State<K>, t: nat, alt: bool, size: nat)
    requires Reachable(hash, s) && Enabled(s, t, Go(alt, size))
    requires s.threads[t].AtEntry? && s.threads[t].at.RemoveUnlink?
    ensures var s' := Step(hash, s, t, Go(alt, size));
      && s.threads[t].seen.Some?
      && (forall x :: 0 <= x < |s'.entries| ==> s'.entries[x].box != s.threads[t].seen)
  {
    ReachableInv(hash, s);
    InvPc(hash, s, t);
    var AtEntry(at, e, seen) := s.threads[t];
    forall x | 0 <= x < |s.entries| && x != e ensures s.entries[x].box != seen {
    }
  }

  /** A clear puts in place a table without entries, and nothing else. */
  lemma ClearIsEmpty<K>(hash: K -> nat, s: State<K>, t: nat, alt: bool, size: nat)
    requires Enabled(s, t, Go(alt, size)) && s.threads[t].Clearing? && size > 0
    ensures var s' := Step(hash, s, t, Go(alt, size));
      && |s'.slots| == |s'.ctrl| == size
      && (forall k :: Absent(s'.slots, k)) && (forall i :: 0 <= i < size ==> s'.ctrl[i] == 0)
      && s'.entries == s.entries && s'.boxes == s.boxes && s'.threads[t].Settle? && s'.threads[t].kept == 0
  {
  }
}
