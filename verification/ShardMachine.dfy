/** One shard of `Map` under any interleaving of plain writers, removers and resizers.
  *
  * A writer enters through the gate: it adds one to the state word and backs off if the resizing
  * bit was set. Writers inside race on write-once slots with CAS, publish the control word after
  * the slot, and update the counters after that. A resizer sets the bit, waits until nobody is
  * inside, rebuilds the table and recounts. A store on a present key may also swap an entry's box
  * without entering the gate. Values play no part here: a box is claimed or not.
  */
module ShardMachine {
  import opened Options
  import opened Probe

  /** shardResizing: the resizing bit of the state word. */
  const BIT: int := 0x4000_0000_0000_0000

  predicate HasBit(v: int) {
    (v / BIT) % 2 == 1
  }

  /** `owner` is the entry a box was made for; a box is published to that entry at most once. */
  datatype Box = Box(owner: nat, claimed: bool)

  datatype Entry<K> = Entry(key: K, box: Option<nat>)

  /** Put: Store, Swap, LoadOrStore. Remove: Delete, CompareAndDelete, and CompareAndSwap, which
    * looks the entry up in the same way and then leaves. */
  datatype Work<K> = Put(key: K) | Remove(key: K)

  datatype GateAt = Adding | BackingOff | Spinning

  /** PutSlot reads a slot, PutCas tries to fill one found nil; RemoveCtrl reads a control word,
    * RemoveSlot the slot behind one that matched. */
  datatype ProbeAt = PutSlot | PutCas | RemoveCtrl | RemoveSlot

  /** Load the box pointer; Swap it for a fresh box; Claim the box; Unlink it. */
  datatype EntryAt = PutLoad | PutSwap | RemoveLoad | RemoveClaim | RemoveUnlink

  /** Where a thread stands before its next shared access. `seen` is the pointer it loaded. */
  datatype Pc<K> =
    | Idle
    | Swapping(e: nat, seen: Option<nat>)                 // store that replaces a box outside the gate
    | Gate(gate: GateAt, work: Work<K>)
    | Enter(work: Work<K>)                                // past the gate, about to load the table pointer
    | Probe(probe: ProbeAt, k: K, d: nat)
    | Retry(work: Work<K>)                                // lost a slot or found none: endWrite, then again
    | Publish(k: K, i: nat)                               // filled slot i, its control word not yet written
    | AtEntry(at: EntryAt, e: nat, seen: Option<nat>)
    | Owe(live: int, used: int, tombs: int)               // counter updates left, then endWrite
    | ResizeCas(word: int) | Drain
    | Scan(i: nat, kept: nat)
    | Build(i: nat, kept: nat, newSlots: seq<Slot<nat, K>>, newCtrl: seq<nat>)
    | Clearing
    | Settle(left: nat, kept: nat, live: int, used: int, tombs: int)
        // new table in place, the last `left` of live, used and tombstones not yet stored
    | Release

  /** `slots` and `ctrl` are the current table and `gen` is its number: every table put in place gets
    * a new one. `loaded[t]` is the number of the table that thread t loaded last. `holder` is
    * bookkeeping: the thread that set the resizing bit. */
  datatype State<K> = State(
    word: int, holder: Option<nat>,
    slots: seq<Slot<nat, K>>, ctrl: seq<nat>, gen: nat, loaded: seq<nat>,
    entries: seq<Entry<K>>, boxes: seq<Box>,
    live: int, used: int, tombs: int,
    threads: seq<Pc<K>>)

  /** Between beginWrite's return and endWrite. */
  predicate Inside<K>(pc: Pc<K>) {
    pc.Enter? || HasTable(pc)
  }

  /** Inside, and working on the table it has loaded. */
  predicate HasTable<K>(pc: Pc<K>) {
    pc.Probe? || pc.Retry? || pc.Publish? || pc.AtEntry? || pc.Owe?
  }

  /** Past the drain loop of a resize or a clear, with the bit still set. */
  predicate Exclusive<K>(pc: Pc<K>) {
    pc.Scan? || pc.Build? || pc.Clearing? || pc.Settle? || pc.Release?
  }

  predicate Holds<K>(pc: Pc<K>) {
    pc.Drain? || Exclusive(pc)
  }

  // What a thread still owes the state word and the counters: a writer what it has to add, a resizer
  // the difference that its remaining stores make.

  function Pending<K>(): Pc<K> -> int {
    (pc: Pc<K>) => if Inside(pc) || (pc.Gate? && pc.gate.BackingOff?) then 1 else 0
  }

  function LiveDue<K>(): Pc<K> -> int {
    (pc: Pc<K>) => if pc.Publish? then 1 else if pc.Owe? || pc.Settle? then pc.live else 0
  }

  function UsedDue<K>(): Pc<K> -> int {
    (pc: Pc<K>) => if pc.Publish? then 1 else if pc.Owe? || pc.Settle? then pc.used else 0
  }

  function TombDue<K>(): Pc<K> -> int { (pc: Pc<K>) => if pc.Owe? || pc.Settle? then pc.tombs else 0 }

  function Sum<T>(f: T -> int, s: seq<T>): int {
    if s == [] then 0 else Sum(f, s[..|s| - 1]) + f(s[|s| - 1])
  }

  lemma {:induction false} SumUpdate<T>(f: T -> int, s: seq<T>, i: nat, x: T)
    requires i < |s|
    ensures Sum(f, s[i := x]) == Sum(f, s) - f(s[i]) + f(x)
  {
    var front, last := s[..|s| - 1], |s| - 1;
    if i == last {
      assert s[i := x][..last] == front;
    } else {
      SumUpdate(f, front, i, x);
      assert s[i := x][..last] == front[i := x];
    }
  }

  lemma {:induction false} SumBounds<T>(f: T -> int, s: seq<T>)
    requires forall x :: f(x) >= 0
    ensures Sum(f, s) >= 0
    ensures forall i :: 0 <= i < |s| ==> f(s[i]) <= Sum(f, s)
  {
    if s != [] {
      SumBounds(f, s[..|s| - 1]);
    }
  }

  lemma {:induction false} SumZero<T>(f: T -> int, s: seq<T>)
    requires forall i :: 0 <= i < |s| ==> f(s[i]) == 0
    ensures Sum(f, s) == 0
  {
    if s != [] {
      SumZero(f, s[..|s| - 1]);
    }
  }

  // ---------------------------------------------------------------- the steps

  /** `Begin*` start an idle thread; `Go` lets a running one take its next step. `alt` picks
    * between the ways that step can turn out for reasons not modelled, `size` is the slot count
    * a rebuild chooses. */
  datatype What<K> = BeginWork(work: Work<K>) | BeginSwap(e: nat) | BeginResize | Go(alt: bool, size: nat)

  function SetPc<K>(s: State<K>, t: nat, pc: Pc<K>): State<K>
    requires t < |s.threads|
  {
    s.(threads := s.threads[t := pc])
  }

  function Arrive<K>(work: Work<K>): Pc<K> {
    match work case Put(k) => Probe(PutSlot, k, 0) case Remove(k) => Probe(RemoveCtrl, k, 0)
  }

  function Leave<K>(): Pc<K> { Owe(0, 0, 0) }

  /** A rebuild asks for more slots than it keeps entries (see module Sizing). */
  predicate Enabled<K>(s: State<K>, t: nat, w: What<K>) {
    && t < |s.threads|
    && (match w
        case BeginWork(_) => s.threads[t].Idle?
        case BeginSwap(e) => s.threads[t].Idle? && e < |s.entries| && s.entries[e].box.Some?
        case BeginResize => s.threads[t].Idle?
        case Go(_, size) => !s.threads[t].Idle? && (s.threads[t].Scan? ==> s.threads[t].kept < size))
  }

  /** A fresh box published on entry e. */
  function NewBox<K>(s: State<K>, e: nat): State<K>
    requires e < |s.entries|
  {
    s.(boxes := s.boxes + [Box(e, false)], entries := s.entries[e := s.entries[e].(box := Some(|s.boxes|))])
  }

  /** beginWrite. */
  function GateStep<K>(s: State<K>, t: nat, gate: GateAt, work: Work<K>): State<K>
    requires t < |s.threads|
  {
    match gate
    case Adding =>
      SetPc(s.(word := s.word + 1), t, if HasBit(s.word + 1) then Gate(BackingOff, work) else Enter(work))
    case BackingOff => SetPc(s.(word := s.word - 1), t, Gate(Spinning, work))
    case Spinning => if HasBit(s.word) then s else SetPc(s, t, Gate(Adding, work))
  }

  /** store, storeNewBundle, insertFresh, loadOrStoreSlow: probe the slots, insert or go to the
    * entry. delete, compareAndDelete, compareAndSwap: findEntry by control words. */
  function ProbeStep<K(==)>(hash: K -> nat, s: State<K>, t: nat, probe: ProbeAt, k: K, d: nat): State<K>
    requires t < |s.threads|
  {
    var n := |s.slots|;
    if d >= n || n != |s.ctrl| then SetPc(s, t, if probe.PutSlot? || probe.PutCas? then Retry(Put(k)) else Leave()) else
    var i := At(hash(k), d, n);
    var slot := s.slots[i];
    match probe
    case PutSlot =>
      SetPc(s, t, if !slot.Full? then Probe(PutCas, k, d)
                  else if slot.key == k then AtEntry(PutLoad, slot.ref, None)
                  else Probe(PutSlot, k, d + 1))
    case PutCas =>
      if slot.Full? then SetPc(s, t, Retry(Put(k))) else
      SetPc(s.(slots := s.slots[i := Full(|s.entries|, k)],
               entries := s.entries + [Entry(k, Some(|s.boxes|))],
               boxes := s.boxes + [Box(|s.entries|, false)]), t, Publish(k, i))
    case RemoveCtrl =>
      SetPc(s, t, if s.ctrl[i] == 0 then Leave()
                  else if s.ctrl[i] == Fingerprint(hash(k)) then Probe(RemoveSlot, k, d)
                  else Probe(RemoveCtrl, k, d + 1))
    case RemoveSlot =>
      SetPc(s, t, if Has(slot, k) then AtEntry(RemoveLoad, slot.ref, None) else Probe(RemoveCtrl, k, d + 1))
  }

  /** replaceOrRevive, loadOrStoreCurrent and the removers, at the entry they found. `alt` at
    * PutLoad: a LoadOrStore that found the entry live; at RemoveLoad: a conditional operation that
    * compared unequal, or a swap; at RemoveClaim: the data word changed since it was compared. */
  function EntryStep<K>(s: State<K>, t: nat, at: EntryAt, e: nat, seen: Option<nat>, alt: bool): State<K>
    requires t < |s.threads|
  {
    if e >= |s.entries| then s else
    var box := s.entries[e].box;
    match at
    case PutLoad => SetPc(s, t, if box.Some? && alt then Leave() else AtEntry(PutSwap, e, box))
    case PutSwap =>
      if box != seen then SetPc(s, t, AtEntry(PutLoad, e, None))
      else SetPc(NewBox(s, e), t, if seen == None then Owe(1, 0, -1) else Leave())
    case RemoveLoad => SetPc(s, t, if box == None || alt then Leave() else AtEntry(RemoveClaim, e, box))
    case RemoveClaim =>
      if seen == None || seen.value >= |s.boxes| then s else
      var b := seen.value;
      if alt then SetPc(s, t, AtEntry(RemoveLoad, e, None))
      else if s.boxes[b].claimed then SetPc(s, t, Leave())
      else SetPc(s.(boxes := s.boxes[b := s.boxes[b].(claimed := true)]), t, AtEntry(RemoveUnlink, e, seen))
    case RemoveUnlink =>
      if box != seen then SetPc(s, t, Leave())
      else SetPc(s.(entries := s.entries[e := s.entries[e].(box := None)]), t, Owe(-1, 0, 1))
  }

  /** The counter updates, one at a time, then endWrite. */
  function PayStep<K>(s: State<K>, t: nat, live: int, used: int, tombs: int): State<K>
    requires t < |s.threads|
  {
    if live != 0 then SetPc(s.(live := s.live + live), t, Owe(0, used, tombs))
    else if used != 0 then SetPc(s.(used := s.used + used), t, Owe(0, 0, tombs))
    else if tombs != 0 then SetPc(s.(tombs := s.tombs + tombs), t, Owe(0, 0, 0))
    else SetPc(s.(word := s.word - 1), t, Idle)
  }

  predicate IsLive<K>(entries: seq<Entry<K>>, slot: Slot<nat, K>) {
    slot.Full? && slot.ref < |entries| && entries[slot.ref].box.Some?
  }

  function Zeros(n: nat): (ctrl: seq<nat>) { seq(n, _ => 0) }

  /** The store of the table pointer. The counters still say what they said before. */
  function Install<K>(s: State<K>, t: nat, slots: seq<Slot<nat, K>>, ctrl: seq<nat>, kept: nat): State<K>
    requires t < |s.threads|
  {
    var left := Settle(3, kept, kept - s.live, kept - s.used, 0 - s.tombs);
    SetPc(s.(slots := slots, ctrl := ctrl, gen := s.gen + 1), t, left)
  }

  /** resizeAt and clear: the table, then live, used and tombstones, each with a store of its own;
    * `alt` after the drain: a resize that finds nothing to do, or a clear. */
  function ResizeStep<K>(hash: K -> nat, s: State<K>, t: nat, alt: bool, size: nat): State<K>
    requires t < |s.threads|
  {
    match s.threads[t]
    case ResizeCas(old_) =>
      if s.word == old_ && !HasBit(old_)
      then SetPc(s.(word := s.word + BIT, holder := Some(t)), t, Drain) else SetPc(s, t, Idle)
    case Drain =>
      if s.word != BIT then s else SetPc(s, t, if !alt then Scan(0, 0) else if size == 0 then Release else Clearing)
    case Scan(i, kept) =>
      if i < |s.slots| then SetPc(s, t, Scan(i + 1, if IsLive(s.entries, s.slots[i]) then kept + 1 else kept))
      else SetPc(s, t, Build(0, kept, Empty(size), Zeros(size)))
    case Build(i, kept, slots, ctrl) =>
      if i < |s.slots| then
        if !IsLive(s.entries, s.slots[i]) then SetPc(s, t, Build(i + 1, kept, slots, ctrl)) else
        var at := CloneIndex(hash, slots, s.slots[i]);
        if at == None || at.value >= |slots| || at.value >= |ctrl| then s else
        SetPc(s, t, Build(i + 1, kept, slots[at.value := s.slots[i]],
                          ctrl[at.value := Fingerprint(hash(s.slots[i].key))]))
      else Install(s, t, slots, ctrl, kept)
    case Clearing => if size == 0 then s else Install(s, t, Empty(size), Zeros(size), 0)
    case Settle(left, kept, live, used, tombs) =>
      if left == 3 then SetPc(s.(live := kept), t, Settle(2, kept, 0, used, tombs))
      else if left == 2 then SetPc(s.(used := kept), t, Settle(1, kept, 0, 0, tombs))
      else SetPc(s.(tombs := 0), t, Release)
    case Release => SetPc(s.(word := s.word - BIT, holder := None), t, Idle)
    case _ => s
  }

  function Step<K(==)>(hash: K -> nat, s: State<K>, t: nat, w: What<K>): State<K>
    requires Enabled(s, t, w)
  {
    match w
    case BeginWork(work) => SetPc(s, t, Gate(Adding, work))
    case BeginSwap(e) => SetPc(s, t, Swapping(e, s.entries[e].box))
    case BeginResize => if HasBit(s.word) then s else SetPc(s, t, ResizeCas(s.word))
    case Go(alt, size) =>
      match s.threads[t]
      case Idle => s
      case Swapping(e, seen) =>
        if e >= |s.entries| then s
        else if s.entries[e].box == seen then SetPc(NewBox(s, e), t, Idle)
        else SetPc(s, t, Gate(Adding, Put(s.entries[e].key)))
      case Gate(gate, work) => GateStep(s, t, gate, work)
      case Enter(work) => if t < |s.loaded| then SetPc(s.(loaded := s.loaded[t := s.gen]), t, Arrive(work)) else s
      case Probe(probe, k, d) => ProbeStep(hash, s, t, probe, k, d)
      case Retry(work) => SetPc(s.(word := s.word - 1), t, Gate(Adding, work))
      case Publish(k, i) =>
        if i >= |s.ctrl| then s else SetPc(s.(ctrl := s.ctrl[i := Fingerprint(hash(k))]), t, Owe(1, 1, 0))
      case AtEntry(at, e, seen) => EntryStep(s, t, at, e, seen, alt)
      case Owe(live, used, tombs) => PayStep(s, t, live, used, tombs)
      case _ => ResizeStep(hash, s, t, alt, size)
  }

  // ---------------------------------------------------------------- the invariant

  ghost predicate InTable<K>(s: State<K>, e: nat) {
    exists i :: 0 <= i < |s.slots| && s.slots[i].Full? && s.slots[i].ref == e
  }

  /** Slots name entries of their own key, and probing works. */
  ghost predicate TableOk<K>(hash: K -> nat, entries: seq<Entry<K>>, slots: seq<Slot<nat, K>>) {
    && WellFormed(slots, hash)
    && (forall i :: 0 <= i < |slots| ==> !slots[i].Tomb?)
    && (forall i :: 0 <= i < |slots| && slots[i].Full? ==>
          slots[i].ref < |entries| && entries[slots[i].ref].key == slots[i].key)
  }

  ghost predicate Publishing<K>(threads: seq<Pc<K>>, t: nat, i: nat) {
    t < |threads| && threads[t].Publish? && threads[t].i == i
  }

  /** A control word is 0 or the fingerprint of the key in its slot; a filled slot whose control
    * word is still 0 has exactly one thread inside that is about to write it. */
  ghost predicate CtrlOk<K>(hash: K -> nat, slots: seq<Slot<nat, K>>, ctrl: seq<nat>, threads: seq<Pc<K>>) {
    && |ctrl| == |slots|
    && (forall i :: 0 <= i < |ctrl| && ctrl[i] != 0 ==> slots[i].Full? && ctrl[i] == Fingerprint(hash(slots[i].key)))
    && (forall i :: 0 <= i < |ctrl| && ctrl[i] == 0 && slots[i].Full? ==> exists t: nat :: Publishing(threads, t, i))
    && (forall t: nat, i: nat :: Publishing(threads, t, i) ==>
          i < |slots| && Has(slots[i], threads[t].k) && ctrl[i] == 0)
    && (forall t: nat, u: nat, i: nat :: Publishing(threads, t, i) && Publishing(threads, u, i) ==> t == u)
  }

  ghost predicate Unlinking<K>(threads: seq<Pc<K>>, t: nat, e: nat, b: nat) {
    t < |threads| && threads[t] == AtEntry(RemoveUnlink, e, Some(b))
  }

  /** An entry points only to boxes made for it, and while it points to a claimed box the remover
    * that claimed it is still inside, about to unlink it. */
  ghost predicate BoxesOk<K>(entries: seq<Entry<K>>, boxes: seq<Box>, threads: seq<Pc<K>>) {
    forall e :: 0 <= e < |entries| && entries[e].box.Some? ==>
      var b := entries[e].box.value;
      b < |boxes| && boxes[b].owner == e && (boxes[b].claimed ==> exists t: nat :: Unlinking(threads, t, e, b))
  }

  /** The state word counts the writers inside or backing off, plus the bit of the one resizer. */
  ghost predicate GateOk<K>(s: State<K>) {
    && s.word == Sum(Pending(), s.threads) + (if s.holder.Some? then BIT else 0)
    && (forall t :: 0 <= t < |s.threads| ==> (Holds(s.threads[t]) <==> s.holder == Some(t)))
    && (forall t, u :: 0 <= t < |s.threads| && 0 <= u < |s.threads| && Exclusive(s.threads[t]) ==>
          !Inside(s.threads[u]))
    && (s.holder.Some? ==> s.holder.value < |s.threads|)
    && LoadedOk(s)
  }

  /** The table a writer loaded is the current one as long as it works on it. */
  ghost predicate LoadedOk<K>(s: State<K>) {
    && |s.loaded| == |s.threads|
    && (forall t :: 0 <= t < |s.threads| && HasTable(s.threads[t]) ==> s.loaded[t] == s.gen)
  }

  function Flags<K>(entries: seq<Entry<K>>, slots: seq<Slot<nat, K>>): (f: seq<bool>)
    ensures |f| == |slots|
  {
    seq(|slots|, i requires 0 <= i < |slots| => IsLive(entries, slots[i]))
  }

  function True(): bool -> bool { (b: bool) => b }

  /** The entries in the table that have a value. */
  function LiveCount<K>(entries: seq<Entry<K>>, slots: seq<Slot<nat, K>>): nat {
    Count(True(), Flags(entries, slots))
  }

  /** Each counter is off from the truth by exactly what threads past their CAS, and a resizer that has
    * put its table in place, still owe it. */
  ghost predicate CountsOk<K>(s: State<K>) {
    && s.live + Sum(LiveDue(), s.threads) == LiveCount(s.entries, s.slots)
    && s.used + Sum(UsedDue(), s.threads) == Count(IsFull(), s.slots)
    && s.tombs + Sum(TombDue(), s.threads) == Count(IsFull(), s.slots) - LiveCount(s.entries, s.slots)
  }

  ghost predicate BoxOf<K>(s: State<K>, e: nat, b: nat) {
    e < |s.entries| && b < |s.boxes| && s.boxes[b].owner == e
  }

  /** The table under construction holds exactly the live entries of the first i old slots. */
  ghost predicate Rebuilt<K>(hash: K -> nat, s: State<K>, i: nat, slots: seq<Slot<nat, K>>, ctrl: seq<nat>) {
    && i <= |s.slots|
    && TableOk(hash, s.entries, slots) && |ctrl| == |slots|
    && (forall j :: 0 <= j < |slots| ==> ctrl[j] == if slots[j].Full? then Fingerprint(hash(slots[j].key)) else 0)
    && (forall j :: 0 <= j < |slots| && slots[j].Full? ==>
          exists m :: 0 <= m < i && IsLive(s.entries, s.slots[m]) && s.slots[m] == slots[j])
    && (forall m :: 0 <= m < i && IsLive(s.entries, s.slots[m]) ==> s.slots[m] in slots)
    && Count(IsFull(), slots) == Count(True(), Flags(s.entries, s.slots)[..i])
  }

  /** What a thread may rely on where it stands. */
  ghost predicate PcOk<K>(hash: K -> nat, s: State<K>, pc: Pc<K>) {
    match pc
    case Swapping(e, seen) => seen.Some? && BoxOf(s, e, seen.value)
    case Probe(at, k, d) =>
      && d <= |s.slots| && Misses(s.slots, hash(k), k, d)
      && (at.RemoveSlot? ==> d < |s.slots| && s.slots[At(hash(k), d, |s.slots|)].Full?)
    case AtEntry(at, e, seen) =>
      && InTable(s, e) && (seen.Some? ==> BoxOf(s, e, seen.value))
      && (at.RemoveClaim? ==> seen.Some?)
      && (at.RemoveUnlink? ==> seen.Some? && s.boxes[seen.value].claimed)
    case Scan(i, kept) => i <= |s.slots| && kept == Count(True(), Flags(s.entries, s.slots)[..i])
    case Build(i, kept, slots, ctrl) =>
      kept == LiveCount(s.entries, s.slots) && kept < |slots| && Rebuilt(hash, s, i, slots, ctrl)
    case Settle(left, kept, live, used, tombs) =>
      && 1 <= left <= 3 && kept == LiveCount(s.entries, s.slots) == Count(IsFull(), s.slots)
      && (left < 3 ==> live == 0) && (left < 2 ==> used == 0)
    case _ => true
  }

  ghost predicate PcsOk<K>(hash: K -> nat, s: State<K>) {
    forall t :: 0 <= t < |s.threads| ==> PcOk(hash, s, s.threads[t])
  }

  ghost predicate Inv<K>(hash: K -> nat, s: State<K>) {
    && TableOk(hash, s.entries, s.slots) && CtrlOk(hash, s.slots, s.ctrl, s.threads)
    && BoxesOk(s.entries, s.boxes, s.threads) && GateOk(s) && CountsOk(s)
    && PcsOk(hash, s)
  }

  /** Fewer than 2^62 writers inside or backing off. */
  ghost predicate Quota<K>(s: State<K>) {
    Sum(Pending(), s.threads) < BIT
  }

  // ---------------------------------------------------------------- what a step may change

  /** Everything a step may do to the parts a thread relies on while it is inside. */
  ghost predicate Evolves<K>(s: State<K>, s': State<K>) {
    && |s.slots| == |s'.slots| && |s.entries| <= |s'.entries| && |s.boxes| <= |s'.boxes|
    && (forall i :: 0 <= i < |s.slots| && s.slots[i] != Nil ==> s'.slots[i] == s.slots[i])
    && (forall e :: 0 <= e < |s.entries| ==> s'.entries[e].key == s.entries[e].key)
    && (forall b :: 0 <= b < |s.boxes| ==>
          s'.boxes[b].owner == s.boxes[b].owner && (s.boxes[b].claimed ==> s'.boxes[b].claimed))
  }

  /** No slot and no entry's having a value changes: all a rebuild relies on. */
  ghost predicate Frozen<K>(s: State<K>, s': State<K>) {
    && s'.slots == s.slots && |s.entries| <= |s'.entries|
    && (forall e :: 0 <= e < |s.entries| ==>
          s'.entries[e].key == s.entries[e].key && (s'.entries[e].box.Some? <==> s.entries[e].box.Some?))
  }

  lemma FrozenFlags<K>(hash: K -> nat, s: State<K>, s': State<K>)
    requires Frozen(s, s') && TableOk(hash, s.entries, s.slots)
    ensures Flags(s'.entries, s'.slots) == Flags(s.entries, s.slots)
  {
  }

  lemma InTableKept<K>(s: State<K>, s': State<K>, e: nat)
    requires InTable(s, e) && Evolves(s, s')
    ensures InTable(s', e)
  {
    var i :| 0 <= i < |s.slots| && s.slots[i].Full? && s.slots[i].ref == e;
    assert s'.slots[i] == s.slots[i];
  }

  lemma PcKept<K>(hash: K -> nat, s: State<K>, s': State<K>, pc: Pc<K>)
    requires PcOk(hash, s, pc) && Evolves(s, s') && TableOk(hash, s.entries, s.slots)
    requires Frozen(s, s') || !Exclusive(pc)
    ensures PcOk(hash, s', pc)
  {
    match pc
    case Probe(_, k, d) =>
      assert forall j :: 0 <= j < d && s.slots[At(hash(k), j, |s.slots|)] != Nil ==>
        s'.slots[At(hash(k), j, |s.slots|)] == s.slots[At(hash(k), j, |s.slots|)];
    case AtEntry(_, e, _) => InTableKept(s, s', e);
    case Scan(_, _) => FrozenFlags(hash, s, s');
    case Build(_, _, _, _) => FrozenFlags(hash, s, s');
    case Settle(_, _, _, _, _) => FrozenFlags(hash, s, s');
    case _ =>
  }

  // ---------------------------------------------------------------- one thread moves on

  lemma CtrlThreads<K>(hash: K -> nat, slots: seq<Slot<nat, K>>, ctrl: seq<nat>, threads: seq<Pc<K>>, t: nat, pc: Pc<K>)
    requires CtrlOk(hash, slots, ctrl, threads) && t < |threads| && !threads[t].Publish? && !pc.Publish?
    ensures CtrlOk(hash, slots, ctrl, threads[t := pc])
  {
    var threads' := threads[t := pc];
    assert forall u: nat, i: nat :: Publishing(threads', u, i) <==> Publishing(threads, u, i);
  }

  lemma BoxesThreads<K>(entries: seq<Entry<K>>, boxes: seq<Box>, threads: seq<Pc<K>>, t: nat, pc: Pc<K>)
    requires BoxesOk(entries, boxes, threads) && t < |threads|
    requires threads[t].AtEntry? && threads[t].at.RemoveUnlink? && threads[t].e < |entries| ==>
               entries[threads[t].e].box != threads[t].seen
    ensures BoxesOk(entries, boxes, threads[t := pc])
  {
    var threads' := threads[t := pc];
    forall e | 0 <= e < |entries| && entries[e].box.Some? && boxes[entries[e].box.value].claimed
      ensures exists u: nat :: Unlinking(threads', u, e, entries[e].box.value)
    {
      var u: nat :| Unlinking(threads, u, e, entries[e].box.value);
      assert Unlinking(threads', u, e, entries[e].box.value);
    }
  }

  /** The debts of a thread, before and after. */
  lemma Debts<K>(threads: seq<Pc<K>>, t: nat, pc: Pc<K>)
    requires t < |threads|
    ensures Sum(Pending(), threads[t := pc]) == Sum(Pending(), threads) - Pending()(threads[t]) + Pending()(pc)
    ensures Sum(LiveDue(), threads[t := pc]) == Sum(LiveDue(), threads) - LiveDue()(threads[t]) + LiveDue()(pc)
    ensures Sum(UsedDue(), threads[t := pc]) == Sum(UsedDue(), threads) - UsedDue()(threads[t]) + UsedDue()(pc)
    ensures Sum(TombDue(), threads[t := pc]) == Sum(TombDue(), threads) - TombDue()(threads[t]) + TombDue()(pc)
  {
    SumUpdate(Pending(), threads, t, pc);
    SumUpdate(LiveDue(), threads, t, pc);
    SumUpdate(UsedDue(), threads, t, pc);
    SumUpdate(TombDue(), threads, t, pc);
  }

  lemma GateThreads<K>(s: State<K>, s': State<K>, t: nat, pc: Pc<K>)
    requires GateOk(s) && t < |s.threads| && s'.threads == s.threads[t := pc]
    requires s'.word - s.word == Pending()(pc) - Pending()(s.threads[t])
    requires s'.holder == s.holder && (Holds(pc) <==> Holds(s.threads[t]))
    requires Exclusive(pc) ==> Exclusive(s.threads[t])
    requires Inside(pc) ==> Inside(s.threads[t]) || s.holder == None
    requires s'.gen == s.gen && s'.loaded == s.loaded && (HasTable(pc) ==> HasTable(s.threads[t]))
    ensures GateOk(s')
  {
    Debts(s.threads, t, pc);
    forall a, b | 0 <= a < |s'.threads| && 0 <= b < |s'.threads| && Exclusive(s'.threads[a])
      ensures !Inside(s'.threads[b])
    {
      assert Exclusive(s.threads[a]) && Holds(s.threads[a]);
    }
  }

  lemma ThreadsKept<K>(hash: K -> nat, s: State<K>, s': State<K>, t: nat)
    requires PcsOk(hash, s) && TableOk(hash, s.entries, s.slots) && Evolves(s, s')
    requires t < |s.threads| == |s'.threads| && PcOk(hash, s', s'.threads[t])
    requires forall u :: 0 <= u < |s.threads| && u != t ==> s'.threads[u] == s.threads[u]
    requires Frozen(s, s') || (forall u :: 0 <= u < |s.threads| ==> !Exclusive(s.threads[u]))
    ensures PcsOk(hash, s')
  {
    forall u | 0 <= u < |s'.threads| ensures PcOk(hash, s', s'.threads[u]) {
      if u != t { PcKept(hash, s, s', s.threads[u]); }
    }
  }

  /** Debts and counters move together with the truth they count. */
  lemma CountsKept<K>(s: State<K>, s': State<K>, t: nat)
    requires CountsOk(s) && t < |s.threads| == |s'.threads| && s'.threads == s.threads[t := s'.threads[t]]
    requires var was, pc := s.threads[t], s'.threads[t];
      && s'.live - s.live + LiveDue()(pc) - LiveDue()(was)
         == LiveCount(s'.entries, s'.slots) - LiveCount(s.entries, s.slots)
      && s'.used - s.used + UsedDue()(pc) - UsedDue()(was) == Count(IsFull(), s'.slots) - Count(IsFull(), s.slots)
      && s'.tombs - s.tombs + TombDue()(pc) - TombDue()(was)
         == Count(IsFull(), s'.slots) - Count(IsFull(), s.slots)
            - LiveCount(s'.entries, s'.slots) + LiveCount(s.entries, s.slots)
    ensures CountsOk(s')
  {
    Debts(s.threads, t, s'.threads[t]);
  }

  /** A step that changes nothing shared but the state word and the counters. */
  lemma MoveKeeps<K>(hash: K -> nat, s: State<K>, s': State<K>, t: nat)
    requires Inv(hash, s) && t < |s.threads| == |s'.threads| && s'.threads == s.threads[t := s'.threads[t]]
    requires s'.slots == s.slots && s'.ctrl == s.ctrl && s'.entries == s.entries && s'.boxes == s.boxes
    requires var was, pc := s.threads[t], s'.threads[t];
      && !was.Publish? && !pc.Publish? && PcOk(hash, s, pc)
      && (was.AtEntry? && was.at.RemoveUnlink? && was.e < |s.entries| ==> s.entries[was.e].box != was.seen)
      && s'.live - s.live == LiveDue()(was) - LiveDue()(pc)
      && s'.used - s.used == UsedDue()(was) - UsedDue()(pc)
      && s'.tombs - s.tombs == TombDue()(was) - TombDue()(pc)
    requires GateOk(s')
    ensures Inv(hash, s')
  {
    CtrlThreads(hash, s.slots, s.ctrl, s.threads, t, s'.threads[t]);
    BoxesThreads(s.entries, s.boxes, s.threads, t, s'.threads[t]);
    CountsKept(s, s', t);
    PcKept(hash, s, s', s'.threads[t]);
    ThreadsKept(hash, s, s', t);
  }

  /** A thread moves on without passing the gate either way, and nothing shared changes. */
  lemma MovesOn<K>(hash: K -> nat, s: State<K>, t: nat, pc: Pc<K>)
    requires Inv(hash, s) && t < |s.threads| && PcOk(hash, s, pc)
    requires var was := s.threads[t];
      && !was.Publish? && !pc.Publish?
      && (was.AtEntry? && was.at.RemoveUnlink? && was.e < |s.entries| ==> s.entries[was.e].box != was.seen)
      && LiveDue()(was) == LiveDue()(pc) && UsedDue()(was) == UsedDue()(pc) && TombDue()(was) == TombDue()(pc)
      && Pending()(was) == Pending()(pc) && (Holds(pc) <==> Holds(was)) && (Exclusive(pc) ==> Exclusive(was))
      && (Inside(pc) ==> Inside(was)) && (HasTable(pc) ==> HasTable(was))
    ensures Inv(hash, SetPc(s, t, pc))
  {
    hide TableOk, CtrlOk, BoxesOk, PcsOk, GateOk, CountsOk, PcOk;
    GateThreads(s, SetPc(s, t, pc), t, pc);
    MoveKeeps(hash, s, SetPc(s, t, pc), t);
  }

  lemma InvPc<K>(hash: K -> nat, s: State<K>, t: nat)
    requires Inv(hash, s) && t < |s.threads|
    ensures PcOk(hash, s, s.threads[t])
    ensures s.threads[t].AtEntry? ==> s.threads[t].e < |s.entries|
  {
    assert PcOk(hash, s, s.threads[t]);
  }

  // ---------------------------------------------------------------- the gate

  lemma PendingBounds<K>(threads: seq<Pc<K>>)
    ensures Sum(Pending(), threads) >= 0
    ensures Sum(Pending(), threads) == 0 ==> forall t :: 0 <= t < |threads| ==> !Inside(threads[t])
  {
    SumBounds(Pending(), threads);
    forall t | 0 <= t < |threads| && Inside(threads[t]) ensures Sum(Pending(), threads) >= 1 {
      assert Pending()(threads[t]) == 1;
    }
  }

  /** Below quota the resizing bit is set exactly while there is a resizer. */
  lemma BitMeansHolder<K>(s: State<K>)
    requires GateOk(s) && Quota(s)
    ensures HasBit(s.word) <==> s.holder.Some?
  {
    PendingBounds(s.threads);
  }

  /** The bit a writer sees when it adds itself is set exactly while there is a resizer. */
  lemma AddingSeesHolder<K>(s: State<K>, t: nat, pc: Pc<K>)
    requires GateOk(s) && t < |s.threads| && Pending()(s.threads[t]) == 0 && Pending()(pc) == 1
    requires Sum(Pending(), s.threads[t := pc]) < BIT
    ensures HasBit(s.word + 1) <==> s.holder.Some?
  {
    Debts(s.threads, t, pc);
    PendingBounds(s.threads);
  }

  lemma GateStepGate<K>(s: State<K>, t: nat)
    requires GateOk(s) && t < |s.threads| && s.threads[t].Gate?
    requires var s' := GateStep(s, t, s.threads[t].gate, s.threads[t].work); Quota(s')
    ensures GateOk(GateStep(s, t, s.threads[t].gate, s.threads[t].work))
  {
    var s' := GateStep(s, t, s.threads[t].gate, s.threads[t].work);
    if s' != s {
      if s.threads[t].gate.Adding? { AddingSeesHolder(s, t, s'.threads[t]); }
      GateThreads(s, s', t, s'.threads[t]);
    }
  }

  lemma GateStepKeeps<K>(hash: K -> nat, s: State<K>, t: nat)
    requires Inv(hash, s) && t < |s.threads| && s.threads[t].Gate?
    requires var s' := GateStep(s, t, s.threads[t].gate, s.threads[t].work); Quota(s')
    ensures Inv(hash, GateStep(s, t, s.threads[t].gate, s.threads[t].work))
  {
    hide TableOk, CtrlOk, BoxesOk, PcsOk, GateOk, CountsOk;
    var s' := GateStep(s, t, s.threads[t].gate, s.threads[t].work);
    GateStepGate(s, t);
    if s' != s {
      MoveKeeps(hash, s, s', t);
    }
  }

  /** Loading the table pointer inside the gate: it is the current table's. */
  lemma EnterKeeps<K>(hash: K -> nat, s: State<K>, t: nat)
    requires Inv(hash, s) && t < |s.threads| && s.threads[t].Enter?
    ensures Inv(hash, Step(hash, s, t, Go(false, 0)))
  {
    var s' := SetPc(s.(loaded := s.loaded[t := s.gen]), t, Arrive(s.threads[t].work));
    EnterGate(s, t, Arrive(s.threads[t].work));
    assert Step(hash, s, t, Go(false, 0)) == s';
    hide TableOk, CtrlOk, BoxesOk, PcsOk, GateOk, CountsOk;
    MoveKeeps(hash, s, s', t);
  }

  lemma EnterGate<K>(s: State<K>, t: nat, pc: Pc<K>)
    requires GateOk(s) && t < |s.threads| && s.threads[t].Enter? && pc.Probe?
    ensures GateOk(SetPc(s.(loaded := s.loaded[t := s.gen]), t, pc))
  {
    Debts(s.threads, t, pc);
  }

  lemma PayStepKeeps<K>(hash: K -> nat, s: State<K>, t: nat)
    requires Inv(hash, s) && t < |s.threads| && s.threads[t].Owe?
    ensures var pc := s.threads[t]; Inv(hash, PayStep(s, t, pc.live, pc.used, pc.tombs))
  {
    hide TableOk, CtrlOk, BoxesOk, PcsOk, GateOk, CountsOk, Sum;
    var pc := s.threads[t];
    var s' := PayStep(s, t, pc.live, pc.used, pc.tombs);
    GateThreads(s, s', t, s'.threads[t]);
    MoveKeeps(hash, s, s', t);
  }

  lemma RetryKeeps<K>(hash: K -> nat, s: State<K>, t: nat)
    requires Inv(hash, s) && t < |s.threads| && s.threads[t].Retry?
    ensures Inv(hash, SetPc(s.(word := s.word - 1), t, Gate(Adding, s.threads[t].work)))
  {
    var pc := Gate(Adding, s.threads[t].work);
    var s' := SetPc(s.(word := s.word - 1), t, pc);
    hide TableOk, CtrlOk, BoxesOk, PcsOk, GateOk, CountsOk;
    GateThreads(s, s', t, pc);
    MoveKeeps(hash, s, s', t);
  }

  /** While somebody is inside, nobody is past a drain loop. */
  lemma InsideExcludes<K>(s: State<K>, t: nat)
    requires GateOk(s) && t < |s.threads| && Inside(s.threads[t])
    ensures forall u :: 0 <= u < |s.threads| ==> !Exclusive(s.threads[u])
  {
  }

  // ---------------------------------------------------------------- an entry's box changes

  lemma FlagsUpdate<K>(hash: K -> nat, entries: seq<Entry<K>>, slots: seq<Slot<nat, K>>, i: nat, box: Option<nat>)
    requires TableOk(hash, entries, slots) && i < |slots| && slots[i].Full?
    ensures
      var e := slots[i].ref;
      Flags(entries[e := entries[e].(box := box)], slots) == Flags(entries, slots)[i := box.Some?]
  {
    var e := slots[i].ref;
    var entries' := entries[e := entries[e].(box := box)];
    forall j | 0 <= j < |slots| ensures Flags(entries', slots)[j] == Flags(entries, slots)[i := box.Some?][j] {
      if j != i && slots[j].Full? { assert slots[j].ref != e; }
    }
  }

  /** Setting the box of an entry of the table moves LiveCount by the difference it makes. */
  lemma SetBoxCount<K>(hash: K -> nat, s: State<K>, e: nat, box: Option<nat>)
    requires TableOk(hash, s.entries, s.slots) && InTable(s, e) && e < |s.entries|
    ensures LiveCount(s.entries[e := s.entries[e].(box := box)], s.slots)
         == LiveCount(s.entries, s.slots) - (if s.entries[e].box.Some? then 1 else 0) + (if box.Some? then 1 else 0)
  {
    var i :| 0 <= i < |s.slots| && s.slots[i].Full? && s.slots[i].ref == e;
    FlagsUpdate(hash, s.entries, s.slots, i, box);
    CountUpdate(True(), Flags(s.entries, s.slots), i, box.Some?);
  }

  lemma NewBoxBoxes<K>(s: State<K>, e: nat, threads: seq<Pc<K>>)
    requires BoxesOk(s.entries, s.boxes, threads) && e < |s.entries|
    ensures var s' := NewBox(s, e); BoxesOk(s'.entries, s'.boxes, threads)
  {
    var s' := NewBox(s, e);
    forall x | 0 <= x < |s'.entries| && s'.entries[x].box.Some?
      ensures
        var b := s'.entries[x].box.value;
        b < |s'.boxes| && s'.boxes[b].owner == x
        && (s'.boxes[b].claimed ==> exists t: nat :: Unlinking(threads, t, x, b))
    {
      if x != e { assert s'.entries[x] == s.entries[x]; }
    }
  }

  lemma TableEntries<K>(hash: K -> nat, entries: seq<Entry<K>>, entries': seq<Entry<K>>, slots: seq<Slot<nat, K>>)
    requires TableOk(hash, entries, slots) && |entries| <= |entries'|
    requires forall e :: 0 <= e < |entries| ==> entries'[e].key == entries[e].key
    ensures TableOk(hash, entries', slots)
  {
  }

  /** Publishing a fresh box on an entry; a revived entry is still owed to the counters. */
  lemma NewBoxKeeps<K>(hash: K -> nat, s: State<K>, t: nat, e: nat, pc: Pc<K>)
    requires Inv(hash, s) && t < |s.threads| && e < |s.entries|
    requires var was := s.threads[t];
      || (was == AtEntry(PutSwap, e, None) && s.entries[e].box == None && pc == Owe(1, 0, -1))
      || (was.AtEntry? && was.at.PutSwap? && s.entries[e].box.Some? && pc == Owe(0, 0, 0))
      || (was.Swapping? && s.entries[e].box.Some? && pc.Idle?)
    ensures Inv(hash, SetPc(NewBox(s, e), t, pc))
  {
    hide TableOk, CtrlOk, BoxesOk, GateOk, CountsOk, PcsOk;
    var s' := SetPc(NewBox(s, e), t, pc);
    InvPc(hash, s, t);
    if s.threads[t].AtEntry? { InsideExcludes(s, t); }
    assert BoxesOk(s'.entries, s'.boxes, s'.threads) by {
      BoxesThreads(s.entries, s.boxes, s.threads, t, pc);
      NewBoxBoxes(s, e, s'.threads);
    }
    assert CtrlOk(hash, s'.slots, s'.ctrl, s'.threads) by { CtrlThreads(hash, s.slots, s.ctrl, s.threads, t, pc); }
    assert GateOk(s') by { GateThreads(s, s', t, pc); }
    assert TableOk(hash, s'.entries, s'.slots) by { TableEntries(hash, s.entries, s'.entries, s.slots); }
    assert CountsOk(s') by { NewBoxCounts(hash, s, t, e, pc); }
    assert PcsOk(hash, s') by { NewBoxPcs(hash, s, t, e, pc); }
  }

  lemma NewBoxCounts<K>(hash: K -> nat, s: State<K>, t: nat, e: nat, pc: Pc<K>)
    requires TableOk(hash, s.entries, s.slots) && CountsOk(s) && t < |s.threads| && e < |s.entries|
    requires var was := s.threads[t];
      && LiveDue()(was) == 0 && UsedDue()(was) == 0 && TombDue()(was) == 0
      && (if s.entries[e].box.Some? then LiveDue()(pc) == 0 && UsedDue()(pc) == 0 && TombDue()(pc) == 0
          else InTable(s, e) && pc == Owe(1, 0, -1))
    ensures CountsOk(SetPc(NewBox(s, e), t, pc))
  {
    var s' := SetPc(NewBox(s, e), t, pc);
    if s.entries[e].box == None {
      SetBoxCount(hash, s, e, Some(|s.boxes|));
    } else {
      FrozenFlags(hash, s, s');
    }
    CountsKept(s, s', t);
  }

  lemma NewBoxPcs<K>(hash: K -> nat, s: State<K>, t: nat, e: nat, pc: Pc<K>)
    requires TableOk(hash, s.entries, s.slots) && PcsOk(hash, s) && t < |s.threads| && e < |s.entries|
    requires pc.Owe? || pc.Idle?
    requires s.entries[e].box.Some? || (forall u :: 0 <= u < |s.threads| ==> !Exclusive(s.threads[u]))
    ensures PcsOk(hash, SetPc(NewBox(s, e), t, pc))
  {
    ThreadsKept(hash, s, SetPc(NewBox(s, e), t, pc), t);
  }

  /** Claiming a live box: from here to the unlink the remover is inside. */
  lemma ClaimKeeps<K>(hash: K -> nat, s: State<K>, t: nat, e: nat, b: nat)
    requires Inv(hash, s) && t < |s.threads| && s.threads[t] == AtEntry(RemoveClaim, e, Some(b))
    requires b < |s.boxes| && !s.boxes[b].claimed
    ensures Inv(hash, SetPc(s.(boxes := s.boxes[b := s.boxes[b].(claimed := true)]),
                  t, AtEntry(RemoveUnlink, e, Some(b))))
  {
    var pc := AtEntry(RemoveUnlink, e, Some(b));
    var s' := SetPc(s.(boxes := s.boxes[b := s.boxes[b].(claimed := true)]), t, pc);
    assert PcOk(hash, s, s.threads[t]);
    BoxesThreads(s.entries, s.boxes, s.threads, t, pc);
    assert Unlinking(s'.threads, t, e, b);
    CtrlThreads(hash, s.slots, s.ctrl, s.threads, t, pc);
    GateThreads(s, s', t, pc);
    CountsKept(s, s', t);
    InTableKept(s, s', e);
    ThreadsKept(hash, s, s', t);
  }

  /** Unlinking a claimed box from an entry that still points to it. */
  lemma UnlinkKeeps<K>(hash: K -> nat, s: State<K>, t: nat, e: nat)
    requires Inv(hash, s) && t < |s.threads| && e < |s.entries|
    requires s.entries[e].box.Some? && s.threads[t] == AtEntry(RemoveUnlink, e, s.entries[e].box)
    ensures Inv(hash, SetPc(s.(entries := s.entries[e := s.entries[e].(box := None)]), t, Owe(-1, 0, 1)))
  {
    var s1 := s.(entries := s.entries[e := s.entries[e].(box := None)]);
    var s' := SetPc(s1, t, Owe(-1, 0, 1));
    assert PcOk(hash, s, s.threads[t]);
    InsideExcludes(s, t);
    UnlinkBoxes(s, e);
    BoxesThreads(s1.entries, s1.boxes, s1.threads, t, Owe(-1, 0, 1));
    CtrlThreads(hash, s.slots, s.ctrl, s.threads, t, Owe(-1, 0, 1));
    GateThreads(s, s', t, Owe(-1, 0, 1));
    TableEntries(hash, s.entries, s'.entries, s.slots);
    SetBoxCount(hash, s, e, None);
    CountsKept(s, s', t);
    ThreadsKept(hash, s, s', t);
  }

  lemma UnlinkBoxes<K>(s: State<K>, e: nat)
    requires BoxesOk(s.entries, s.boxes, s.threads) && e < |s.entries|
    ensures BoxesOk(s.entries[e := s.entries[e].(box := None)], s.boxes, s.threads)
  {
    var entries' := s.entries[e := s.entries[e].(box := None)];
    forall x | 0 <= x < |entries'| && entries'[x].box.Some?
      ensures
        var b := entries'[x].box.value;
        b < |s.boxes| && s.boxes[b].owner == x
        && (s.boxes[b].claimed ==> exists t: nat :: Unlinking(s.threads, t, x, b))
    {
      assert entries'[x] == s.entries[x];
    }
  }

  predicate Publishes<K>(s: State<K>, at: EntryAt, e: nat, seen: Option<nat>, alt: bool) {
    && e < |s.entries|
    && (|| ((at.PutSwap? || at.RemoveUnlink?) && s.entries[e].box == seen)
        || (at.RemoveClaim? && !alt && seen.Some? && seen.value < |s.boxes| && !s.boxes[seen.value].claimed))
  }

  /** A thread that is inside moves on inside, owing nothing new, and touches nothing. */
  lemma StayInside<K>(hash: K -> nat, s: State<K>, t: nat, pc: Pc<K>)
    requires Inv(hash, s) && t < |s.threads| && PcOk(hash, s, pc)
    requires s.threads[t].AtEntry? || s.threads[t].Probe?
    requires pc.AtEntry? || pc.Probe? || pc.Retry? || pc == Owe(0, 0, 0)
    requires var was := s.threads[t];
      was.AtEntry? && was.at.RemoveUnlink? && was.e < |s.entries| ==> s.entries[was.e].box != was.seen
    ensures Inv(hash, SetPc(s, t, pc))
  {
    hide Inv, PcOk;
    MovesOn(hash, s, t, pc);
  }

  lemma EntryMove<K>(hash: K -> nat, s: State<K>, t: nat, alt: bool) returns (pc: Pc<K>)
    requires BoxesOk(s.entries, s.boxes, s.threads) && t < |s.threads| && s.threads[t].AtEntry?
    requires var was := s.threads[t];
      PcOk(hash, s, was) && !Publishes(s, was.at, was.e, was.seen, alt) && was.e < |s.entries|
    ensures var was := s.threads[t]; EntryStep(s, t, was.at, was.e, was.seen, alt) == SetPc(s, t, pc)
    ensures (pc.AtEntry? || pc == Owe(0, 0, 0)) && PcOk(hash, s, pc)
  {
    var was := s.threads[t];
    pc := EntryStep(s, t, was.at, was.e, was.seen, alt).threads[t];
    BoxIsOwned(s, was.e);
  }

  lemma EntryStepKeeps<K>(hash: K -> nat, s: State<K>, t: nat, alt: bool)
    requires Inv(hash, s) && t < |s.threads| && s.threads[t].AtEntry?
    ensures var pc := s.threads[t]; Inv(hash, EntryStep(s, t, pc.at, pc.e, pc.seen, alt))
  {
    var pc := s.threads[t];
    InvPc(hash, s, t);
    if !Publishes(s, pc.at, pc.e, pc.seen, alt) {
      var next := EntryMove(hash, s, t, alt);
      hide Inv, PcOk;
      StayInside(hash, s, t, next);
    } else {
      hide Inv;
      EntryPublishKeeps(hash, s, t, alt);
    }
  }

  lemma EntryPublishKeeps<K>(hash: K -> nat, s: State<K>, t: nat, alt: bool)
    requires Inv(hash, s) && t < |s.threads| && s.threads[t].AtEntry? && PcOk(hash, s, s.threads[t])
    requires var pc := s.threads[t]; Publishes(s, pc.at, pc.e, pc.seen, alt)
    ensures var pc := s.threads[t]; Inv(hash, EntryStep(s, t, pc.at, pc.e, pc.seen, alt))
  {
    hide Inv;
    var pc := s.threads[t];
    if pc.at.PutSwap? {
      NewBoxKeeps(hash, s, t, pc.e, if pc.seen == None then Owe(1, 0, -1) else Leave());
    } else if pc.at.RemoveClaim? {
      ClaimKeeps(hash, s, t, pc.e, pc.seen.value);
    } else {
      UnlinkKeeps(hash, s, t, pc.e);
    }
  }

  lemma BoxIsOwned<K>(s: State<K>, e: nat)
    requires BoxesOk(s.entries, s.boxes, s.threads) && e < |s.entries|
    ensures s.entries[e].box.Some? ==> BoxOf(s, e, s.entries[e].box.value)
  {
  }

  lemma TableHasEntry<K>(hash: K -> nat, s: State<K>, e: nat)
    requires TableOk(hash, s.entries, s.slots) && InTable(s, e)
    ensures e < |s.entries|
  {
  }

  // ---------------------------------------------------------------- probing and inserting

  /** One slot further. */
  lemma MissesOne<K>(slots: seq<Slot<nat, K>>, h: nat, k: K, d: nat)
    requires d < |slots| && Misses(slots, h, k, d)
    requires slots[At(h, d, |slots|)].Full? && !Has(slots[At(h, d, |slots|)], k)
    ensures Misses(slots, h, k, d + 1)
  {
  }

  lemma ProbeMove<K>(hash: K -> nat, s: State<K>, t: nat) returns (pc: Pc<K>)
    requires TableOk(hash, s.entries, s.slots) && CtrlOk(hash, s.slots, s.ctrl, s.threads)
    requires t < |s.threads| && s.threads[t].Probe?
    requires var was := s.threads[t];
      && PcOk(hash, s, was)
      && (was.probe.PutCas? ==> was.d == |s.slots| || s.slots[At(hash(was.k), was.d, |s.slots|)].Full?)
    ensures var was := s.threads[t]; ProbeStep(hash, s, t, was.probe, was.k, was.d) == SetPc(s, t, pc)
    ensures (pc.AtEntry? || pc.Probe? || pc.Retry? || pc == Owe(0, 0, 0)) && PcOk(hash, s, pc)
  {
    var was := s.threads[t];
    pc := ProbeStep(hash, s, t, was.probe, was.k, was.d).threads[t];
    if pc.AtEntry? {
      var i := At(hash(was.k), was.d, |s.slots|);
      assert s.slots[i].Full? && s.slots[i].ref == pc.e;
    }
    hide Misses;
    if pc.Probe? && pc.d == was.d + 1 {
      MissesOne(s.slots, hash(was.k), was.k, was.d);
    }
  }

  /** The state after a CAS that filled slot i. */
  function Inserted<K>(s: State<K>, t: nat, k: K, i: nat): State<K>
    requires t < |s.threads| && i < |s.slots|
  {
    SetPc(s.(slots := s.slots[i := Full(|s.entries|, k)],
             entries := s.entries + [Entry(k, Some(|s.boxes|))],
             boxes := s.boxes + [Box(|s.entries|, false)]), t, Publish(k, i))
  }

  lemma InsertTable<K>(hash: K -> nat, s: State<K>, t: nat, k: K, d: nat)
    requires TableOk(hash, s.entries, s.slots) && t < |s.threads| && d < |s.slots|
    requires Misses(s.slots, hash(k), k, d) && s.slots[At(hash(k), d, |s.slots|)] == Nil
    ensures var s' := Inserted(s, t, k, At(hash(k), d, |s.slots|)); TableOk(hash, s'.entries, s'.slots)
  {
    MissIsAbsent(s.slots, hash, k, d);
    PutKeepsWellFormed(s.slots, hash, k, d, |s.entries|);
  }

  lemma InsertCtrl<K>(hash: K -> nat, s: State<K>, t: nat, k: K, i: nat)
    requires CtrlOk(hash, s.slots, s.ctrl, s.threads) && t < |s.threads| && !s.threads[t].Publish?
    requires i < |s.slots| && s.slots[i] == Nil
    ensures var s' := Inserted(s, t, k, i); CtrlOk(hash, s'.slots, s'.ctrl, s'.threads)
  {
    var s' := Inserted(s, t, k, i);
    assert Publishing(s'.threads, t, i);
    assert forall u: nat, j: nat :: u != t ==> (Publishing(s'.threads, u, j) <==> Publishing(s.threads, u, j));
    forall j | 0 <= j < |s'.ctrl| && s'.ctrl[j] == 0 && s'.slots[j].Full?
      ensures exists u: nat :: Publishing(s'.threads, u, j)
    {
      if j != i {
        var u: nat :| Publishing(s.threads, u, j);
        assert Publishing(s'.threads, u, j);
      }
    }
  }

  lemma InsertBoxes<K>(s: State<K>, t: nat, k: K, i: nat)
    requires BoxesOk(s.entries, s.boxes, s.threads) && t < |s.threads| && i < |s.slots| && s.threads[t].Probe?
    ensures var s' := Inserted(s, t, k, i); BoxesOk(s'.entries, s'.boxes, s'.threads)
  {
    var s' := Inserted(s, t, k, i);
    BoxesThreads(s.entries, s.boxes, s.threads, t, s'.threads[t]);
    forall x | 0 <= x < |s'.entries| && s'.entries[x].box.Some?
      ensures
        var b := s'.entries[x].box.value;
        b < |s'.boxes| && s'.boxes[b].owner == x
        && (s'.boxes[b].claimed ==> exists u: nat :: Unlinking(s'.threads, u, x, b))
    {
      if x < |s.entries| { assert s'.entries[x] == s.entries[x]; }
    }
  }

  lemma InsertCounts<K>(hash: K -> nat, s: State<K>, t: nat, k: K, i: nat)
    requires CountsOk(s) && TableOk(hash, s.entries, s.slots) && t < |s.threads| && i < |s.slots|
    requires s.threads[t].Probe? && s.slots[i] == Nil
    ensures CountsOk(Inserted(s, t, k, i))
  {
    var s' := Inserted(s, t, k, i);
    assert Flags(s'.entries, s'.slots) == Flags(s.entries, s.slots)[i := true];
    CountUpdate(True(), Flags(s.entries, s.slots), i, true);
    CountUpdate(IsFull(), s.slots, i, Full(|s.entries|, k));
    CountsKept(s, s', t);
  }

  lemma InsertKeeps<K>(hash: K -> nat, s: State<K>, t: nat, k: K, d: nat)
    requires Inv(hash, s) && t < |s.threads| && s.threads[t] == Probe(PutCas, k, d) && d < |s.slots|
    requires Misses(s.slots, hash(k), k, d) && s.slots[At(hash(k), d, |s.slots|)] == Nil
    ensures Inv(hash, Inserted(s, t, k, At(hash(k), d, |s.slots|)))
  {
    hide TableOk, CtrlOk, BoxesOk, GateOk, CountsOk, PcsOk, Misses, At, LiveCount, Count, Sum;
    var i := At(hash(k), d, |s.slots|);
    var s' := Inserted(s, t, k, i);
    InsideExcludes(s, t);
    assert TableOk(hash, s'.entries, s'.slots) by { InsertTable(hash, s, t, k, d); }
    assert CtrlOk(hash, s'.slots, s'.ctrl, s'.threads) by { InsertCtrl(hash, s, t, k, i); }
    assert BoxesOk(s'.entries, s'.boxes, s'.threads) by { InsertBoxes(s, t, k, i); }
    assert CountsOk(s') by { InsertCounts(hash, s, t, k, i); }
    assert GateOk(s') by { GateThreads(s, s', t, Publish(k, i)); }
    assert PcsOk(hash, s') by { ThreadsKept(hash, s, s', t); }
  }

  lemma ProbeStepKeeps<K>(hash: K -> nat, s: State<K>, t: nat)
    requires Inv(hash, s) && t < |s.threads| && s.threads[t].Probe?
    ensures var pc := s.threads[t]; Inv(hash, ProbeStep(hash, s, t, pc.probe, pc.k, pc.d))
  {
    var pc := s.threads[t];
    assert PcOk(hash, s, pc);
    if pc.probe.PutCas? && pc.d < |s.slots| && !s.slots[At(hash(pc.k), pc.d, |s.slots|)].Full? {
      InsertKeeps(hash, s, t, pc.k, pc.d);
    } else {
      var next := ProbeMove(hash, s, t);
      StayInside(hash, s, t, next);
    }
  }

  lemma PublishCtrl<K>(hash: K -> nat, s: State<K>, t: nat)
    requires CtrlOk(hash, s.slots, s.ctrl, s.threads) && t < |s.threads|
    requires s.threads[t].Publish? && s.threads[t].i < |s.ctrl|
    ensures CtrlOk(hash, s.slots, s.ctrl[s.threads[t].i := Fingerprint(hash(s.threads[t].k))],
            s.threads[t := Owe(1, 1, 0)])
  {
    var i := s.threads[t].i;
    var threads' := s.threads[t := Owe(1, 1, 0)];
    assert Publishing(s.threads, t, i);
    forall u: nat, j: nat | Publishing(threads', u, j) ensures Publishing(s.threads, u, j) && j != i {
      assert u != t && Publishing(s.threads, u, j);
    }
    forall j | 0 <= j < |s.ctrl| && j != i && s.ctrl[j] == 0 && s.slots[j].Full?
      ensures exists u: nat :: Publishing(threads', u, j)
    {
      var u: nat :| Publishing(s.threads, u, j);
      assert Publishing(threads', u, j);
    }
  }

  lemma PublishKeeps<K>(hash: K -> nat, s: State<K>, t: nat)
    requires Inv(hash, s) && t < |s.threads| && s.threads[t].Publish? && s.threads[t].i < |s.ctrl|
    ensures Inv(hash, SetPc(s.(ctrl := s.ctrl[s.threads[t].i := Fingerprint(hash(s.threads[t].k))]), t, Owe(1, 1, 0)))
  {
    var s' := SetPc(s.(ctrl := s.ctrl[s.threads[t].i := Fingerprint(hash(s.threads[t].k))]), t, Owe(1, 1, 0));
    PublishCtrl(hash, s, t);
    BoxesThreads(s.entries, s.boxes, s.threads, t, Owe(1, 1, 0));
    GateThreads(s, s', t, Owe(1, 1, 0));
    CountsKept(s, s', t);
    ThreadsKept(hash, s, s', t);
  }

  // ---------------------------------------------------------------- resizing

  predicate Owing<K>(pc: Pc<K>) {
    Inside(pc) || pc.Settle?
  }

  /** Nobody inside and no resizer between its stores means nothing owed. */
  lemma NothingOwed<K>(threads: seq<Pc<K>>)
    requires forall t :: 0 <= t < |threads| ==> !Owing(threads[t])
    ensures Sum(LiveDue(), threads) == 0 && Sum(UsedDue(), threads) == 0 && Sum(TombDue(), threads) == 0
  {
    SumZero(LiveDue(), threads);
    SumZero(UsedDue(), threads);
    SumZero(TombDue(), threads);
  }

  lemma LockGate<K>(s: State<K>, t: nat)
    requires GateOk(s) && Quota(s) && t < |s.threads| && s.threads[t].ResizeCas? && !HasBit(s.word)
    ensures GateOk(SetPc(s.(word := s.word + BIT, holder := Some(t)), t, Drain))
  {
    BitMeansHolder(s);
    Debts(s.threads, t, Drain);
  }

  lemma DrainGate<K>(s: State<K>, t: nat, pc: Pc<K>)
    requires GateOk(s) && t < |s.threads| && s.threads[t].Drain? && s.word == BIT && Exclusive(pc)
    ensures GateOk(SetPc(s, t, pc))
  {
    Debts(s.threads, t, pc);
    PendingBounds(s.threads);
  }

  lemma ReleaseGate<K>(s: State<K>, t: nat)
    requires GateOk(s) && t < |s.threads| && s.threads[t].Release?
    ensures GateOk(SetPc(s.(word := s.word - BIT, holder := None), t, Idle))
  {
    Debts(s.threads, t, Idle);
  }

  lemma ScanStep<K>(hash: K -> nat, s: State<K>, i: nat, kept: nat)
    requires PcOk(hash, s, Scan(i, kept)) && i < |s.slots|
    ensures PcOk(hash, s, Scan(i + 1, if IsLive(s.entries, s.slots[i]) then kept + 1 else kept))
  {
    var flags := Flags(s.entries, s.slots);
    assert flags[..i + 1][..i] == flags[..i];
  }

  lemma ScanDone<K>(hash: K -> nat, s: State<K>, kept: nat, size: nat)
    requires PcOk(hash, s, Scan(|s.slots|, kept)) && kept < size
    ensures PcOk(hash, s, Build(0, kept, Empty(size), Zeros(size)))
  {
    var flags := Flags(s.entries, s.slots);
    assert flags[..|s.slots|] == flags;
    EmptyCounts<nat, K>(size);
    assert flags[..0] == [];
  }

  lemma BuildSkip<K>(hash: K -> nat, s: State<K>, i: nat, slots: seq<Slot<nat, K>>, ctrl: seq<nat>)
    requires Rebuilt(hash, s, i, slots, ctrl) && i < |s.slots| && !IsLive(s.entries, s.slots[i])
    ensures Rebuilt(hash, s, i + 1, slots, ctrl)
  {
    var flags := Flags(s.entries, s.slots);
    assert flags[..i + 1][..i] == flags[..i];
  }

  /** insertClone finds room, because the new table has more slots than entries are kept. */
  lemma RoomToInsert<K>(hash: K -> nat, s: State<K>, i: nat, kept: nat, slots: seq<Slot<nat, K>>, ctrl: seq<nat>)
      returns (q: nat)
    requires Rebuilt(hash, s, i, slots, ctrl) && i < |s.slots| && s.slots[i].Full?
    requires kept == LiveCount(s.entries, s.slots) < |slots|
    ensures q < |slots| && Reaches(slots, hash(s.slots[i].key), q)
    ensures slots[At(hash(s.slots[i].key), q, |slots|)] == Nil
    ensures CloneIndex(hash, slots, s.slots[i]) == Some(At(hash(s.slots[i].key), q, |slots|))
  {
    var h := hash(s.slots[i].key);
    CountPrefix(True(), Flags(s.entries, s.slots), i);
    CountAll(IsTomb(), slots);
    SparseHasNil(slots);
    NilIsAhead(slots, h);
    q := FirstNil(slots, h, 0);
  }

  /** A live entry not yet moved is nowhere in the new table. */
  lemma NotYetMoved<K>(hash: K -> nat, s: State<K>, i: nat, slots: seq<Slot<nat, K>>, ctrl: seq<nat>)
    requires TableOk(hash, s.entries, s.slots) && Rebuilt(hash, s, i, slots, ctrl)
    requires i < |s.slots| && IsLive(s.entries, s.slots[i])
    ensures Absent(slots, s.slots[i].key)
  {
    forall j | 0 <= j < |slots| ensures !Has(slots[j], s.slots[i].key) {
      if slots[j].Full? {
        var m :| 0 <= m < i && IsLive(s.entries, s.slots[m]) && s.slots[m] == slots[j];
        assert s.slots[m].key != s.slots[i].key;
      }
    }
  }

  lemma BuildInsertTable<K>(hash: K -> nat, entries: seq<Entry<K>>, slots: seq<Slot<nat, K>>, slot: Slot<nat, K>,
      q: nat)
    requires TableOk(hash, entries, slots) && slot.Full? && Absent(slots, slot.key)
    requires slot.ref < |entries| && entries[slot.ref].key == slot.key
    requires q < |slots| && Reaches(slots, hash(slot.key), q) && slots[At(hash(slot.key), q, |slots|)] == Nil
    ensures
      var slots' := slots[At(hash(slot.key), q, |slots|) := slot];
      TableOk(hash, entries, slots') && Count(IsFull(), slots') == Count(IsFull(), slots) + 1
  {
    PutKeepsWellFormed(slots, hash, slot.key, q, slot.ref);
    CountUpdate(IsFull(), slots, At(hash(slot.key), q, |slots|), slot);
  }

  lemma BuildInsert<K>(hash: K -> nat, s: State<K>, i: nat, slots: seq<Slot<nat, K>>, ctrl: seq<nat>, q: nat)
    requires TableOk(hash, s.entries, s.slots) && Rebuilt(hash, s, i, slots, ctrl)
    requires i < |s.slots| && IsLive(s.entries, s.slots[i])
    requires q < |slots| && Reaches(slots, hash(s.slots[i].key), q)
    requires slots[At(hash(s.slots[i].key), q, |slots|)] == Nil
    ensures
      var at := At(hash(s.slots[i].key), q, |slots|);
      Rebuilt(hash, s, i + 1, slots[at := s.slots[i]], ctrl[at := Fingerprint(hash(s.slots[i].key))])
  {
    var at := At(hash(s.slots[i].key), q, |slots|);
    NotYetMoved(hash, s, i, slots, ctrl);
    BuildInsertTable(hash, s.entries, slots, s.slots[i], q);
    RebuiltGrows(hash, s, i, slots, ctrl, at);
  }

  lemma RebuiltGrows<K>(hash: K -> nat, s: State<K>, i: nat, slots: seq<Slot<nat, K>>, ctrl: seq<nat>, at: nat)
    requires Rebuilt(hash, s, i, slots, ctrl) && i < |s.slots| && IsLive(s.entries, s.slots[i])
    requires at < |slots| && slots[at] == Nil
    requires var slots' := slots[at := s.slots[i]];
      TableOk(hash, s.entries, slots') && Count(IsFull(), slots') == Count(IsFull(), slots) + 1
    ensures Rebuilt(hash, s, i + 1, slots[at := s.slots[i]], ctrl[at := Fingerprint(hash(s.slots[i].key))])
  {
    var slots' := slots[at := s.slots[i]];
    var flags := Flags(s.entries, s.slots);
    assert flags[..i + 1][..i] == flags[..i];
    forall m | 0 <= m < i + 1 && IsLive(s.entries, s.slots[m]) ensures s.slots[m] in slots' {
      if m == i {
        assert slots'[at] == s.slots[i];
      } else {
        var j :| 0 <= j < |slots| && slots[j] == s.slots[m];
        assert slots'[j] == s.slots[m];
      }
    }
  }

  /** Everything in the new table is live, so its count is the count of filled slots. */
  lemma AllLive<K>(hash: K -> nat, s: State<K>, i: nat, slots: seq<Slot<nat, K>>, ctrl: seq<nat>)
    requires Rebuilt(hash, s, i, slots, ctrl)
    ensures LiveCount(s.entries, slots) == Count(IsFull(), slots)
  {
    forall j | 0 <= j < |slots| ensures IsLive(s.entries, slots[j]) <==> slots[j].Full? {
      if slots[j].Full? {
        var m :| 0 <= m < i && IsLive(s.entries, s.slots[m]) && s.slots[m] == slots[j];
      }
    }
    SameCount(Flags(s.entries, slots), slots);
  }

  lemma {:induction false} SameCount<K>(flags: seq<bool>, slots: seq<Slot<nat, K>>)
    requires |flags| == |slots| && forall j :: 0 <= j < |slots| ==> (flags[j] <==> slots[j].Full?)
    ensures Count(True(), flags) == Count(IsFull(), slots)
  {
    if flags != [] {
      SameCount(flags[..|flags| - 1], slots[..|slots| - 1]);
    }
  }

  /** Past a drain loop only the resizer itself can owe anything. */
  lemma OnlyOwes<K>(s: State<K>, t: nat)
    requires GateOk(s) && t < |s.threads| && Exclusive(s.threads[t])
    ensures Sum(LiveDue(), s.threads) == LiveDue()(s.threads[t])
    ensures Sum(UsedDue(), s.threads) == UsedDue()(s.threads[t])
    ensures Sum(TombDue(), s.threads) == TombDue()(s.threads[t])
  {
    NobodyInside(s, t);
    forall u | 0 <= u < |s.threads| && u != t ensures !Owing(s.threads[u]) {
      assert Holds(s.threads[t]) && !Holds(s.threads[u]);
    }
    NothingOwed(s.threads[t := Idle]);
    Debts(s.threads, t, Idle);
  }

  /** Putting a new table in place, past the drain loop: nobody inside, and from then on the resizer
    * owes the counters the difference to their new values. */
  lemma InstallKeeps<K>(hash: K -> nat, s: State<K>, t: nat, slots: seq<Slot<nat, K>>, ctrl: seq<nat>, kept: nat)
    requires Inv(hash, s) && t < |s.threads| && (s.threads[t].Build? || s.threads[t].Clearing?)
    requires TableOk(hash, s.entries, slots) && |ctrl| == |slots|
    requires forall j :: 0 <= j < |slots| ==> ctrl[j] == if slots[j].Full? then Fingerprint(hash(slots[j].key)) else 0
    requires kept == Count(IsFull(), slots) == LiveCount(s.entries, slots)
    ensures Inv(hash, Install(s, t, slots, ctrl, kept))
  {
    hide TableOk, CtrlOk, BoxesOk, GateOk, PcsOk, CountsOk, LiveCount, Count, Sum, Fingerprint;
    var s' := Install(s, t, slots, ctrl, kept);
    var pc := s'.threads[t];
    NobodyInside(s, t);
    assert CtrlOk(hash, s'.slots, s'.ctrl, s'.threads) by { InstallCtrl(hash, slots, ctrl, s'.threads); }
    assert CountsOk(s') by { InstallCounts(s, t, slots, ctrl, kept); }
    assert GateOk(s') by { InstallGate(s, t, slots, ctrl, kept); }
    assert BoxesOk(s'.entries, s'.boxes, s'.threads) by { BoxesThreads(s.entries, s.boxes, s.threads, t, pc); }
    assert PcsOk(hash, s') by { InstallPcs(hash, s, s', t); }
  }

  lemma InstallCounts<K>(s: State<K>, t: nat, slots: seq<Slot<nat, K>>, ctrl: seq<nat>, kept: nat)
    requires GateOk(s) && CountsOk(s) && t < |s.threads| && (s.threads[t].Build? || s.threads[t].Clearing?)
    requires kept == Count(IsFull(), slots) == LiveCount(s.entries, slots)
    ensures CountsOk(Install(s, t, slots, ctrl, kept))
  {
    OnlyOwes(s, t);
    Debts(s.threads, t, Install(s, t, slots, ctrl, kept).threads[t]);
  }

  lemma InstallGate<K>(s: State<K>, t: nat, slots: seq<Slot<nat, K>>, ctrl: seq<nat>, kept: nat)
    requires GateOk(s) && t < |s.threads| && Exclusive(s.threads[t])
    ensures GateOk(Install(s, t, slots, ctrl, kept))
  {
    NobodyInside(s, t);
    Debts(s.threads, t, Install(s, t, slots, ctrl, kept).threads[t]);
  }

  lemma NobodyInside<K>(s: State<K>, t: nat)
    requires GateOk(s) && t < |s.threads| && Exclusive(s.threads[t])
    ensures forall u :: 0 <= u < |s.threads| ==> !Inside(s.threads[u])
  {
  }

  lemma InstallCtrl<K>(hash: K -> nat, slots: seq<Slot<nat, K>>, ctrl: seq<nat>, threads: seq<Pc<K>>)
    requires |ctrl| == |slots| && forall u :: 0 <= u < |threads| ==> !Inside(threads[u])
    requires forall j :: 0 <= j < |slots| ==> ctrl[j] == if slots[j].Full? then Fingerprint(hash(slots[j].key)) else 0
    ensures CtrlOk(hash, slots, ctrl, threads)
  {
  }

  lemma InstallPcs<K>(hash: K -> nat, s: State<K>, s': State<K>, t: nat)
    requires PcsOk(hash, s) && GateOk(s) && t < |s.threads| && Exclusive(s.threads[t])
    requires |s'.threads| == |s.threads| && PcOk(hash, s', s'.threads[t])
    requires s'.entries == s.entries && s'.boxes == s.boxes
    requires forall u :: 0 <= u < |s.threads| && u != t ==> s'.threads[u] == s.threads[u]
    ensures PcsOk(hash, s')
  {
    forall u | 0 <= u < |s'.threads| ensures PcOk(hash, s', s'.threads[u]) {
      if u != t {
        assert PcOk(hash, s, s.threads[u]);
        assert !Inside(s.threads[u]) && !Holds(s.threads[u]);
      }
    }
  }

  lemma BuildStepKeeps<K>(hash: K -> nat, s: State<K>, t: nat, alt: bool, size: nat)
    requires Inv(hash, s) && t < |s.threads| && s.threads[t].Build?
    ensures Inv(hash, ResizeStep(hash, s, t, alt, size))
  {
    var Build(i, kept, slots, ctrl) := s.threads[t];
    assert PcOk(hash, s, s.threads[t]);
    if i == |s.slots| {
      assert Flags(s.entries, s.slots)[..i] == Flags(s.entries, s.slots);
      AllLive(hash, s, i, slots, ctrl);
      hide CtrlOk, BoxesOk, PcsOk, GateOk, CountsOk;
      InstallKeeps(hash, s, t, slots, ctrl, kept);
    } else {
      var pc := BuildMove(hash, s, t, alt, size);
      hide *;
      BuildMoves(hash, s, t, pc);
    }
  }

  /** Where the next old slot leads, while there is one. */
  lemma BuildMove<K>(hash: K -> nat, s: State<K>, t: nat, alt: bool, size: nat) returns (pc: Pc<K>)
    requires TableOk(hash, s.entries, s.slots) && t < |s.threads| && s.threads[t].Build?
    requires PcOk(hash, s, s.threads[t]) && s.threads[t].i < |s.slots|
    ensures ResizeStep(hash, s, t, alt, size) == SetPc(s, t, pc) && pc.Build? && PcOk(hash, s, pc)
  {
    var Build(i, kept, slots, ctrl) := s.threads[t];
    if !IsLive(s.entries, s.slots[i]) {
      BuildSkip(hash, s, i, slots, ctrl);
      pc := Build(i + 1, kept, slots, ctrl);
    } else {
      var q := RoomToInsert(hash, s, i, kept, slots, ctrl);
      BuildInsert(hash, s, i, slots, ctrl, q);
      var at := At(hash(s.slots[i].key), q, |slots|);
      pc := Build(i + 1, kept, slots[at := s.slots[i]], ctrl[at := Fingerprint(hash(s.slots[i].key))]);
    }
  }

  lemma BuildMoves<K>(hash: K -> nat, s: State<K>, t: nat, pc: Pc<K>)
    requires Inv(hash, s) && t < |s.threads| && s.threads[t].Build? && pc.Build? && PcOk(hash, s, pc)
    ensures Inv(hash, SetPc(s, t, pc))
  {
    hide Inv, PcOk;
    MovesOn(hash, s, t, pc);
  }

  lemma ResizeStepKeeps<K>(hash: K -> nat, s: State<K>, t: nat, alt: bool, size: nat)
    requires Inv(hash, s) && t < |s.threads| && Quota(s)
    requires var pc := s.threads[t]; pc.ResizeCas? || pc.Drain? || pc.Scan? || pc.Release?
    requires s.threads[t].Scan? ==> s.threads[t].kept < size
    ensures Inv(hash, ResizeStep(hash, s, t, alt, size))
  {
    hide TableOk, CtrlOk, BoxesOk, PcsOk, GateOk, CountsOk, PcOk;
    var s' := ResizeStep(hash, s, t, alt, size);
    if s' != s {
      InvPc(hash, s, t);
      ResizeGate(hash, s, t, alt, size);
      ResizePc(hash, s, t, alt, size);
      MoveKeeps(hash, s, s', t);
    }
  }

  lemma ClearKeeps<K>(hash: K -> nat, s: State<K>, t: nat, alt: bool, size: nat)
    requires Inv(hash, s) && t < |s.threads| && s.threads[t].Clearing?
    ensures Inv(hash, ResizeStep(hash, s, t, alt, size))
  {
    if size > 0 {
      EmptyCounts<nat, K>(size);
      CountAll(True(), Flags(s.entries, Empty(size)));
      hide Inv;
      InstallKeeps(hash, s, t, Empty(size), Zeros(size), 0);
    }
  }

  /** A store of one counter pays exactly what the resizer owes it. */
  lemma SettleKeeps<K>(hash: K -> nat, s: State<K>, t: nat, alt: bool, size: nat)
    requires Inv(hash, s) && t < |s.threads| && s.threads[t].Settle?
    ensures Inv(hash, ResizeStep(hash, s, t, alt, size))
  {
    var s' := ResizeStep(hash, s, t, alt, size);
    assert PcOk(hash, s, s.threads[t]);
    OnlyOwes(s, t);
    hide TableOk, CtrlOk, BoxesOk, PcsOk, LiveCount, Count, Sum;
    GateThreads(s, s', t, s'.threads[t]);
    MoveKeeps(hash, s, s', t);
  }

  lemma ResizeGate<K>(hash: K -> nat, s: State<K>, t: nat, alt: bool, size: nat)
    requires GateOk(s) && Quota(s) && t < |s.threads|
    requires var pc := s.threads[t]; pc.ResizeCas? || pc.Drain? || pc.Scan? || pc.Release?
    ensures GateOk(ResizeStep(hash, s, t, alt, size))
  {
    var pc := s.threads[t];
    var s' := ResizeStep(hash, s, t, alt, size);
    if s'.threads[t].Drain? && pc.ResizeCas? {
      LockGate(s, t);
    } else if pc.Drain? && s.word == BIT {
      DrainGate(s, t, s'.threads[t]);
    } else if pc.Release? {
      ReleaseGate(s, t);
    } else if !pc.Drain? {
      GateThreads(s, s', t, s'.threads[t]);
    }
  }

  lemma ResizePc<K>(hash: K -> nat, s: State<K>, t: nat, alt: bool, size: nat)
    requires t < |s.threads| && PcOk(hash, s, s.threads[t])
    requires s.threads[t].Scan? ==> s.threads[t].kept < size
    requires var pc := s.threads[t]; pc.ResizeCas? || pc.Drain? || pc.Scan? || pc.Release?
    ensures PcOk(hash, s, ResizeStep(hash, s, t, alt, size).threads[t])
  {
    var pc := s.threads[t];
    if pc.Scan? {
      if pc.i < |s.slots| { ScanStep(hash, s, pc.i, pc.kept); } else { ScanDone(hash, s, pc.kept, size); }
    } else {
      assert Flags(s.entries, s.slots)[..0] == [];
    }
  }

  // ---------------------------------------------------------------- all runs

  lemma SwapStepKeeps<K>(hash: K -> nat, s: State<K>, t: nat)
    requires Inv(hash, s) && t < |s.threads| && s.threads[t].Swapping?
    ensures Inv(hash, Step(hash, s, t, Go(false, 0)))
  {
    var Swapping(e, seen) := s.threads[t];
    assert PcOk(hash, s, s.threads[t]);
    hide TableOk, CtrlOk, BoxesOk, PcsOk, GateOk, CountsOk, NewBox;
    if s.entries[e].box == seen {
      NewBoxKeeps(hash, s, t, e, Idle);
    } else {
      MovesOn(hash, s, t, Gate(Adding, Put(s.entries[e].key)));
    }
  }

  lemma BeginKeeps<K>(hash: K -> nat, s: State<K>, t: nat, w: What<K>)
    requires Inv(hash, s) && Enabled(s, t, w) && !w.Go?
    ensures Inv(hash, Step(hash, s, t, w))
  {
    if w.BeginSwap? { BoxIsOwned(s, w.e); }
    hide Inv;
    MovesOn(hash, s, t, Step(hash, s, t, w).threads[t]);
  }

  lemma StepKeeps<K>(hash: K -> nat, s: State<K>, t: nat, w: What<K>)
    requires Inv(hash, s) && Enabled(s, t, w) && Quota(s) && Quota(Step(hash, s, t, w))
    ensures Inv(hash, Step(hash, s, t, w))
  {
    hide TableOk, CtrlOk, BoxesOk, PcsOk, GateOk, CountsOk, ProbeStep, EntryStep, GateStep, PayStep, ResizeStep;
    if !w.Go? {
      BeginKeeps(hash, s, t, w);
    } else {
      match s.threads[t]
      case Swapping(_, _) => SwapStepKeeps(hash, s, t);
      case Gate(_, _) => GateStepKeeps(hash, s, t);
      case Enter(_) => EnterKeeps(hash, s, t);
      case Probe(_, _, _) => ProbeStepKeeps(hash, s, t);
      case Publish(_, i) =>
        PublishInRange(hash, s, t);
        PublishKeeps(hash, s, t);
      case AtEntry(_, _, _) => EntryStepKeeps(hash, s, t, w.alt);
      case Owe(_, _, _) => PayStepKeeps(hash, s, t);
      case Retry(_) => RetryKeeps(hash, s, t);
      case Build(_, _, _, _) => BuildStepKeeps(hash, s, t, w.alt, w.size);
      case Clearing => ClearKeeps(hash, s, t, w.alt, w.size);
      case Settle(_, _, _, _, _) => SettleKeeps(hash, s, t, w.alt, w.size);
      case Idle =>
      case _ => ResizeStepKeeps(hash, s, t, w.alt, w.size);
    }
  }

  lemma PublishInRange<K>(hash: K -> nat, s: State<K>, t: nat)
    requires CtrlOk(hash, s.slots, s.ctrl, s.threads) && t < |s.threads| && s.threads[t].Publish?
    ensures s.threads[t].i < |s.ctrl|
  {
    assert Publishing(s.threads, t, s.threads[t].i);
  }

  function Init<K>(threads: nat, size: nat): State<K> {
    State(0, None, Empty(size), Zeros(size), 0, seq(threads, _ => 0), [], [], 0, 0, 0, seq(threads, _ => Idle))
  }

  /** The state after a schedule in which every step was enabled and the pending writers stayed
    * below quota. */
  ghost function Run<K>(hash: K -> nat, threads: nat, size: nat, schedule: seq<(nat, What<K>)>): Option<State<K>> {
    if schedule == [] then Some(Init(threads, size)) else
    var before := Run(hash, threads, size, schedule[..|schedule| - 1]);
    var (t, w) := schedule[|schedule| - 1];
    if before.Some? && Enabled(before.value, t, w) && Quota(before.value) && Quota(Step(hash, before.value, t, w))
    then Some(Step(hash, before.value, t, w)) else None
  }

  lemma InitInv<K>(hash: K -> nat, threads: nat, size: nat)
    requires size > 0
    ensures Inv(hash, Init(threads, size))
  {
    var s := Init<K>(threads, size);
    EmptyCounts<nat, K>(size);
    CountAll(True(), Flags(s.entries, s.slots));
    NothingOwed(s.threads);
    SumZero(Pending(), s.threads);
  }

  lemma {:induction false} RunKeepsInv<K>(hash: K -> nat, threads: nat, size: nat, schedule: seq<(nat, What<K>)>)
    requires size > 0 && Run(hash, threads, size, schedule).Some?
    ensures Inv(hash, Run(hash, threads, size, schedule).value)
  {
    if schedule == [] {
      InitInv(hash, threads, size);
    } else {
      var front := schedule[..|schedule| - 1];
      RunKeepsInv(hash, threads, size, front);
      var (t, w) := schedule[|schedule| - 1];
      StepKeeps(hash, Run(hash, threads, size, front).value, t, w);
    }
  }

  // ---------------------------------------------------------------- main theorems

  ghost predicate Reachable<K(!new)>(hash: K -> nat, s: State<K>) {
    exists threads: nat, size: nat, schedule :: size > 0 && Run(hash, threads, size, schedule) == Some(s)
  }

  lemma ReachableInv<K(!new)>(hash: K -> nat, s: State<K>)
    requires Reachable(hash, s)
    ensures Inv(hash, s)
  {
    var threads: nat, size: nat, schedule :| size > 0 && Run(hash, threads, size, schedule) == Some(s);
    RunKeepsInv(hash, threads, size, schedule);
  }

  /** The state word is writers inside or backing off plus 2^62 for the resizer, there is at most
    * one resizer, and past its drain loop no writer is between beginWrite and endWrite. */
  lemma GateExcludes<K(!new)>(hash: K -> nat, s: State<K>)
    requires Reachable(hash, s)
    ensures s.word == Sum(Pending(), s.threads) + (if s.holder.Some? then BIT else 0)
    ensures forall t, u :: 0 <= t < |s.threads| && 0 <= u < |s.threads|
                           && Holds(s.threads[t]) && Holds(s.threads[u]) ==>
      t == u
    ensures forall t, u :: 0 <= t < |s.threads| && 0 <= u < |s.threads| && Exclusive(s.threads[t]) ==>
      !Inside(s.threads[u])
  {
    ReachableInv(hash, s);
  }

  /** The same table, and what was in its slots still is. */
  ghost predicate SameTable<K>(s: State<K>, s': State<K>) {
    && s'.gen == s.gen && |s'.slots| == |s.slots|
    && (forall i :: 0 <= i < |s.slots| && s.slots[i].Full? ==> s'.slots[i] == s.slots[i])
  }

  lemma ProbeSameTable<K>(hash: K -> nat, s: State<K>, t: nat, probe: ProbeAt, k: K, d: nat)
    requires t < |s.threads|
    ensures var s' := ProbeStep(hash, s, t, probe, k, d); SameTable(s, s') && s'.loaded == s.loaded
  {
  }

  lemma EntrySameTable<K>(s: State<K>, t: nat, at: EntryAt, e: nat, seen: Option<nat>, alt: bool)
    requires t < |s.threads|
    ensures var s' := EntryStep(s, t, at, e, seen, alt); SameTable(s, s') && s'.loaded == s.loaded
  {
  }

  lemma GateSameTable<K>(s: State<K>, t: nat, gate: GateAt, work: Work<K>)
    requires t < |s.threads|
    ensures var s' := GateStep(s, t, gate, work); SameTable(s, s') && s'.loaded == s.loaded
  {
  }

  lemma PaySameTable<K>(s: State<K>, t: nat, live: int, used: int, tombs: int)
    requires t < |s.threads|
    ensures var s' := PayStep(s, t, live, used, tombs); SameTable(s, s') && s'.loaded == s.loaded
  {
  }

  lemma ResizeSameTable<K>(hash: K -> nat, s: State<K>, t: nat, alt: bool, size: nat)
    requires t < |s.threads|
    ensures var s' := ResizeStep(hash, s, t, alt, size);
      && s'.loaded == s.loaded
      && (SameTable(s, s') || (s'.gen == s.gen + 1 && Exclusive(s.threads[t]) && s'.threads[t].Settle?))
  {
  }

  /** A table keeps its number only as long as it is the same table: one with another number was put
    * in place by a resizer or a clearer past its drain loop. */
  lemma NewTableNewNumber<K>(hash: K -> nat, s: State<K>, t: nat, w: What<K>)
    requires Enabled(s, t, w)
    ensures var s' := Step(hash, s, t, w);
      && (SameTable(s, s') || (s'.gen == s.gen + 1 && Exclusive(s.threads[t]) && s'.threads[t].Settle?))
      && (s.threads[t].Enter? || s'.loaded == s.loaded)
  {
    hide ProbeStep, EntryStep, ResizeStep, GateStep, PayStep;
    match w {
      case Go(alt, size) =>
        match s.threads[t] {
          case Probe(probe, k, d) => ProbeSameTable(hash, s, t, probe, k, d);
          case AtEntry(at, e, seen) => EntrySameTable(s, t, at, e, seen, alt);
          case Gate(gate, work) => GateSameTable(s, t, gate, work);
          case Owe(live, used, tombs) => PaySameTable(s, t, live, used, tombs);
          case _ => ResizeSameTable(hash, s, t, alt, size);
        }
      case _ =>
    }
  }

  /** While a writer works on the table it loaded, that table is the current one, and whichever thread
    * takes the next step it stays so and its filled slots keep their entries. */
  lemma TableStaysWhileInside<K(!new)>(hash: K -> nat, s: State<K>, u: nat, t: nat, w: What<K>)
    requires Reachable(hash, s) && u < |s.threads| && HasTable(s.threads[u]) && Enabled(s, t, w)
    ensures u < |s.loaded| && s.loaded[u] == s.gen && SameTable(s, Step(hash, s, t, w))
  {
    ReachableInv(hash, s);
    InsideExcludes(s, u);
    hide Step;
    NewTableNewNumber(hash, s, t, w);
  }

  /** No interleaving of inserts breaks the table: from a key's home to its entry every slot is
    * filled, and no key has two entries. */
  lemma InsertsKeepTable<K(!new)>(hash: K -> nat, s: State<K>)
    requires Reachable(hash, s)
    ensures WellFormed(s.slots, hash)
    ensures forall i :: 0 <= i < |s.slots| && s.slots[i].Full? ==>
              s.slots[i].ref < |s.entries| && s.entries[s.slots[i].ref].key == s.slots[i].key
  {
    ReachableInv(hash, s);
  }

  /** With nobody inside and no resizer between its stores, the counters are exact. In every other
    * state each is off by exactly what writers past their CAS have still to add and what the
    * resizer's remaining stores will change. */
  lemma CountersExact<K(!new)>(hash: K -> nat, s: State<K>)
    requires Reachable(hash, s)
    ensures CountsOk(s)
    ensures (forall t :: 0 <= t < |s.threads| ==> !Owing(s.threads[t])) ==> CountersAreExact(s)
  {
    ReachableInv(hash, s);
    if forall t :: 0 <= t < |s.threads| ==> !Owing(s.threads[t]) {
      NothingOwed(s.threads);
    }
  }

  ghost predicate CountersAreExact<K>(s: State<K>) {
    && s.live == LiveCount(s.entries, s.slots) && s.used == Count(IsFull(), s.slots)
    && s.tombs == s.used - s.live
  }

  /** Between the store of the table and the store of a counter that counter still holds the old
    * count, and nobody is inside: a state in which a reader of the counters sees them wrong. */
  lemma CountersLag<K(!new)>(hash: K -> nat, s: State<K>, t: nat)
    requires Reachable(hash, s) && t < |s.threads| && s.threads[t].Settle?
    ensures forall u :: 0 <= u < |s.threads| ==> !Inside(s.threads[u])
    ensures var Settle(left, kept, live, used, tombs) := s.threads[t];
      && kept == LiveCount(s.entries, s.slots) == Count(IsFull(), s.slots)
      && s.live == kept - live && s.used == kept - used && s.tombs == -tombs
      && (left < 3 ==> s.live == kept) && (left < 2 ==> s.used == kept)
  {
    ReachableInv(hash, s);
    assert PcOk(hash, s, s.threads[t]);
    OnlyOwes(s, t);
  }

  /** An entry that points to a claimed box has its remover inside, about to unlink it. */
  lemma ClaimedHasRemover<K(!new)>(hash: K -> nat, s: State<K>, e: nat)
    requires Reachable(hash, s) && e < |s.entries| && s.entries[e].box.Some?
    ensures var b := s.entries[e].box.value;
      b < |s.boxes| && (s.boxes[b].claimed ==> exists t: nat :: Unlinking(s.threads, t, e, b) && Inside(s.threads[t]))
  {
    ReachableInv(hash, s);
    var b := s.entries[e].box.value;
    if s.boxes[b].claimed {
      var t: nat :| Unlinking(s.threads, t, e, b);
      assert Inside(s.threads[t]);
    }
  }

  ghost predicate PointsToClaimed<K>(s: State<K>, e: nat) {
    e < |s.entries| && s.entries[e].box.Some? && s.entries[e].box.value < |s.boxes|
    && s.boxes[s.entries[e].box.value].claimed
  }

  /** The table of s' holds exactly the entries of s that have a value, as the same entries and
    * none of them with a claimed box, and its control words are exact. */
  ghost predicate ExactRebuild<K>(hash: K -> nat, s: State<K>, s': State<K>) {
    && WellFormed(s'.slots, hash) && |s'.ctrl| == |s'.slots|
    && (forall j :: 0 <= j < |s'.slots| && s'.slots[j].Full? ==>
          s'.slots[j] in s.slots && IsLive(s.entries, s'.slots[j]) && !PointsToClaimed(s', s'.slots[j].ref))
    && (forall m :: 0 <= m < |s.slots| && IsLive(s.entries, s.slots[m]) ==> s.slots[m] in s'.slots)
    && (forall j :: 0 <= j < |s'.slots| ==>
          s'.ctrl[j] == if s'.slots[j].Full? then Fingerprint(hash(s'.slots[j].key)) else 0)
    && s'.entries == s.entries
  }

  /** The step that puts a rebuilt table in place. The counts it is about to store are the table's. */
  lemma RebuildIsExact<K(!new)>(hash: K -> nat, s: State<K>, t: nat, alt: bool, size: nat)
    requires Reachable(hash, s) && t < |s.threads| && s.threads[t].Build? && s.threads[t].i == |s.slots|
    ensures var s' := Step(hash, s, t, Go(alt, size));
      && ExactRebuild(hash, s, s') && s'.threads[t].Settle? && s'.threads[t].left == 3
      && s'.threads[t].kept == Count(IsFull(), s'.slots) == LiveCount(s'.entries, s'.slots)
  {
    hide TableOk, CtrlOk, BoxesOk, CountsOk, PcsOk, GateOk, Reachable, Rebuilt, PointsToClaimed, Count, LiveCount;
    ReachableInv(hash, s);
    InvPc(hash, s, t);
    var Build(i, kept, slots, ctrl) := s.threads[t];
    AllLive(hash, s, i, slots, ctrl);
    BuiltAll(hash, s, slots, ctrl);
    var s' := Step(hash, s, t, Go(alt, size));
    forall j | 0 <= j < |slots| && slots[j].Full? ensures !PointsToClaimed(s', slots[j].ref) {
      ExclusiveMeansUnclaimed(hash, s, t, slots[j].ref);
      Unclaimed(s, s', slots[j].ref);
    }
  }

  lemma Unclaimed<K>(s: State<K>, s': State<K>, e: nat)
    requires s'.entries == s.entries && s'.boxes == s.boxes && !PointsToClaimed(s, e)
    ensures !PointsToClaimed(s', e)
  {
  }

  /** A rebuild that has gone through all slots. */
  lemma BuiltAll<K>(hash: K -> nat, s: State<K>, slots: seq<Slot<nat, K>>, ctrl: seq<nat>)
    requires Rebuilt(hash, s, |s.slots|, slots, ctrl)
    ensures WellFormed(slots, hash) && |ctrl| == |slots| && Count(IsFull(), slots) == LiveCount(s.entries, s.slots)
    ensures forall j :: 0 <= j < |slots| && slots[j].Full? ==> slots[j] in s.slots && IsLive(s.entries, slots[j])
    ensures forall m :: 0 <= m < |s.slots| && IsLive(s.entries, s.slots[m]) ==> s.slots[m] in slots
    ensures forall j :: 0 <= j < |slots| ==> ctrl[j] == if slots[j].Full? then Fingerprint(hash(slots[j].key)) else 0
  {
    assert Flags(s.entries, s.slots)[..|s.slots|] == Flags(s.entries, s.slots);
  }

  /** From there until the bit is cleared no step of any thread changes a slot, a control word, or
    * whether an entry has a value; */
  lemma SettlingKeepsTable<K(!new)>(hash: K -> nat, s: State<K>, t: nat, u: nat, w: What<K>)
    requires Reachable(hash, s) && t < |s.threads|
    requires (s.threads[t].Settle? || s.threads[t].Release?) && Enabled(s, u, w)
    ensures var s' := Step(hash, s, u, w);
      s'.slots == s.slots && s'.ctrl == s.ctrl && s'.gen == s.gen && Frozen(s, s')
  {
    hide TableOk, CtrlOk, BoxesOk, CountsOk, PcsOk, Reachable, GateOk, Count, LiveCount, Sum, CloneIndex;
    ReachableInv(hash, s);
    HolderAlone(s, t, u);
    InvPc(hash, s, u);
  }

  lemma HolderAlone<K>(s: State<K>, t: nat, u: nat)
    requires GateOk(s) && t < |s.threads| && u < |s.threads| && (s.threads[t].Settle? || s.threads[t].Release?)
    ensures !Inside(s.threads[u]) && (u != t ==> !Holds(s.threads[u]))
  {
    NobodyInside(s, t);
  }

  /** and when it is about to clear the bit, all counters are exact. */
  lemma ReleaseIsExact<K(!new)>(hash: K -> nat, s: State<K>, t: nat)
    requires Reachable(hash, s) && t < |s.threads| && s.threads[t].Release?
    ensures CountersAreExact(s)
  {
    ReachableInv(hash, s);
    OnlyOwes(s, t);
  }

  lemma ExclusiveMeansUnclaimed<K(!new)>(hash: K -> nat, s: State<K>, t: nat, e: nat)
    requires Reachable(hash, s) && t < |s.threads| && Exclusive(s.threads[t])
    ensures !PointsToClaimed(s, e)
  {
    GateExcludes(hash, s);
    if PointsToClaimed(s, e) { ClaimedHasRemover(hash, s, e); }
  }

  /** findEntry: probe by control words, compare only slots whose fingerprint matches. */
  function FindEntry<K(==)>(hash: K -> nat, slots: seq<Slot<nat, K>>, ctrl: seq<nat>, k: K, d: nat): Option<nat>
    requires |ctrl| == |slots|
    decreases |slots| - d
  {
    if d >= |slots| then None else
    var i := At(hash(k), d, |slots|);
    if ctrl[i] == 0 then None
    else if ctrl[i] == Fingerprint(hash(k)) && Has(slots[i], k) then Some(i)
    else FindEntry(hash, slots, ctrl, k, d + 1)
  }

  /** When no insert is between its CAS and its control word, the lookup by fingerprints finds the
    * slot that holds k, and finds nothing only if no slot does. */
  lemma CtrlLookupIsExact<K(!new)>(hash: K -> nat, s: State<K>, k: K)
    requires Reachable(hash, s) && (forall t :: 0 <= t < |s.threads| ==> !s.threads[t].Publish?)
    ensures |s.ctrl| == |s.slots|
    ensures match FindEntry(hash, s.slots, s.ctrl, k, 0)
      case Some(i) => i < |s.slots| && Has(s.slots[i], k)
      case None => Absent(s.slots, k)
  {
    ReachableInv(hash, s);
    FindFrom(hash, s.slots, s.ctrl, k, 0);
  }

  lemma {:induction false} FindFrom<K>(hash: K -> nat, slots: seq<Slot<nat, K>>, ctrl: seq<nat>, k: K, d: nat)
    requires WellFormed(slots, hash) && |ctrl| == |slots| && d <= |slots| && Misses(slots, hash(k), k, d)
    requires forall i :: 0 <= i < |slots| ==> !slots[i].Tomb?
    requires forall i :: 0 <= i < |slots| ==> ctrl[i] == if slots[i].Full? then Fingerprint(hash(slots[i].key)) else 0
    ensures match FindEntry(hash, slots, ctrl, k, d)
      case Some(i) => i < |slots| && Has(slots[i], k)
      case None => Absent(slots, k)
    decreases |slots| - d
  {
    if d == |slots| || ctrl[At(hash(k), d, |slots|)] == 0 {
      MissIsAbsent(slots, hash, k, d);
    } else if !Has(slots[At(hash(k), d, |slots|)], k) {
      FindFrom(hash, slots, ctrl, k, d + 1);
    }
  }
}
