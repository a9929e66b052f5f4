/** No thread at work in a `Map` shard is ever stuck: with no resizer present and room for its key, a
  * thread that runs alone is through after at most twice as many steps as there are slots, and a few.
  */
module ShardProgress {
  import opened Options
  import opened Probe
  import opened ShardMachine
  import opened ShardWork

  /** A bound on the steps that a thread still needs alone. */
  function Rest<K(==)>(hash: K -> nat, s: State<K>, t: nat): (r: nat)
    requires t < |s.threads|
  {
    var n := |s.slots|;
    match s.threads[t]
    case Idle => 0
    case Owe(live, used, tombs) =>
      1 + (if live != 0 then 1 else 0) + (if used != 0 then 1 else 0) + (if tombs != 0 then 1 else 0)
    case Publish(_, _) => 4
    case AtEntry(at, e, seen) =>
      (match at
       case PutLoad => 6
       case PutSwap => if e < |s.entries| && s.entries[e].box == seen then 5 else 7
       case RemoveUnlink => 5
       case RemoveClaim => 6
       case RemoveLoad => 7)
    case Probe(probe, k, d) =>
      var left := if d < n then n - d else 0;
      (match probe
       case PutSlot => 7 + left
       case PutCas => if d < n && !s.slots[At(hash(k), d, n)].Full? then 6 else 13 + 2 * n
       case RemoveCtrl => 9 + 2 * left
       case RemoveSlot => 8 + 2 * left)
    case Enter(_) => 10 + 2 * n
    case Gate(gate, _) => 11 + 2 * n + (if gate.Adding? then 0 else if gate.Spinning? then 1 else 2)
    case Retry(_) => 12 + 2 * n
    case Swapping(e, seen) => if e < |s.entries| && s.entries[e].box == seen then 1 else 12 + 2 * n
    case _ => 0
  }

  lemma RestIsBounded<K>(hash: K -> nat, s: State<K>, t: nat)
    requires t < |s.threads|
    ensures Rest(hash, s, t) <= 2 * |s.slots| + 13
  {
  }

  predicate AtWork<K>(pc: Pc<K>) {
    Inside(pc) || pc.Gate? || pc.Swapping?
  }

  /** The key that thread t is to put has an entry, or there is a slot for one. */
  ghost predicate Room<K>(s: State<K>, t: nat)
    requires t < |s.threads|
  {
    Doing(s, t).Some? && Doing(s, t).value.Put? ==> Nil in s.slots || !Absent(s.slots, Doing(s, t).value.key)
  }

  /** Thread t may run alone: nobody holds the bit, and the others leave it below quota. */
  ghost predicate Ready<K>(hash: K -> nat, s: State<K>, t: nat) {
    && Inv(hash, s) && t < |s.threads| && s.holder == None && Sum(Pending(), s.threads[t := Idle]) + 1 < BIT
    && Room(s, t)
  }

  /** Thread t has taken a step alone and is nearer to its end. */
  ghost predicate Nearer<K>(hash: K -> nat, s: State<K>, t: nat)
    requires t < |s.threads| && Enabled(s, t, Go(false, 0))
  {
    var s' := Step(hash, s, t, Go(false, 0));
    && |s'.threads| == |s.threads| && |s'.slots| == |s.slots| && s'.threads == s.threads[t := s'.threads[t]]
    && s'.holder == None && (AtWork(s'.threads[t]) || s'.threads[t].Idle?) && Room(s', t)
    && Rest(hash, s', t) < Rest(hash, s, t)
  }

  lemma PendingAlone<K>(s: State<K>, t: nat)
    requires t < |s.threads|
    ensures Sum(Pending(), s.threads) == Sum(Pending(), s.threads[t := Idle]) + Pending()(s.threads[t])
  {
    SumUpdate(Pending(), s.threads, t, Idle);
  }

  lemma AddingNears<K>(hash: K -> nat, s: State<K>, t: nat)
    requires Ready(hash, s, t) && s.threads[t].Gate? && s.threads[t].gate.Adding?
    ensures Nearer(hash, s, t)
  {
    hide TableOk, CtrlOk, BoxesOk, PcsOk, CountsOk, HasBit, Sum;
    var pc := Enter(s.threads[t].work);
    PendingAlone(s, t);
    PendingAlone(SetPc(s, t, pc), t);
    assert s.threads[t := pc][t := Idle] == s.threads[t := Idle];
    AddingSeesHolder(s, t, pc);
  }

  lemma GateNears<K>(hash: K -> nat, s: State<K>, t: nat)
    requires Ready(hash, s, t)
    requires (s.threads[t].Gate? && !s.threads[t].gate.Adding?) || s.threads[t].Enter? || s.threads[t].Retry?
    ensures Nearer(hash, s, t)
  {
    hide TableOk, CtrlOk, BoxesOk, PcsOk, CountsOk, HasBit, Sum;
    PendingAlone(s, t);
    LoadedInRange(s, t);
    BitMeansHolder(s);
    hide GateOk;
  }

  lemma PutProbeNears<K>(hash: K -> nat, s: State<K>, t: nat)
    requires Ready(hash, s, t) && s.threads[t].Probe? && (s.threads[t].probe.PutSlot? || s.threads[t].probe.PutCas?)
    ensures Nearer(hash, s, t)
  {
    InvPc(hash, s, t);
    hide CountsOk, GateOk, BoxesOk, PcsOk, CtrlOk, Sum;
    var Probe(probe, k, d) := s.threads[t];
    if probe.PutSlot? && d == |s.slots| {
      NoRoom(hash, s.slots, k);
    }
  }

  lemma NoRoom<K>(hash: K -> nat, slots: seq<Slot<nat, K>>, k: K)
    requires WellFormed(slots, hash) && Misses(slots, hash(k), k, |slots|)
    ensures Absent(slots, k) && Nil !in slots
  {
    MissIsAbsent(slots, hash, k, |slots|);
    forall i | 0 <= i < |slots| ensures slots[i] != Nil {
      AtDist(hash(k), i, |slots|);
    }
  }

  lemma RemoveProbeNears<K>(hash: K -> nat, s: State<K>, t: nat)
    requires Ready(hash, s, t) && s.threads[t].Probe?
    requires s.threads[t].probe.RemoveCtrl? || s.threads[t].probe.RemoveSlot?
    ensures Nearer(hash, s, t)
  {
    InvPc(hash, s, t);
    hide CountsOk, GateOk, BoxesOk, PcsOk, Sum, Absent, Misses, Inside;
  }

  lemma PutEntryNears<K>(hash: K -> nat, s: State<K>, t: nat)
    requires Ready(hash, s, t) && s.threads[t].AtEntry? && (s.threads[t].at.PutLoad? || s.threads[t].at.PutSwap?)
    ensures Nearer(hash, s, t)
  {
    hide CountsOk, GateOk, BoxesOk, PcsOk, CtrlOk, TableOk, Absent, InTable, Sum;
    InvPc(hash, s, t);
  }

  lemma RemoveEntryNears<K>(hash: K -> nat, s: State<K>, t: nat)
    requires Ready(hash, s, t) && s.threads[t].AtEntry? && !s.threads[t].at.PutLoad? && !s.threads[t].at.PutSwap?
    ensures Nearer(hash, s, t)
  {
    hide CountsOk, GateOk, BoxesOk, PcsOk, CtrlOk, TableOk, Absent, InTable, Sum;
    InvPc(hash, s, t);
  }

  lemma SwapNears<K>(hash: K -> nat, s: State<K>, t: nat)
    requires Ready(hash, s, t) && s.threads[t].Swapping?
    ensures Nearer(hash, s, t)
  {
    hide CountsOk, GateOk, BoxesOk, PcsOk, CtrlOk, TableOk, Absent, InTable, Sum;
    InvPc(hash, s, t);
  }

  lemma EndNears<K>(hash: K -> nat, s: State<K>, t: nat)
    requires Ready(hash, s, t) && (s.threads[t].Publish? || s.threads[t].Owe?)
    ensures Nearer(hash, s, t)
  {
    if s.threads[t].Publish? { PublishInRange(hash, s, t); }
    hide CountsOk, GateOk, BoxesOk, PcsOk, CtrlOk, TableOk;
  }

  lemma StepNears<K>(hash: K -> nat, s: State<K>, t: nat)
    requires t < |s.threads| && Ready(hash, s, t) && AtWork(s.threads[t])
    ensures Nearer(hash, s, t)
  {
    hide Ready, Nearer;
    match s.threads[t]
    case Gate(gate, _) => if gate.Adding? { AddingNears(hash, s, t); } else { GateNears(hash, s, t); }
    case Enter(_) => GateNears(hash, s, t);
    case Retry(_) => GateNears(hash, s, t);
    case Probe(probe, _, _) =>
      if probe.PutSlot? || probe.PutCas? { PutProbeNears(hash, s, t); } else { RemoveProbeNears(hash, s, t); }
    case AtEntry(at, _, _) =>
      if at.PutLoad? || at.PutSwap? { PutEntryNears(hash, s, t); } else { RemoveEntryNears(hash, s, t); }
    case Swapping(_, _) => SwapNears(hash, s, t);
    case _ => EndNears(hash, s, t);
  }

  /** n steps of thread t alone. */
  function Alone<K>(t: nat, n: nat): seq<(nat, What<K>)> {
    seq(n, _ => (t, Go(false, 0)))
  }

  /** After its step alone thread t may go on alone. */
  lemma StaysReady<K>(hash: K -> nat, s: State<K>, t: nat)
    requires Ready(hash, s, t) && AtWork(s.threads[t])
    ensures var s' := Step(hash, s, t, Go(false, 0)); Quota(s) && Quota(s') && Ready(hash, s', t)
  {
    StepNears(hash, s, t);
    var s' := Step(hash, s, t, Go(false, 0));
    hide Inv, Room, Step, Rest;
    PendingAlone(s, t);
    PendingAlone(s', t);
    assert s'.threads[t := Idle] == s.threads[t := Idle];
    StepKeeps(hash, s, t, Go(false, 0));
  }

  lemma {:induction false} AloneEnds<K>(hash: K -> nat, threads: nat, size: nat, schedule: seq<(nat, What<K>)>,
      s: State<K>, t: nat) returns (n: nat)
    requires Run(hash, threads, size, schedule) == Some(s)
    requires Ready(hash, s, t) && (AtWork(s.threads[t]) || s.threads[t].Idle?)
    ensures n <= Rest(hash, s, t) && IdleAfter(hash, threads, size, schedule, t, n)
    decreases Rest(hash, s, t)
  {
    if s.threads[t].Idle? {
      n := 0;
      assert schedule + Alone(t, 0) == schedule;
    } else {
      StepNears(hash, s, t);
      StaysReady(hash, s, t);
      hide Ready, Step, Rest, Room;
      var next := schedule + [(t, Go(false, 0))];
      assert next[..|schedule|] == schedule;
      var m := AloneEnds(hash, threads, size, next, Step(hash, s, t, Go(false, 0)), t);
      n := m + 1;
      assert schedule + Alone(t, n) == next + Alone(t, m);
    }
  }

  ghost predicate IdleAfter<K>(hash: K -> nat, threads: nat, size: nat, schedule: seq<(nat, What<K>)>, t: nat, n: nat) {
    var r := Run(hash, threads, size, schedule + Alone(t, n));
    r.Some? && t < |r.value.threads| && r.value.threads[t].Idle?
  }

  /** From every state of every run: a thread at work, with no resizer present and, if it is to put a
    * key, an entry or a free slot for it, is through after at most 2n + 13 steps alone. */
  lemma NobodyIsStuck<K>(hash: K -> nat, threads: nat, size: nat, schedule: seq<(nat, What<K>)>, t: nat)
    requires size > 0 && Run(hash, threads, size, schedule).Some?
    requires var s := Run(hash, threads, size, schedule).value;
      && t < |s.threads| && AtWork(s.threads[t]) && s.holder == None && Room(s, t)
      && Sum(Pending(), s.threads[t := Idle]) + 1 < BIT
    ensures var s := Run(hash, threads, size, schedule).value;
      exists n: nat :: n <= 2 * |s.slots| + 13 && IdleAfter(hash, threads, size, schedule, t, n)
  {
    var s := Run(hash, threads, size, schedule).value;
    RunKeepsInv(hash, threads, size, schedule);
    hide Inv, Run, Rest, IdleAfter;
    var n := AloneEnds(hash, threads, size, schedule, s, t);
    RestIsBounded(hash, s, t);
  }
}
