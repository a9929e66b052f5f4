/** No call on a `Map` entry is ever stuck: whatever the others have done so far, a call that runs
  * alone returns after a few steps.
  */
module EntryProgress {
  import opened Options
  import opened EntryRegister

  /** A bound on the steps that a Store still needs alone. */
  function StoreSteps<V(==)>(phases: seq<Phase<V>>, pc: Pc<V>): nat
    requires |phases| > 0 && (Held(pc).Some? ==> Held(pc).value < |phases|)
  {
    var cur := |phases| - 1;
    var nil_ := !phases[cur].boxed;
    match pc
    case Here(site) =>
      if site.StoreGatedNil? then if nil_ then 1 else 3
      else if site.StoreGated? then 2
      else if site.StoreSlow? then 3 else 5
    case With(site, k) =>
      if site.StoreFast? then if phases[k].word.Live? then 2 else 4
      else if k == cur then 1 else 3
    case Seen(_, k, w) => if phases[k].word == Live(w) then 1 else 5
    case _ => 0
  }

  function RemoveSteps<V(==)>(phases: seq<Phase<V>>, pc: Pc<V>): nat
    requires |phases| > 0 && (Held(pc).Some? ==> Held(pc).value < |phases|)
  {
    match pc
    case Here(_) => 4
    case With(_, _) => 3
    case Seen(_, k, w) => if phases[k].word == Live(w) then 2 else 5
    case Past(_, _, _) => 1
    case Done(_) => 0
  }

  function SwapSteps<V(==)>(phases: seq<Phase<V>>, pc: Pc<V>): nat
    requires |phases| > 0 && (Held(pc).Some? ==> Held(pc).value < |phases|)
  {
    match pc
    case Here(site) => if site.CasFast? then 5 else 3
    case With(site, _) => if site.CasFast? then 4 else 2
    case Seen(_, k, w) => if phases[k].word == Live(w) then 1 else 4
    case _ => 0
  }

  function LoadOrStoreSteps<V(==)>(phases: seq<Phase<V>>, pc: Pc<V>): nat
    requires |phases| > 0 && (Held(pc).Some? ==> Held(pc).value < |phases|)
  {
    var cur := |phases| - 1;
    var nil_ := !phases[cur].boxed;
    match pc
    case Here(site) =>
      if site.LosFast? then 10
      else if site.LosDeferred? then 8
      else if site.LosSlow? then 6
      else if site.LosCurrent? then 4
      else if nil_ then 2 else 5
    case With(site, k) =>
      if site.LosFast? then 9
      else if site.LosDeferred? then 7
      else if site.LosSlow? then 5
      else if site.LosCurrent? then if k == cur then 3 else 6
      else if k == cur then 2 else 5
    case Past(_, _, _) => 1
    case _ => 0
  }

  function StepsLeft<V(==)>(phases: seq<Phase<V>>, op: Op<V>, pc: Pc<V>): (n: nat)
    requires |phases| > 0 && (Held(pc).Some? ==> Held(pc).value < |phases|)
    ensures n <= 10
  {
    if pc.Done? then 0 else
    match op
    case Load => if pc.Here? then 2 else 1
    case Store(_) => StoreSteps(phases, pc)
    case Delete => RemoveSteps(phases, pc)
    case LoadOrStore(_) => LoadOrStoreSteps(phases, pc)
    case CompareAndDelete(_) => RemoveSteps(phases, pc)
    case CompareAndSwap(_, _) => SwapSteps(phases, pc)
  }

  /** After its own step thread t can go on or return, and is nearer to its return. */
  predicate Nearer<V(==)>(eq: (V, V) -> bool, s: State<V>, t: nat)
    requires Enabled(s, Advance(t))
  {
    var s' := Step(eq, s, Advance(t));
    && t in s'.threads && s'.threads[t].op == s.threads[t].op && |s'.phases| > 0
    && (Held(s'.threads[t].pc).Some? ==> Held(s'.threads[t].pc).value < |s'.phases|)
    && (s'.threads[t].pc.Done? || Placed(s'.phases, s'.threads[t].op, s'.threads[t].pc))
    && StepsLeft(s'.phases, s'.threads[t].op, s'.threads[t].pc) < StepsLeft(s.phases, s.threads[t].op, s.threads[t].pc)
  }

  lemma LoadNears<V>(eq: (V, V) -> bool, s: State<V>, t: nat)
    requires Enabled(s, Advance(t)) && s.threads[t].op.Load?
    ensures Nearer(eq, s, t)
  {
  }

  lemma StoreNears<V>(eq: (V, V) -> bool, s: State<V>, t: nat)
    requires Enabled(s, Advance(t)) && s.threads[t].op.Store?
    ensures Nearer(eq, s, t)
  {
  }

  lemma DeleteNears<V>(eq: (V, V) -> bool, s: State<V>, t: nat)
    requires Enabled(s, Advance(t)) && s.threads[t].op.Delete?
    ensures Nearer(eq, s, t)
  {
  }

  lemma LoadOrStoreNears<V>(eq: (V, V) -> bool, s: State<V>, t: nat)
    requires Enabled(s, Advance(t)) && s.threads[t].op.LoadOrStore?
    ensures Nearer(eq, s, t)
  {
  }

  lemma CompareAndDeleteNears<V>(eq: (V, V) -> bool, s: State<V>, t: nat)
    requires Enabled(s, Advance(t)) && s.threads[t].op.CompareAndDelete?
    ensures Nearer(eq, s, t)
  {
  }

  lemma CompareAndSwapNears<V>(eq: (V, V) -> bool, s: State<V>, t: nat)
    requires Enabled(s, Advance(t)) && s.threads[t].op.CompareAndSwap?
    ensures Nearer(eq, s, t)
  {
  }

  /** A step of the call itself brings it nearer to its return. */
  lemma StepNears<V>(eq: (V, V) -> bool, s: State<V>, t: nat)
    requires Enabled(s, Advance(t))
    ensures Nearer(eq, s, t)
  {
    hide Nearer;
    match s.threads[t].op
    case Load => LoadNears(eq, s, t);
    case Store(_) => StoreNears(eq, s, t);
    case Delete => DeleteNears(eq, s, t);
    case LoadOrStore(_) => LoadOrStoreNears(eq, s, t);
    case CompareAndDelete(_) => CompareAndDeleteNears(eq, s, t);
    case CompareAndSwap(_, _) => CompareAndSwapNears(eq, s, t);
  }

  /** n steps of thread t alone. */
  function Alone<V(==)>(t: nat, n: nat): seq<Choice<V>> {
    seq(n, _ => Advance(t))
  }

  /** A bound on the steps that thread t still needs alone. */
  function Remaining<V(==)>(s: State<V>, t: nat): nat
    requires Enabled(s, Advance(t))
  {
    StepsLeft(s.phases, s.threads[t].op, s.threads[t].pc)
  }

  ghost predicate AnsweredAfter<V>(eq: (V, V) -> bool, init: Option<V>, schedule: seq<Choice<V>>, t: nat, n: nat) {
    var r := Run(eq, init, schedule + Alone(t, n));
    r.Some? && t in r.value.threads && r.value.threads[t].pc.Done?
  }

  lemma {:induction false} AloneReturns<V>(eq: (V, V) -> bool, init: Option<V>, schedule: seq<Choice<V>>, t: nat)
      returns (n: nat)
    requires Run(eq, init, schedule).Some? && Enabled(Run(eq, init, schedule).value, Advance(t))
    ensures 0 < n <= Remaining(Run(eq, init, schedule).value, t) && AnsweredAfter(eq, init, schedule, t, n)
    decreases Remaining(Run(eq, init, schedule).value, t)
  {
    var s := Run(eq, init, schedule).value;
    StepNears(eq, s, t);
    hide Step, StepsLeft;
    var next := schedule + [Advance(t)];
    assert next[..|schedule|] == schedule;
    var s' := Step(eq, s, Advance(t));
    if s'.threads[t].pc.Done? {
      n := 1;
      assert schedule + Alone(t, 1) == next;
    } else {
      var m := AloneReturns(eq, init, next, t);
      n := m + 1;
      assert schedule + Alone(t, n) == next + Alone(t, m);
    }
  }

  /** From every state of every run, a call that is let run alone has its answer after at most ten steps. */
  lemma NobodyIsStuck<V>(eq: (V, V) -> bool, init: Option<V>, schedule: seq<Choice<V>>, t: nat)
    requires Run(eq, init, schedule).Some?
    requires var s := Run(eq, init, schedule).value; t in s.threads && !s.threads[t].pc.Done?
    ensures exists n :: 0 < n <= 10 && AnsweredAfter(eq, init, schedule, t, n)
  {
    var s := Run(eq, init, schedule).value;
    RunKeepsInv(eq, init, schedule);
    assert ThreadOk(eq, s, s.threads[t]);
    assert Enabled(s, Advance(t));
    hide Run, Step, Inv, StepsLeft;
    var n := AloneReturns(eq, init, schedule, t);
    assert AnsweredAfter(eq, init, schedule, t, n);
  }
}
