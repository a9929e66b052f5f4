/** Linearizability of the operations that meet on one entry of `Map`.
  *
  * An entry holds an atomic pointer to a value box, and a box holds an atomic data word. Threads
  * race on both: plain stores swap the data word in place or replace the whole box, removers
  * claim the box by writing the dead marker and unlink it afterwards. Every pointer load, data
  * load and CAS below is one step; any thread may take the next one.
  *
  * The history of the pointer is a sequence of phases, one per box (or stretch of nil) that it
  * ever held. A thread may still work on the box of a phase that is over; what it does there
  * takes effect just before the pointer moved on. So the linear order is lexicographic: phase
  * first, then the order in which the operations met the data word of that phase.
  */
module EntryRegister {
  import opened Options

  // ---------------------------------------------------------------- the sequential register

  datatype Op<V> =
    | Load
    | Store(v: V)
    | Delete
    | LoadOrStore(v: V)
    | CompareAndDelete(old_: V)
    | CompareAndSwap(old_: V, new_: V)

  datatype Res<V> =
    | Got(found: Option<V>)      // Load, Delete: the value met, or absent
    | Ack                        // Store
    | Loaded(v: V)               // LoadOrStore, loaded == true
    | Kept(stored: Option<V>)    // LoadOrStore, loaded == false, and the value handed back
    | Did(ok: bool)              // CompareAndDelete, CompareAndSwap

  /** What a register that may be absent does: its next content and its answer. */
  function Apply<V>(eq: (V, V) -> bool, st: Option<V>, op: Op<V>): (Option<V>, Res<V>) {
    match op
    case Load => (st, Got(st))
    case Store(v) => (Some(v), Ack)
    case Delete => (None, Got(st))
    case LoadOrStore(v) => if st.Some? then (st, Loaded(st.value)) else (Some(v), Kept(Some(v)))
    case CompareAndDelete(o) => if st.Some? && eq(st.value, o) then (None, Did(true)) else (st, Did(false))
    case CompareAndSwap(o, n) => if st.Some? && eq(st.value, o) then (Some(n), Did(true)) else (st, Did(false))
  }

  /** `inv` is the time of the call and identifies it; `at` is the moment it takes effect. */
  datatype Event<V> = Event(inv: nat, op: Op<V>, res: Res<V>, at: nat)

  function Final<V>(eq: (V, V) -> bool, st: Option<V>, log: seq<Event<V>>): Option<V> {
    if log == [] then st else Apply(eq, Final(eq, st, log[..|log| - 1]), log[|log| - 1].op).0
  }

  predicate Legal<V(==)>(eq: (V, V) -> bool, st: Option<V>, log: seq<Event<V>>) {
    log == [] ||
    var front := log[..|log| - 1];
    && Legal(eq, st, front)
    && log[|log| - 1].res == Apply(eq, Final(eq, st, front), log[|log| - 1].op).1
  }

  // ---------------------------------------------------------------- the entry and its threads

  datatype Word<V> = Dead | Live(v: V)

  /** A stretch of time over which the entry's pointer kept one value: a box, or nil. */
  datatype Phase<V> = Phase(boxed: bool, word: Word<V>, since: nat, log: seq<Event<V>>)

  /** Program points at which a call touches the entry, named after the code they stand in. */
  datatype Site =
    | LoadEntry
    | StoreFast | StoreSlow | StoreGated | StoreGatedNil
    | DeleteClaim | DeleteUnlink
    | LosFast | LosDeferred | LosSlow | LosCurrent | LosNil | LosReplace | LosReread
    | CadClaim | CadUnlink
    | CasFast | CasReplace

  /** Where a call stands before its next shared access. */
  datatype Pc<V> =
    | Here(site: Site)                          // holds no box: about to touch the pointer
    | With(site: Site, k: nat)                  // holds the box of phase k: about to read it or CAS the pointer
    | Seen(site: Site, k: nat, seen: V)         // read `seen` from that box: about to CAS its data word
    | Past(site: Site, k: nat, effect: Res<V>)  // has taken effect on phase k, has not returned
    | Done(res: Res<V>)

  datatype Thread<V> = Thread(op: Op<V>, inv: nat, pc: Pc<V>)

  datatype Completed<V> = Completed(inv: nat, op: Op<V>, res: Res<V>, resp: nat)

  /** `place` is ghost bookkeeping: the phase and log position of each call that took effect. */
  datatype State<V> = State(
    phases: seq<Phase<V>>,
    place: map<nat, (nat, nat)>,
    threads: map<nat, Thread<V>>,
    done: seq<Completed<V>>,
    now: nat)

  function Abs<V>(w: Word<V>): Option<V> {
    match w case Dead => None case Live(v) => Some(v)
  }

  function ToWord<V>(st: Option<V>): Word<V> {
    match st case None => Dead case Some(v) => Live(v)
  }

  /** The effect of one atomic step on the entry. */
  datatype Action<V> =
    | Goto(pc: Pc<V>)                           // a load that decides nothing, or a CAS that lost
    | Take(k: nat, w: Word<V>, res: Res<V>, pc: Pc<V>)  // a load or CAS of phase k's data word, now w, decides the call
    | Install(res: Res<V>, v: V, pc: Pc<V>)     // pointer CAS to a fresh box holding v
    | Unlink(pc: Pc<V>)                         // pointer CAS to nil

  function Start<V>(op: Op<V>, viaCloner: bool): Pc<V> {
    match op
    case Load => Here(LoadEntry)
    case Store(_) => if viaCloner then Here(StoreSlow) else Here(StoreFast)
    case Delete => Here(DeleteClaim)
    case LoadOrStore(_) => Here(LosFast)
    case CompareAndDelete(_) => Here(CadClaim)
    case CompareAndSwap(_, _) => Here(CasFast)
  }

  /** The points a call of this operation can stand at. */
  predicate ForOp<V>(op: Op<V>, pc: Pc<V>) {
    || pc.Done?
    || (match op
        case Load => (pc.Here? || pc.With?) && pc.site.LoadEntry?
        case Store(_) =>
          || (pc.Here? && (pc.site.StoreFast? || pc.site.StoreSlow? || pc.site.StoreGated? || pc.site.StoreGatedNil?))
          || (pc.With? && (pc.site.StoreFast? || pc.site.StoreSlow? || pc.site.StoreGated?))
          || (pc.Seen? && pc.site.StoreFast?)
        case Delete =>
          || (!pc.Past? && pc.site.DeleteClaim?)
          || (pc.Past? && pc.site.DeleteUnlink?)
        case LoadOrStore(_) =>
          || (pc.Here? && (pc.site.LosFast? || pc.site.LosDeferred? || pc.site.LosSlow?
                          || pc.site.LosCurrent? || pc.site.LosNil?))
          || (pc.With? && (pc.site.LosFast? || pc.site.LosDeferred? || pc.site.LosSlow?
                          || pc.site.LosCurrent? || pc.site.LosReplace?))
          || (pc.Past? && pc.site.LosReread?)
        case CompareAndDelete(_) =>
          || (!pc.Past? && pc.site.CadClaim?)
          || (pc.Past? && pc.site.CadUnlink?)
        case CompareAndSwap(_, _) =>
          || ((pc.Here? || pc.With?) && pc.site.CasFast?)
          || (!pc.Past? && pc.site.CasReplace?))
  }

  /** The phase whose box the call holds a pointer to, if it holds one. */
  function Held<V>(pc: Pc<V>): Option<nat> {
    if pc.Here? || pc.Done? then None else Some(pc.k)
  }

  /** Where a call acts on having seen the dead marker in its box, the marker is there. */
  predicate SawDead<V>(phases: seq<Phase<V>>, pc: Pc<V>) {
    (pc.With? && pc.site.LosReplace?) || (pc.Past? && !pc.site.LosReread?) ==>
      pc.k < |phases| && phases[pc.k].word == Dead
  }

  /** The word a conditional operation is about to CAS is one that compared equal, and the box a
    * LoadOrStore reads again is one it published. */
  ghost predicate Remembers<V>(eq: (V, V) -> bool, op: Op<V>, pc: Pc<V>) {
    && (pc.Seen? && op.CompareAndDelete? ==> eq(pc.seen, op.old_))
    && (pc.Seen? && op.CompareAndSwap? ==> eq(pc.seen, op.old_))
    && (pc.Past? && op.LoadOrStore? ==> pc.effect == Kept(Some(op.v)))
  }

  /** The register's answer to a call that has taken effect, as recorded in the linear order.
    * It differs from what the call hands back only where a LoadOrStore that published its own
    * box reads that box again before it returns. */
  function Effect<V>(op: Op<V>, pc: Pc<V>): Option<Res<V>> {
    if pc.Past? then Some(pc.effect) else if pc.Done? then Some(Promised(op, pc.res)) else None
  }

  function Promised<V>(op: Op<V>, res: Res<V>): Res<V> {
    if op.LoadOrStore? && res.Kept? then Kept(Some(op.v)) else res
  }

  /** What a call at `pc` may assume: it belongs to the operation and its box existed. */
  predicate Placed<V>(phases: seq<Phase<V>>, op: Op<V>, pc: Pc<V>) {
    && |phases| > 0 && ForOp(op, pc) && !pc.Done?
    && (Held(pc).Some? ==> Held(pc).value < |phases|)
  }

  /** A load of phase k's data word, or of a nil pointer, gives the call its answer. */
  function Reads<V>(phases: seq<Phase<V>>, k: nat, res: Res<V>): Action<V>
    requires k < |phases|
  {
    Take(k, phases[k].word, res, Done(res))
  }

  /** map.go `Load`: load the pointer, then the data word. */
  function LoadStep<V(==)>(eq: (V, V) -> bool, phases: seq<Phase<V>>, op: Op<V>, pc: Pc<V>): Action<V>
    requires op.Load? && Placed(phases, op, pc)
  {
    var cur := |phases| - 1;
    var nil_ := !phases[cur].boxed;
    match pc
    case Here(_) => if nil_ then Reads(phases, cur, Got(None)) else Goto(With(LoadEntry, cur))
    case With(_, k) => Reads(phases, k, Got(Abs(phases[k].word)))
  }

  /** `Store`: swap the data word in place, else replace the box, else go through the gate. */
  function StoreStep<V(==)>(eq: (V, V) -> bool, phases: seq<Phase<V>>, op: Op<V>, pc: Pc<V>): Action<V>
    requires op.Store? && Placed(phases, op, pc)
  {
    var cur := |phases| - 1;
    var nil_ := !phases[cur].boxed;
    match pc
    case Here(site) => (match site
      case StoreFast => if nil_ then Goto(Here(StoreSlow)) else Goto(With(StoreFast, cur))
      case StoreSlow => if nil_ then Goto(Here(StoreGated)) else Goto(With(StoreSlow, cur))
      case StoreGated => if nil_ then Goto(Here(StoreGatedNil)) else Goto(With(StoreGated, cur))
      case StoreGatedNil => if nil_ then Install(Ack, op.v, Done(Ack)) else Goto(Here(StoreGated)))
    case With(site, k) =>
      if site.StoreFast? then
        match phases[k].word
        case Dead => Goto(Here(StoreSlow))
        case Live(w) => Goto(Seen(StoreFast, k, w))
      else if k == cur then Install(Ack, op.v, Done(Ack))
      else Goto(Here(StoreGated))
    case Seen(_, k, w) =>
      if phases[k].word == Live(w) then Take(k, Live(op.v), Ack, Done(Ack)) else Goto(With(StoreFast, k))
  }

  /** `delete`: claim the box, then unlink it. */
  function DeleteStep<V(==)>(eq: (V, V) -> bool, phases: seq<Phase<V>>, op: Op<V>, pc: Pc<V>): Action<V>
    requires op.Delete? && Placed(phases, op, pc)
  {
    var cur := |phases| - 1;
    var nil_ := !phases[cur].boxed;
    match pc
    case Here(_) => if nil_ then Reads(phases, cur, Got(None)) else Goto(With(DeleteClaim, cur))
    case With(_, k) => (match phases[k].word
      case Dead => Reads(phases, k, Got(None))
      case Live(w) => Goto(Seen(DeleteClaim, k, w)))
    case Seen(_, k, w) =>
      if phases[k].word == Live(w) then Take(k, Dead, Got(Some(w)), Past(DeleteUnlink, k, Got(Some(w))))
      else Goto(With(DeleteClaim, k))
    case Past(_, k, res) => if k == cur then Unlink(Done(res)) else Goto(Done(res))
  }

  /** `LoadOrStore`: two unlocked attempts to load, then load or replace inside the gate. */
  function LoadOrStoreStep<V(==)>(eq: (V, V) -> bool, phases: seq<Phase<V>>, op: Op<V>, pc: Pc<V>): Action<V>
    requires op.LoadOrStore? && Placed(phases, op, pc)
  {
    var cur := |phases| - 1;
    var nil_ := !phases[cur].boxed;
    match pc
    case Here(site) => (match site
      case LosFast => if nil_ then Goto(Here(LosDeferred)) else Goto(With(LosFast, cur))
      case LosDeferred => if nil_ then Goto(Here(LosSlow)) else Goto(With(LosDeferred, cur))
      case LosSlow => if nil_ then Goto(Here(LosCurrent)) else Goto(With(LosSlow, cur))
      case LosCurrent => if nil_ then Goto(Here(LosNil)) else Goto(With(LosCurrent, cur))
      case LosNil =>
        if nil_ then Install(Kept(Some(op.v)), op.v, Past(LosReread, cur + 1, Kept(Some(op.v))))
        else Goto(Here(LosCurrent)))
    case With(site, k) =>
      if site.LosReplace? then
        if k == cur then Install(Kept(Some(op.v)), op.v, Past(LosReread, cur + 1, Kept(Some(op.v))))
        else Goto(Here(LosCurrent))
      else (match phases[k].word
        case Live(w) => Reads(phases, k, Loaded(w))
        case Dead =>
          match site
          case LosFast => Goto(Here(LosDeferred))
          case LosDeferred => Goto(Here(LosSlow))
          case LosSlow => Goto(Here(LosCurrent))
          case LosCurrent => Goto(With(LosReplace, k)))
    case Past(_, k, _) => Goto(Done(Kept(Abs(phases[k].word))))
  }

  /** `compareAndDelete`: claim the box at exactly the word that was compared. */
  function CompareAndDeleteStep<V(==)>(eq: (V, V) -> bool, phases: seq<Phase<V>>, op: Op<V>, pc: Pc<V>): Action<V>
    requires op.CompareAndDelete? && Placed(phases, op, pc)
  {
    var cur := |phases| - 1;
    var nil_ := !phases[cur].boxed;
    match pc
    case Here(_) => if nil_ then Reads(phases, cur, Did(false)) else Goto(With(CadClaim, cur))
    case With(_, k) => (match phases[k].word
      case Dead => Reads(phases, k, Did(false))
      case Live(w) => if eq(w, op.old_) then Goto(Seen(CadClaim, k, w)) else Reads(phases, k, Did(false)))
    case Seen(_, k, w) =>
      if phases[k].word == Live(w) then Take(k, Dead, Did(true), Past(CadUnlink, k, Did(true)))
      else Goto(Here(CadClaim))
    case Past(_, k, res) => if k == cur then Unlink(Done(res)) else Goto(Done(res))
  }

  /** `CompareAndSwap` within one type: an unlocked test, then replace exactly the word compared. */
  function CompareAndSwapStep<V(==)>(eq: (V, V) -> bool, phases: seq<Phase<V>>, op: Op<V>, pc: Pc<V>): Action<V>
    requires op.CompareAndSwap? && Placed(phases, op, pc)
  {
    var cur := |phases| - 1;
    var nil_ := !phases[cur].boxed;
    match pc
    case Here(site) => if nil_ then Reads(phases, cur, Did(false)) else Goto(With(site, cur))
    case With(site, k) => (match phases[k].word
      case Dead => Reads(phases, k, Did(false))
      case Live(w) =>
        if !eq(w, op.old_) then Reads(phases, k, Did(false))
        else if site.CasFast? then Goto(Here(CasReplace))
        else Goto(Seen(CasReplace, k, w)))
    case Seen(_, k, w) =>
      if phases[k].word == Live(w) then Take(k, Live(op.new_), Did(true), Done(Did(true))) else Goto(Here(CasReplace))
  }

  /** The step a call takes when the entry is as in `phases`, whose last phase is current. */
  function Act<V(==)>(eq: (V, V) -> bool, phases: seq<Phase<V>>, op: Op<V>, pc: Pc<V>): Action<V>
    requires Placed(phases, op, pc)
  {
    match op
    case Load => LoadStep(eq, phases, op, pc)
    case Store(_) => StoreStep(eq, phases, op, pc)
    case Delete => DeleteStep(eq, phases, op, pc)
    case LoadOrStore(_) => LoadOrStoreStep(eq, phases, op, pc)
    case CompareAndDelete(_) => CompareAndDeleteStep(eq, phases, op, pc)
    case CompareAndSwap(_, _) => CompareAndSwapStep(eq, phases, op, pc)
  }

  /** When a call takes effect on phase k: now, or just before the pointer left that phase. */
  function Moment<V>(s: State<V>, k: nat): nat
    requires k < |s.phases|
  {
    if k + 1 < |s.phases| then s.phases[k + 1].since else s.now
  }

  function Perform<V(==)>(eq: (V, V) -> bool, s: State<V>, tid: nat, a: Action<V>): State<V>
    requires tid in s.threads && |s.phases| > 0
    requires a.Take? ==> a.k < |s.phases|
  {
    var th := s.threads[tid];
    var s1 := s.(threads := s.threads[tid := th.(pc := a.pc)], now := s.now + 1);
    match a
    case Goto(_) => s1
    case Take(k, w, res, _) =>
      var p := s.phases[k];
      var e := Event(th.inv, th.op, res, Moment(s, k));
      s1.(phases := s.phases[k := p.(word := w, log := p.log + [e])],
          place := s.place[th.inv := (k, |p.log|)])
    case Install(res, v, _) =>
      var e := Event(th.inv, th.op, res, s.now);
      s1.(phases := s.phases + [Phase(true, Live(v), s.now, [e])],
          place := s.place[th.inv := (|s.phases|, 0)])
    case Unlink(_) =>
      s1.(phases := s.phases + [Phase(false, Dead, s.now, [])])
  }

  /** One step of the system: a new call, a step of a running call, or a return. */
  datatype Choice<V> = Invoke(tid: nat, op: Op<V>, viaCloner: bool) | Advance(tid: nat) | Return(tid: nat)

  predicate Enabled<V>(s: State<V>, c: Choice<V>) {
    match c
    case Invoke(tid, _, _) => tid !in s.threads
    case Advance(tid) =>
      tid in s.threads && Placed(s.phases, s.threads[tid].op, s.threads[tid].pc)
    case Return(tid) => tid in s.threads && s.threads[tid].pc.Done?
  }

  function Step<V(==)>(eq: (V, V) -> bool, s: State<V>, c: Choice<V>): State<V>
    requires Enabled(s, c)
  {
    match c
    case Invoke(tid, op, viaCloner) =>
      s.(threads := s.threads[tid := Thread(op, s.now, Start(op, viaCloner))], now := s.now + 1)
    case Advance(tid) =>
      var th := s.threads[tid];
      var a := Act(eq, s.phases, th.op, th.pc);
      Perform(eq, s, tid, a)
    case Return(tid) =>
      var th := s.threads[tid];
      s.(threads := s.threads - {tid},
         done := s.done + [Completed(th.inv, th.op, th.pc.res, s.now)],
         now := s.now + 1)
  }

  function Init<V>(init: Option<V>): State<V> {
    State([Phase(init.Some?, ToWord(init), 0, [])], map[], map[], [], 0)
  }

  /** The state after a schedule, if every choice in it could be made. */
  function Run<V(==)>(eq: (V, V) -> bool, init: Option<V>, schedule: seq<Choice<V>>): Option<State<V>> {
    if schedule == [] then Some(Init(init)) else
    var before := Run(eq, init, schedule[..|schedule| - 1]);
    var c := schedule[|schedule| - 1];
    if before.Some? && Enabled(before.value, c) then Some(Step(eq, before.value, c)) else None
  }

  // ---------------------------------------------------------------- what linearizable means

  /** `order` explains the calls that returned: it is a legal run of the register, no call is in
    * it twice, every returned call is in it with the answer it gave and at a moment between its
    * call and its return, and everything else in it is a call still running. */
  ghost predicate LinearizedBy<V>(eq: (V, V) -> bool, init: Option<V>, s: State<V>, order: seq<Event<V>>) {
    && Legal(eq, init, order) && Ordered(s, order)
    && (forall c :: 0 <= c < |s.done| ==> Answers(order, s.done[c], s.done[c].res))
  }

  /** Some order explains the run of this schedule, if it is one. */
  ghost predicate RunIsLinearizable<V(!new)>(eq: (V, V) -> bool, init: Option<V>, schedule: seq<Choice<V>>) {
    Run(eq, init, schedule).Some? ==> exists order :: LinearizedBy(eq, init, Run(eq, init, schedule).value, order)
  }

  /** The same as LinearizedBy, but for what a call hands back only its effect counts: the answer the register
    * promised it. */
  ghost predicate EffectsBy<V>(eq: (V, V) -> bool, init: Option<V>, s: State<V>, order: seq<Event<V>>) {
    && Legal(eq, init, order) && Ordered(s, order)
    && (forall c :: 0 <= c < |s.done| ==> Answers(order, s.done[c], Promised(s.done[c].op, s.done[c].res)))
  }

  /** The order is by moment, no call is in it twice, and every event is some call's, returned or
    * still running, at a moment since that call was made. */
  ghost predicate Ordered<V>(s: State<V>, order: seq<Event<V>>) {
    && (forall i, j :: 0 <= i < j < |order| ==> order[i].at <= order[j].at && order[i].inv != order[j].inv)
    && (forall i :: 0 <= i < |order| ==> Invoked(s, order[i]) && order[i].inv <= order[i].at <= s.now)
  }

  ghost predicate Answers<V>(order: seq<Event<V>>, c: Completed<V>, res: Res<V>) {
    exists i :: 0 <= i < |order| && Explains(order[i], c) && order[i].res == res
  }

  ghost predicate Explains<V>(e: Event<V>, c: Completed<V>) {
    e.inv == c.inv && e.op == c.op && c.inv <= e.at <= c.resp
  }

  ghost predicate Invoked<V>(s: State<V>, e: Event<V>) {
    || (exists c :: 0 <= c < |s.done| && s.done[c].inv == e.inv && s.done[c].op == e.op)
    || (exists tid :: tid in s.threads && s.threads[tid].inv == e.inv && s.threads[tid].op == e.op)
  }

  /** A LoadOrStore that stored handed back the value it stored. */
  predicate KeepsItsValue<V(==)>(c: Completed<V>) {
    c.op.LoadOrStore? && c.res.Kept? ==> c.res.stored == Some(c.op.v)
  }

  // ---------------------------------------------------------------- register lemmas

  lemma {:induction false} FinalConcat<V>(eq: (V, V) -> bool, st: Option<V>, a: seq<Event<V>>, b: seq<Event<V>>)
    ensures Final(eq, st, a + b) == Final(eq, Final(eq, st, a), b)
    ensures Legal(eq, st, a) && Legal(eq, Final(eq, st, a), b) ==> Legal(eq, st, a + b)
  {
    if b == [] {
      assert a + b == a;
    } else {
      var front := b[..|b| - 1];
      FinalConcat(eq, st, a, front);
      assert (a + b)[..|a + b| - 1] == a + front;
    }
  }

  /** A log that opens with a Store ends the same whatever it started from. */
  lemma {:induction false} StoreForgets<V>(eq: (V, V) -> bool, st: Option<V>, st': Option<V>, log: seq<Event<V>>)
    requires |log| > 0 && log[0].op.Store?
    ensures Final(eq, st, log) == Final(eq, st', log)
    ensures Legal(eq, st, log) <==> Legal(eq, st', log)
  {
    if |log| > 1 {
      StoreForgets(eq, st, st', log[..|log| - 1]);
    } else {
      assert log[..0] == [];
    }
  }

  lemma {:induction false} LegalAt<V>(eq: (V, V) -> bool, st: Option<V>, log: seq<Event<V>>, i: nat)
    requires Legal(eq, st, log) && i < |log|
    ensures log[i].res == Apply(eq, Final(eq, st, log[..i]), log[i].op).1
  {
    if i < |log| - 1 {
      LegalAt(eq, st, log[..|log| - 1], i);
      assert log[..|log| - 1][..i] == log[..i];
    }
  }

  // ---------------------------------------------------------------- the invariant

  /** What the register held when phase k began. */
  function Opening<V>(init: Option<V>, phases: seq<Phase<V>>, k: nat): Option<V>
    requires k < |phases|
  {
    if k == 0 then init else Abs(phases[k - 1].word)
  }

  /** The log of phase k is a legal run from its opening to its data word, and if the phase
    * before can still change then the log does not depend on how it ended. */
  ghost predicate PhaseOk<V>(eq: (V, V) -> bool, init: Option<V>, phases: seq<Phase<V>>, k: nat)
    requires k < |phases|
  {
    var p := phases[k];
    && (!p.boxed ==> p.word == Dead)
    && Legal(eq, Opening(init, phases, k), p.log)
    && Final(eq, Opening(init, phases, k), p.log) == Abs(p.word)
    && (k > 0 ==> phases[k - 1].word == Dead || (|p.log| > 0 && p.log[0].op.Store?))
  }

  ghost predicate TimesOk<V>(s: State<V>) {
    && (forall j, k :: 0 <= j < k < |s.phases| ==> s.phases[j].since <= s.phases[k].since)
    && (forall k :: 0 <= k < |s.phases| ==> s.phases[k].since <= s.now)
    && (forall k, i :: 0 <= k < |s.phases| && 0 <= i < |s.phases[k].log| ==>
          var e := s.phases[k].log[i];
          e.inv <= e.at && s.phases[k].since <= e.at <= Moment(s, k))
    && (forall k, i, j :: 0 <= k < |s.phases| && 0 <= i < j < |s.phases[k].log| ==>
          s.phases[k].log[i].at <= s.phases[k].log[j].at)
  }

  ghost predicate At<V>(s: State<V>, k: nat, i: nat) {
    k < |s.phases| && i < |s.phases[k].log|
  }

  ghost predicate PlacesOk<V>(s: State<V>) {
    && (forall id :: id in s.place ==>
          id < s.now && At(s, s.place[id].0, s.place[id].1) && s.phases[s.place[id].0].log[s.place[id].1].inv == id)
    && (forall k, i :: 0 <= k < |s.phases| && 0 <= i < |s.phases[k].log| ==>
          var e := s.phases[k].log[i];
          e.inv in s.place && s.place[e.inv] == (k, i) && Invoked(s, e))
  }

  /** The event recorded for the call made at time `id`. */
  function Recorded<V>(s: State<V>, id: nat): Event<V>
    requires id in s.place && At(s, s.place[id].0, s.place[id].1)
  {
    s.phases[s.place[id].0].log[s.place[id].1]
  }

  /** What a running call may rely on: its box is as it saw it, and was current after it began. */
  ghost predicate Standing<V>(eq: (V, V) -> bool, s: State<V>, th: Thread<V>) {
    && ForOp(th.op, th.pc) && th.inv < s.now
    && (Held(th.pc).Some? ==> Held(th.pc).value < |s.phases| && th.inv <= Moment(s, Held(th.pc).value))
    && SawDead(s.phases, th.pc) && Remembers(eq, th.op, th.pc)
  }

  ghost predicate ThreadOk<V>(eq: (V, V) -> bool, s: State<V>, th: Thread<V>) {
    && Standing(eq, s, th)
    && (match Effect(th.op, th.pc)
        case None => th.inv !in s.place
        case Some(res) =>
          && th.inv in s.place && At(s, s.place[th.inv].0, s.place[th.inv].1)
          && (th.pc.Past? ==> s.place[th.inv].0 == th.pc.k)
          && Recorded(s, th.inv).op == th.op && Recorded(s, th.inv).res == res && Recorded(s, th.inv).at <= s.now)
  }

  ghost predicate ReturnedOk<V>(s: State<V>, c: Completed<V>) {
    && c.inv in s.place && At(s, s.place[c.inv].0, s.place[c.inv].1)
    && Explains(Recorded(s, c.inv), c)
    && Recorded(s, c.inv).res == Promised(c.op, c.res)
  }

  ghost predicate Inv<V>(eq: (V, V) -> bool, init: Option<V>, s: State<V>) {
    && |s.phases| > 0
    && PhasesOk(eq, init, s.phases)
    && TimesOk(s) && PlacesOk(s) && CallsOk(eq, s)
  }

  // ---------------------------------------------------------------- every action keeps it

  /** When a step may have this effect; what the code's own tests establish before it. */
  ghost predicate Allowed<V>(eq: (V, V) -> bool, s: State<V>, th: Thread<V>, a: Action<V>)
    requires |s.phases| > 0
  {
    var cur := |s.phases| - 1;
    && ForOp(th.op, a.pc) && Remembers(eq, th.op, a.pc)
    && (Held(a.pc).Some? ==> Held(a.pc).value <= cur || (a.Install? && Held(a.pc).value == cur + 1))
    && (Held(a.pc).Some? && Held(a.pc).value <= cur ==> th.inv <= Moment(s, Held(a.pc).value))
    && (match a
        case Goto(pc) => Effect(th.op, pc) == Effect(th.op, th.pc) && SawDead(s.phases, pc) && !pc.Past?
        case Take(k, w, res, pc) =>
          && Effect(th.op, th.pc) == None && Effect(th.op, pc) == Some(res)
          && k <= cur && th.inv <= Moment(s, k)
          && w == ToWord(Apply(eq, Abs(s.phases[k].word), th.op).0)
          && (s.phases[k].word == Dead ==> Apply(eq, None, th.op).0 == None)
          && res == Apply(eq, Abs(s.phases[k].word), th.op).1
          && (pc.Past? ==> pc.k == k && Apply(eq, Abs(s.phases[k].word), th.op).0 == None)
        case Install(res, v, pc) =>
          && Effect(th.op, th.pc) == None && Effect(th.op, pc) == Some(res)
          && (pc.Past? ==> pc.site.LosReread? && pc.k == cur + 1)
          && Apply(eq, Abs(s.phases[cur].word), th.op) == (Some(v), res)
          && (th.op.Store? || s.phases[cur].word == Dead)
        case Unlink(pc) =>
          && Effect(th.op, pc) == Effect(th.op, th.pc)
          && pc.Done?
          && s.phases[cur].word == Dead)
  }

  ghost predicate NilIsDead<V>(phases: seq<Phase<V>>) {
    forall k :: 0 <= k < |phases| ==> (!phases[k].boxed ==> phases[k].word == Dead)
  }

  lemma LoadIsAllowed<V>(eq: (V, V) -> bool, s: State<V>, th: Thread<V>)
    requires th.op.Load? && Placed(s.phases, th.op, th.pc) && Standing(eq, s, th) && NilIsDead(s.phases)
    ensures Allowed(eq, s, th, LoadStep(eq, s.phases, th.op, th.pc))
  {
  }

  lemma StoreIsAllowed<V>(eq: (V, V) -> bool, s: State<V>, th: Thread<V>)
    requires th.op.Store? && Placed(s.phases, th.op, th.pc) && Standing(eq, s, th) && NilIsDead(s.phases)
    ensures Allowed(eq, s, th, StoreStep(eq, s.phases, th.op, th.pc))
  {
  }

  lemma DeleteIsAllowed<V>(eq: (V, V) -> bool, s: State<V>, th: Thread<V>)
    requires th.op.Delete? && Placed(s.phases, th.op, th.pc) && Standing(eq, s, th) && NilIsDead(s.phases)
    ensures Allowed(eq, s, th, DeleteStep(eq, s.phases, th.op, th.pc))
  {
  }

  lemma LoadOrStoreIsAllowed<V>(eq: (V, V) -> bool, s: State<V>, th: Thread<V>)
    requires th.op.LoadOrStore? && Placed(s.phases, th.op, th.pc) && Standing(eq, s, th) && NilIsDead(s.phases)
    ensures Allowed(eq, s, th, LoadOrStoreStep(eq, s.phases, th.op, th.pc))
  {
  }

  lemma CompareAndDeleteIsAllowed<V>(eq: (V, V) -> bool, s: State<V>, th: Thread<V>)
    requires th.op.CompareAndDelete? && Placed(s.phases, th.op, th.pc) && Standing(eq, s, th) && NilIsDead(s.phases)
    ensures Allowed(eq, s, th, CompareAndDeleteStep(eq, s.phases, th.op, th.pc))
  {
  }

  lemma CompareAndSwapIsAllowed<V>(eq: (V, V) -> bool, s: State<V>, th: Thread<V>)
    requires th.op.CompareAndSwap? && Placed(s.phases, th.op, th.pc) && Standing(eq, s, th) && NilIsDead(s.phases)
    ensures Allowed(eq, s, th, CompareAndSwapStep(eq, s.phases, th.op, th.pc))
  {
  }

  lemma ActIsAllowed<V>(eq: (V, V) -> bool, s: State<V>, th: Thread<V>)
    requires Placed(s.phases, th.op, th.pc) && Standing(eq, s, th) && NilIsDead(s.phases)
    ensures Allowed(eq, s, th, Act(eq, s.phases, th.op, th.pc))
  {
    match th.op
    case Load => LoadIsAllowed(eq, s, th);
    case Store(_) => StoreIsAllowed(eq, s, th);
    case Delete => DeleteIsAllowed(eq, s, th);
    case LoadOrStore(_) => LoadOrStoreIsAllowed(eq, s, th);
    case CompareAndDelete(_) => CompareAndDeleteIsAllowed(eq, s, th);
    case CompareAndSwap(_, _) => CompareAndSwapIsAllowed(eq, s, th);
  }

  /** What every step leaves alone: the past of every phase, and every place given out. */
  ghost predicate Grows<V>(s: State<V>, s': State<V>) {
    && |s.phases| <= |s'.phases| && s.now <= s'.now
    && (forall k :: 0 <= k < |s.phases| ==>
          && s'.phases[k].since == s.phases[k].since
          && s.phases[k].log <= s'.phases[k].log
          && (s.phases[k].word == Dead ==> s'.phases[k].word == Dead)
          && Moment(s, k) <= Moment(s', k))
    && (forall id :: id in s.place ==> id in s'.place && s'.place[id] == s.place[id])
  }

  lemma ThreadKept<V>(eq: (V, V) -> bool, s: State<V>, s': State<V>, th: Thread<V>)
    requires ThreadOk(eq, s, th) && Grows(s, s')
    requires th.inv in s'.place ==> th.inv in s.place
    ensures ThreadOk(eq, s', th)
  {
  }

  lemma ReturnedKept<V>(s: State<V>, s': State<V>, c: Completed<V>)
    requires ReturnedOk(s, c) && Grows(s, s')
    ensures ReturnedOk(s', c)
  {
  }

  /** Everything in the invariant that speaks of threads and returned calls. */
  ghost predicate CallsOk<V>(eq: (V, V) -> bool, s: State<V>) {
    && (forall t :: t in s.threads ==> ThreadOk(eq, s, s.threads[t]))
    && (forall t, u :: t in s.threads && u in s.threads && t != u ==> s.threads[t].inv != s.threads[u].inv)
    && (forall c :: 0 <= c < |s.done| ==> ReturnedOk(s, s.done[c]))
  }

  /** Only thread tid moved, and the only place given out, if any, went to its call. */
  ghost predicate OnlyMoves<V>(s: State<V>, s': State<V>, tid: nat) {
    && tid in s.threads && s'.threads.Keys == s.threads.Keys && s'.done == s.done
    && (forall t :: t in s.threads && t != tid ==> s'.threads[t] == s.threads[t])
    && s'.threads[tid].inv == s.threads[tid].inv && s'.threads[tid].op == s.threads[tid].op
    && (forall id :: id in s'.place && id !in s.place ==> id == s.threads[tid].inv)
  }

  lemma PerformMoves<V>(eq: (V, V) -> bool, s: State<V>, tid: nat, a: Action<V>)
    requires tid in s.threads && |s.phases| > 0
    requires a.Take? ==> a.k < |s.phases|
    ensures OnlyMoves(s, Perform(eq, s, tid, a), tid)
  {
  }

  lemma CallsKept<V>(eq: (V, V) -> bool, s: State<V>, s': State<V>, tid: nat)
    requires CallsOk(eq, s) && Grows(s, s') && OnlyMoves(s, s', tid)
    requires ThreadOk(eq, s', s'.threads[tid])
    ensures CallsOk(eq, s')
  {
    forall t | t in s'.threads ensures ThreadOk(eq, s', s'.threads[t]) {
      if t != tid { ThreadKept(eq, s, s', s.threads[t]); }
    }
    forall c | 0 <= c < |s'.done| ensures ReturnedOk(s', s'.done[c]) {
      ReturnedKept(s, s', s.done[c]);
    }
  }

  ghost predicate PhasesOk<V>(eq: (V, V) -> bool, init: Option<V>, phases: seq<Phase<V>>) {
    forall k :: 0 <= k < |phases| ==> PhaseOk(eq, init, phases, k)
  }

  /** Taking effect on the word of phase k keeps every phase legal, also when k is over. */
  lemma TakeKeepsPhases<V>(eq: (V, V) -> bool, init: Option<V>, phases: seq<Phase<V>>, k: nat, e: Event<V>)
    requires k < |phases| && PhasesOk(eq, init, phases)
    requires e.res == Apply(eq, Abs(phases[k].word), e.op).1
    requires phases[k].word == Dead ==> Apply(eq, None, e.op).0 == None
    ensures
      var p := phases[k];
      PhasesOk(eq, init, phases[k := p.(word := ToWord(Apply(eq, Abs(p.word), e.op).0), log := p.log + [e])])
  {
    var p := phases[k];
    var p' := p.(word := ToWord(Apply(eq, Abs(p.word), e.op).0), log := p.log + [e]);
    var phases' := phases[k := p'];
    assert p'.log[..|p'.log| - 1] == p.log;
    forall j | 0 <= j < |phases'| ensures PhaseOk(eq, init, phases', j) {
      assert PhaseOk(eq, init, phases, j);
      if j == k {
        assert Opening(init, phases', j) == Opening(init, phases, j);
      } else if j == k + 1 && phases[k].word != Dead {
        StoreForgets(eq, Opening(init, phases, j), Opening(init, phases', j), phases[j].log);
      }
    }
  }

  lemma SingleLegal<V>(eq: (V, V) -> bool, st: Option<V>, e: Event<V>)
    requires e.res == Apply(eq, st, e.op).1
    ensures Legal(eq, st, [e]) && Final(eq, st, [e]) == Apply(eq, st, e.op).0
  {
    assert [e][..0] == [];
  }

  lemma InstallKeepsPhases<V>(eq: (V, V) -> bool, init: Option<V>, phases: seq<Phase<V>>, since: nat, e: Event<V>, v: V)
    requires |phases| > 0 && PhasesOk(eq, init, phases)
    requires Apply(eq, Abs(phases[|phases| - 1].word), e.op) == (Some(v), e.res)
    requires e.op.Store? || phases[|phases| - 1].word == Dead
    ensures PhasesOk(eq, init, phases + [Phase(true, Live(v), since, [e])])
  {
    var phases' := phases + [Phase(true, Live(v), since, [e])];
    SingleLegal(eq, Abs(phases[|phases| - 1].word), e);
    forall j | 0 <= j < |phases'| ensures PhaseOk(eq, init, phases', j) {
      assert j < |phases| ==> PhaseOk(eq, init, phases, j);
    }
  }

  lemma UnlinkKeepsPhases<V>(eq: (V, V) -> bool, init: Option<V>, s: State<V>, tid: nat, a: Action<V>)
    requires a.Unlink? && tid in s.threads && |s.phases| > 0
    requires PhasesOk(eq, init, s.phases) && s.phases[|s.phases| - 1].word == Dead
    ensures PhasesOk(eq, init, Perform(eq, s, tid, a).phases)
  {
    var phases' := Perform(eq, s, tid, a).phases;
    forall j | 0 <= j < |phases'| ensures PhaseOk(eq, init, phases', j) {
      assert j < |s.phases| ==> PhaseOk(eq, init, s.phases, j);
    }
  }

  /** No call is lost: it is still running, or it has returned. */
  ghost predicate KeepsCalls<V>(s: State<V>, s': State<V>) {
    && s.done <= s'.done
    && (forall t :: t in s.threads ==>
          || (t in s'.threads && s'.threads[t].inv == s.threads[t].inv && s'.threads[t].op == s.threads[t].op)
          || (|s'.done| > 0 && var d := s'.done[|s'.done| - 1]; d.inv == s.threads[t].inv && d.op == s.threads[t].op))
  }

  lemma InvokedStays<V>(s: State<V>, s': State<V>, e: Event<V>)
    requires Invoked(s, e) && KeepsCalls(s, s')
    ensures Invoked(s', e)
  {
    if c :| 0 <= c < |s.done| && s.done[c].inv == e.inv && s.done[c].op == e.op {
      assert s'.done[c] == s.done[c];
    }
  }

  // A step that leaves the entry alone.

  ghost predicate Quiet<V>(s: State<V>, s': State<V>) {
    s'.phases == s.phases && s'.place == s.place && s'.now == s.now + 1
  }

  lemma QuietKeeps<V>(s: State<V>, s': State<V>)
    requires Quiet(s, s') && TimesOk(s) && PlacesOk(s) && KeepsCalls(s, s')
    ensures TimesOk(s') && PlacesOk(s') && Grows(s, s')
  {
    assert forall k :: 0 <= k < |s.phases| ==> Moment(s, k) <= Moment(s', k);
    forall k, i | 0 <= k < |s.phases| && 0 <= i < |s.phases[k].log| ensures Invoked(s', s.phases[k].log[i]) {
      InvokedStays(s, s', s.phases[k].log[i]);
    }
  }

  // A step that adds an event to the log of phase k.

  ghost predicate Logs<V>(s: State<V>, s': State<V>, k: nat, w: Word<V>, e: Event<V>) {
    && k < |s.phases|
    && s'.phases == s.phases[k := s.phases[k].(word := w, log := s.phases[k].log + [e])]
    && s'.now == s.now + 1 && s'.place == s.place[e.inv := (k, |s.phases[k].log|)]
  }

  lemma LogsTimes<V>(s: State<V>, s': State<V>, k: nat, w: Word<V>, e: Event<V>)
    requires Logs(s, s', k, w, e) && TimesOk(s)
    requires e.inv <= e.at == Moment(s, k)
    ensures TimesOk(s')
  {
    forall j, i | 0 <= j < |s'.phases| && 0 <= i < |s'.phases[j].log|
      ensures
        var f := s'.phases[j].log[i];
        f.inv <= f.at && s'.phases[j].since <= f.at <= Moment(s', j)
    {
      var f := s'.phases[j].log[i];
      assert (j == k && i == |s.phases[k].log|) || f == s.phases[j].log[i];
    }
  }

  lemma LogsPlaces<V>(s: State<V>, s': State<V>, k: nat, w: Word<V>, e: Event<V>)
    requires Logs(s, s', k, w, e) && PlacesOk(s) && KeepsCalls(s, s')
    requires e.inv !in s.place && e.inv < s.now && Invoked(s', e)
    ensures PlacesOk(s')
  {
    forall j, i | 0 <= j < |s'.phases| && 0 <= i < |s'.phases[j].log|
      ensures
        var f := s'.phases[j].log[i];
        f.inv in s'.place && s'.place[f.inv] == (j, i) && Invoked(s', f)
    {
      var f := s'.phases[j].log[i];
      if j != k || i < |s.phases[k].log| {
        assert f == s.phases[j].log[i];
        InvokedStays(s, s', f);
      }
    }
  }

  lemma LogsGrow<V>(s: State<V>, s': State<V>, k: nat, w: Word<V>, e: Event<V>)
    requires Logs(s, s', k, w, e)
    requires e.inv !in s.place && (s.phases[k].word == Dead ==> w == Dead)
    ensures Grows(s, s')
  {
  }

  // A step that moves the entry's pointer: a phase p begins now.

  ghost predicate Opens<V>(s: State<V>, s': State<V>, p: Phase<V>) {
    && s'.phases == s.phases + [p] && p.since == s.now && s'.now == s.now + 1
    && |p.log| <= 1
    && (|p.log| == 1 ==> p.log[0].inv <= p.log[0].at == s.now)
    && s'.place == if |p.log| == 1 then s.place[p.log[0].inv := (|s.phases|, 0)] else s.place
  }

  lemma {:induction false} OpensTimes<V>(s: State<V>, s': State<V>, p: Phase<V>)
    requires Opens(s, s', p) && TimesOk(s)
    ensures TimesOk(s')
  {
    forall k, i | 0 <= k < |s'.phases| && 0 <= i < |s'.phases[k].log|
      ensures
        var e := s'.phases[k].log[i];
        e.inv <= e.at && s'.phases[k].since <= e.at <= Moment(s', k)
    {
      assert k < |s.phases| ==> s'.phases[k].log[i] == s.phases[k].log[i];
    }
  }

  lemma OpensPlaces<V>(s: State<V>, s': State<V>, p: Phase<V>)
    requires Opens(s, s', p) && PlacesOk(s) && KeepsCalls(s, s')
    requires |p.log| == 1 ==> p.log[0].inv !in s.place && p.log[0].inv < s.now && Invoked(s', p.log[0])
    ensures PlacesOk(s')
  {
    forall j, i | 0 <= j < |s'.phases| && 0 <= i < |s'.phases[j].log|
      ensures
        var f := s'.phases[j].log[i];
        f.inv in s'.place && s'.place[f.inv] == (j, i) && Invoked(s', f)
    {
      if j < |s.phases| { InvokedStays(s, s', s.phases[j].log[i]); }
    }
  }

  lemma OpensGrow<V>(s: State<V>, s': State<V>, p: Phase<V>)
    requires Opens(s, s', p) && |s.phases| > 0
    requires |p.log| == 1 ==> p.log[0].inv !in s.place
    ensures Grows(s, s')
  {
  }

  /** The calling thread after its own step. */
  lemma OwnThread<V>(eq: (V, V) -> bool, s: State<V>, tid: nat, a: Action<V>)
    requires |s.phases| > 0 && tid in s.threads && ThreadOk(eq, s, s.threads[tid])
    requires forall k :: 0 <= k < |s.phases| ==> s.phases[k].since <= s.now
    requires Allowed(eq, s, s.threads[tid], a)
    ensures var s' := Perform(eq, s, tid, a); ThreadOk(eq, s', s'.threads[tid])
  {
  }

  lemma GotoHistory<V>(eq: (V, V) -> bool, s: State<V>, tid: nat, a: Action<V>)
    requires a.Goto? && |s.phases| > 0 && TimesOk(s) && PlacesOk(s)
    requires tid in s.threads
    ensures var s' := Perform(eq, s, tid, a); TimesOk(s') && PlacesOk(s') && Grows(s, s')
  {
    var th := s.threads[tid];
    var s' := Perform(eq, s, tid, a);
    QuietKeeps(s, s');
  }

  lemma TakeHistory<V>(eq: (V, V) -> bool, s: State<V>, tid: nat, a: Action<V>)
    requires a.Take? && |s.phases| > 0 && TimesOk(s) && PlacesOk(s)
    requires tid in s.threads && s.threads[tid].inv < s.now && s.threads[tid].inv !in s.place
    requires a.k < |s.phases| && s.threads[tid].inv <= Moment(s, a.k)
    requires s.phases[a.k].word == Dead ==> a.w == Dead
    ensures var s' := Perform(eq, s, tid, a); TimesOk(s') && PlacesOk(s') && Grows(s, s')
  {
    var th := s.threads[tid];
    var s' := Perform(eq, s, tid, a);
    var e := Event(th.inv, th.op, a.res, Moment(s, a.k));
    assert s'.threads[tid].inv == e.inv;
    LogsTimes(s, s', a.k, s'.phases[a.k].word, e);
    LogsPlaces(s, s', a.k, s'.phases[a.k].word, e);
    LogsGrow(s, s', a.k, s'.phases[a.k].word, e);
  }

  lemma InstallHistory<V>(eq: (V, V) -> bool, s: State<V>, tid: nat, a: Action<V>)
    requires a.Install? && |s.phases| > 0 && TimesOk(s) && PlacesOk(s)
    requires tid in s.threads && s.threads[tid].inv < s.now && s.threads[tid].inv !in s.place
    ensures var s' := Perform(eq, s, tid, a); TimesOk(s') && PlacesOk(s') && Grows(s, s')
  {
    var th := s.threads[tid];
    var s' := Perform(eq, s, tid, a);
    var e := Event(th.inv, th.op, a.res, s.now);
    var p := Phase(true, Live(a.v), s.now, [e]);
    assert s'.threads[tid].inv == e.inv;
    OpensTimes(s, s', p);
    OpensPlaces(s, s', p);
    OpensGrow(s, s', p);
  }

  lemma UnlinkHistory<V>(eq: (V, V) -> bool, s: State<V>, tid: nat, a: Action<V>)
    requires a.Unlink? && |s.phases| > 0 && TimesOk(s) && PlacesOk(s)
    requires tid in s.threads
    ensures var s' := Perform(eq, s, tid, a); TimesOk(s') && PlacesOk(s') && Grows(s, s')
  {
    var th := s.threads[tid];
    var s' := Perform(eq, s, tid, a);
    var p := Phase(false, Dead, s.now, []);
    OpensTimes(s, s', p);
    OpensPlaces(s, s', p);
    OpensGrow(s, s', p);
  }

  lemma GotoKeeps<V>(eq: (V, V) -> bool, init: Option<V>, s: State<V>, tid: nat, a: Action<V>)
    requires a.Goto? && Inv(eq, init, s) && tid in s.threads && Allowed(eq, s, s.threads[tid], a)
    ensures Inv(eq, init, Perform(eq, s, tid, a))
  {
    OwnThread(eq, s, tid, a);
    GotoHistory(eq, s, tid, a);
    PerformMoves(eq, s, tid, a);
    CallsKept(eq, s, Perform(eq, s, tid, a), tid);
  }

  lemma TakeKeeps<V>(eq: (V, V) -> bool, init: Option<V>, s: State<V>, tid: nat, a: Action<V>)
    requires a.Take? && Inv(eq, init, s) && tid in s.threads && Allowed(eq, s, s.threads[tid], a)
    ensures Inv(eq, init, Perform(eq, s, tid, a))
  {
    OwnThread(eq, s, tid, a);
    TakeKeepsPhases(eq, init, s.phases, a.k, Event(s.threads[tid].inv, s.threads[tid].op, a.res, Moment(s, a.k)));
    TakeHistory(eq, s, tid, a);
    PerformMoves(eq, s, tid, a);
    CallsKept(eq, s, Perform(eq, s, tid, a), tid);
  }

  lemma InstallKeeps<V>(eq: (V, V) -> bool, init: Option<V>, s: State<V>, tid: nat, a: Action<V>)
    requires a.Install? && Inv(eq, init, s) && tid in s.threads && Allowed(eq, s, s.threads[tid], a)
    ensures Inv(eq, init, Perform(eq, s, tid, a))
  {
    OwnThread(eq, s, tid, a);
    InstallKeepsPhases(eq, init, s.phases, s.now, Event(s.threads[tid].inv, s.threads[tid].op, a.res, s.now), a.v);
    InstallHistory(eq, s, tid, a);
    PerformMoves(eq, s, tid, a);
    CallsKept(eq, s, Perform(eq, s, tid, a), tid);
  }

  lemma UnlinkKeeps<V>(eq: (V, V) -> bool, init: Option<V>, s: State<V>, tid: nat, a: Action<V>)
    requires a.Unlink? && Inv(eq, init, s) && tid in s.threads && Allowed(eq, s, s.threads[tid], a)
    ensures Inv(eq, init, Perform(eq, s, tid, a))
  {
    OwnThread(eq, s, tid, a);
    UnlinkHistory(eq, s, tid, a);
    PerformMoves(eq, s, tid, a);
    CallsKept(eq, s, Perform(eq, s, tid, a), tid);
    UnlinkKeepsPhases(eq, init, s, tid, a);
  }

  lemma NewCall<V>(eq: (V, V) -> bool, s: State<V>, c: Choice<V>)
    requires |s.phases| > 0 && PlacesOk(s) && Enabled(s, c) && c.Invoke?
    ensures ThreadOk(eq, Step(eq, s, c), Step(eq, s, c).threads[c.tid])
  {
  }

  lemma {:induction false} InvokeKeeps<V>(eq: (V, V) -> bool, init: Option<V>, s: State<V>, c: Choice<V>)
    requires Inv(eq, init, s) && Enabled(s, c) && c.Invoke?
    ensures Inv(eq, init, Step(eq, s, c))
  {
    hide TimesOk, PlacesOk, ReturnedOk, PhasesOk;
    var s' := Step(eq, s, c);
    QuietKeeps(s, s');
    forall t | t in s'.threads ensures ThreadOk(eq, s', s'.threads[t]) {
      if t == c.tid { NewCall(eq, s, c); } else { ThreadKept(eq, s, s', s.threads[t]); }
    }
    forall d | 0 <= d < |s'.done| ensures ReturnedOk(s', s'.done[d]) { ReturnedKept(s, s', s.done[d]); }
    forall t, u | t in s'.threads && u in s'.threads && t != u ensures s'.threads[t].inv != s'.threads[u].inv {
      assert t != c.tid ==> ThreadOk(eq, s, s.threads[t]);
      assert u != c.tid ==> ThreadOk(eq, s, s.threads[u]);
    }
  }

  lemma ReturnKeeps<V>(eq: (V, V) -> bool, init: Option<V>, s: State<V>, c: Choice<V>)
    requires Inv(eq, init, s) && Enabled(s, c) && c.Return?
    ensures Inv(eq, init, Step(eq, s, c))
  {
    var s' := Step(eq, s, c);
    ReturnKeepsCalls(s, s', c.tid);
    QuietKeeps(s, s');
    forall t | t in s'.threads ensures ThreadOk(eq, s', s'.threads[t]) { ThreadKept(eq, s, s', s.threads[t]); }
    forall d | 0 <= d < |s'.done| ensures ReturnedOk(s', s'.done[d]) {
      if d < |s.done| { ReturnedKept(s, s', s.done[d]); } else { OwnReturn(eq, s, c.tid); }
    }
  }

  lemma ReturnKeepsCalls<V>(s: State<V>, s': State<V>, tid: nat)
    requires tid in s.threads && s.threads[tid].pc.Done? && s'.threads == s.threads - {tid}
    requires var th := s.threads[tid]; s'.done == s.done + [Completed(th.inv, th.op, th.pc.res, s.now)]
    ensures KeepsCalls(s, s')
  {
    var th := s.threads[tid];
    assert s'.done[|s'.done| - 1] == Completed(th.inv, th.op, th.pc.res, s.now);
  }

  /** The call that returns was recorded, at a moment since its call, with the promised answer. */
  lemma OwnReturn<V>(eq: (V, V) -> bool, s: State<V>, tid: nat)
    requires TimesOk(s) && PlacesOk(s) && tid in s.threads && s.threads[tid].pc.Done?
    requires ThreadOk(eq, s, s.threads[tid])
    ensures var s' := Step(eq, s, Return(tid)); ReturnedOk(s', s'.done[|s.done|])
  {
    RecordedIsFair(s, s.threads[tid].inv);
  }

  lemma RecordedIsFair<V>(s: State<V>, id: nat)
    requires TimesOk(s) && PlacesOk(s) && id in s.place
    ensures At(s, s.place[id].0, s.place[id].1) && id <= Recorded(s, id).at && Recorded(s, id).inv == id
  {
  }

  lemma StepKeeps<V>(eq: (V, V) -> bool, init: Option<V>, s: State<V>, c: Choice<V>)
    requires Inv(eq, init, s) && Enabled(s, c)
    ensures Inv(eq, init, Step(eq, s, c))
  {
    match c
    case Invoke(tid, op, viaCloner) => InvokeKeeps(eq, init, s, c);
    case Advance(tid) =>
      var th := s.threads[tid];
      assert ThreadOk(eq, s, th);
      forall k | 0 <= k < |s.phases| ensures !s.phases[k].boxed ==> s.phases[k].word == Dead {
        assert PhaseOk(eq, init, s.phases, k);
      }
      ActIsAllowed(eq, s, th);
      var a := Act(eq, s.phases, th.op, th.pc);
      match a {
        case Goto(_) => GotoKeeps(eq, init, s, tid, a);
        case Take(_, _, _, _) => TakeKeeps(eq, init, s, tid, a);
        case Install(_, _, _) => InstallKeeps(eq, init, s, tid, a);
        case Unlink(_) => UnlinkKeeps(eq, init, s, tid, a);
      }
    case Return(tid) => ReturnKeeps(eq, init, s, c);
  }

  lemma {:induction false} RunKeepsInv<V>(eq: (V, V) -> bool, init: Option<V>, schedule: seq<Choice<V>>)
    ensures Run(eq, init, schedule).Some? ==> Inv(eq, init, Run(eq, init, schedule).value)
  {
    if schedule == [] {
      assert Init<V>(init).phases[0].log == [];
    } else {
      var before := schedule[..|schedule| - 1];
      RunKeepsInv(eq, init, before);
      if Run(eq, init, schedule).Some? {
        StepKeeps(eq, init, Run(eq, init, before).value, schedule[|schedule| - 1]);
      }
    }
  }

  // ---------------------------------------------------------------- the linear order

  /** All logs, phase after phase. */
  function Flatten<V>(phases: seq<Phase<V>>): seq<Event<V>> {
    if phases == [] then [] else Flatten(phases[..|phases| - 1]) + phases[|phases| - 1].log
  }

  lemma FlattenOn<V>(phases: seq<Phase<V>>, m: nat)
    requires 0 < m <= |phases|
    ensures Flatten(phases[..m]) == Flatten(phases[..m - 1]) + phases[m - 1].log
  {
    assert phases[..m][..m - 1] == phases[..m - 1];
  }

  lemma {:induction false} FlattenHas<V>(phases: seq<Phase<V>>, k: nat, i: nat) returns (j: nat)
    requires k < |phases| && i < |phases[k].log|
    ensures j < |Flatten(phases)| && Flatten(phases)[j] == phases[k].log[i]
  {
    if k == |phases| - 1 {
      j := |Flatten(phases[..|phases| - 1])| + i;
    } else {
      j := FlattenHas(phases[..|phases| - 1], k, i);
    }
  }

  lemma {:induction false} FlattenIsLegal<V>(eq: (V, V) -> bool, init: Option<V>, phases: seq<Phase<V>>, m: nat)
    requires m <= |phases| && PhasesOk(eq, init, phases)
    ensures Legal(eq, init, Flatten(phases[..m]))
    ensures m > 0 ==> Final(eq, init, Flatten(phases[..m])) == Abs(phases[m - 1].word)
  {
    if m > 0 {
      FlattenIsLegal(eq, init, phases, m - 1);
      assert phases[..m][..m - 1] == phases[..m - 1];
      assert PhaseOk(eq, init, phases, m - 1);
      FinalConcat(eq, init, Flatten(phases[..m - 1]), phases[m - 1].log);
    }
  }

  lemma {:induction false} FlattenBounds<V>(s: State<V>, m: nat, i: nat)
    requires TimesOk(s) && PlacesOk(s) && m <= |s.phases| && i < |Flatten(s.phases[..m])|
    ensures
      var e := Flatten(s.phases[..m])[i];
      && Invoked(s, e) && e.inv in s.place && s.place[e.inv].0 < m && e.inv <= e.at <= s.now
      && (if m < |s.phases| then e.at <= s.phases[m].since else e.at <= s.now)
  {
    hide Invoked;
    assert m > 0 ==> s.phases[..m][..m - 1] == s.phases[..m - 1];
    var early := Flatten(s.phases[..m - 1]);
    if i < |early| {
      FlattenBounds(s, m - 1, i);
    } else {
      var e := s.phases[m - 1].log[i - |early|];
      assert s.place[e.inv] == (m - 1, i - |early|) && e.at <= Moment(s, m - 1);
    }
  }

  lemma {:induction false} FlattenPair<V>(s: State<V>, m: nat, i: nat, j: nat)
    requires TimesOk(s) && PlacesOk(s) && m <= |s.phases| && i < j < |Flatten(s.phases[..m])|
    ensures var order := Flatten(s.phases[..m]); order[i].at <= order[j].at && order[i].inv != order[j].inv
  {
    if m > 0 { FlattenOn(s.phases, m); }
    hide TimesOk, PlacesOk;
    var early := Flatten(s.phases[..m - 1]);
    if j < |early| {
      FlattenPair(s, m - 1, i, j);
    } else {
      LogOk(s, m - 1, j - |early|);
      if i < |early| {
        FlattenBounds(s, m - 1, i);
      } else {
        LogOk(s, m - 1, i - |early|);
        LogPair(s, m - 1, i - |early|, j - |early|);
      }
    }
  }

  lemma LogOk<V>(s: State<V>, k: nat, i: nat)
    requires TimesOk(s) && PlacesOk(s) && At(s, k, i)
    ensures var e := s.phases[k].log[i]; e.inv in s.place && s.place[e.inv] == (k, i) && s.phases[k].since <= e.at
  {
  }

  lemma LogPair<V>(s: State<V>, k: nat, i: nat, j: nat)
    requires TimesOk(s) && i < j && At(s, k, j)
    ensures s.phases[k].log[i].at <= s.phases[k].log[j].at
  {
  }

  lemma FlattenIsOrdered<V>(s: State<V>)
    requires TimesOk(s) && PlacesOk(s)
    ensures Ordered(s, Flatten(s.phases))
  {
    var order := Flatten(s.phases);
    assert s.phases[..|s.phases|] == s.phases;
    forall i, j | 0 <= i < j < |order| ensures order[i].at <= order[j].at && order[i].inv != order[j].inv {
      FlattenPair(s, |s.phases|, i, j);
    }
    forall i | 0 <= i < |order| ensures Invoked(s, order[i]) && order[i].inv <= order[i].at <= s.now {
      FlattenBounds(s, |s.phases|, i);
    }
  }

  // ---------------------------------------------------------------- main theorems

  /** The effects of every interleaving are those of a register that may be absent: some legal,
    * timely order has every returned call in it, with the answer the register promised it. */
  lemma {:induction false} EffectsLinearizable<V>(eq: (V, V) -> bool, init: Option<V>, schedule: seq<Choice<V>>)
    requires Run(eq, init, schedule).Some?
    ensures
      var s := Run(eq, init, schedule).value;
      exists order :: EffectsBy(eq, init, s, order)
  {
    var order := OrderOfRun(eq, init, schedule);
    assert EffectsBy(eq, init, Run(eq, init, schedule).value, order);
  }

  lemma {:induction false} OrderOfRun<V>(eq: (V, V) -> bool, init: Option<V>, schedule: seq<Choice<V>>)
    returns (order: seq<Event<V>>)
    requires Run(eq, init, schedule).Some?
    ensures EffectsBy(eq, init, Run(eq, init, schedule).value, order)
  {
    RunKeepsInv(eq, init, schedule);
    var s := Run(eq, init, schedule).value;
    order := Flatten(s.phases);
    OrderOf(eq, init, s);
  }

  lemma OrderOf<V>(eq: (V, V) -> bool, init: Option<V>, s: State<V>)
    requires Inv(eq, init, s)
    ensures EffectsBy(eq, init, s, Flatten(s.phases))
  {
    assert s.phases[..|s.phases|] == s.phases;
    FlattenIsLegal(eq, init, s.phases, |s.phases|);
    FlattenIsOrdered(s);
    forall c | 0 <= c < |s.done|
      ensures Answers(Flatten(s.phases), s.done[c], Promised(s.done[c].op, s.done[c].res))
    {
      ReturnedIsInOrder(s, s.done[c]);
    }
  }

  lemma ReturnedIsInOrder<V>(s: State<V>, c: Completed<V>)
    requires ReturnedOk(s, c)
    ensures Answers(Flatten(s.phases), c, Promised(c.op, c.res))
  {
    var place := s.place[c.inv];
    var j := FlattenHas(s.phases, place.0, place.1);
    assert Explains(Flatten(s.phases)[j], c);
  }

  /** Every interleaving is linearizable, answers and all, exactly as long as every LoadOrStore
    * that stored handed back the value it stored. */
  lemma {:induction false} Linearizable<V(!new)>(eq: (V, V) -> bool, init: Option<V>, schedule: seq<Choice<V>>)
    requires Run(eq, init, schedule).Some?
    ensures
      var s := Run(eq, init, schedule).value;
      RunIsLinearizable(eq, init, schedule) <==>
      (forall c :: 0 <= c < |s.done| ==> KeepsItsValue(s.done[c]))
  {
    var s := Run(eq, init, schedule).value;
    if forall c :: 0 <= c < |s.done| ==> KeepsItsValue(s.done[c]) {
      EffectsLinearizable(eq, init, schedule);
      var order: seq<Event<V>> :| EffectsBy(eq, init, s, order);
      forall c | 0 <= c < |s.done| ensures Answers(order, s.done[c], s.done[c].res) {
        assert KeepsItsValue(s.done[c]);
      }
      assert LinearizedBy(eq, init, s, order);
    }
    if order: seq<Event<V>> :| LinearizedBy(eq, init, s, order) {
      forall c | 0 <= c < |s.done| ensures KeepsItsValue(s.done[c]) {
        AnswerIsKept(eq, init, order, s.done[c]);
      }
    }
  }

  lemma AnswerIsKept<V>(eq: (V, V) -> bool, init: Option<V>, order: seq<Event<V>>, c: Completed<V>)
    requires Legal(eq, init, order) && Answers(order, c, c.res)
    ensures KeepsItsValue(c)
  {
    var i :| 0 <= i < |order| && Explains(order[i], c) && order[i].res == c.res;
    LegalAt(eq, init, order, i);
  }

  /** In any such order a call that returned comes before every call made after that, whether the
    * later one has returned or is still running. */
  lemma RealTime<V>(s: State<V>, order: seq<Event<V>>, c: nat, i: nat, j: nat)
    requires Ordered(s, order) && c < |s.done| && i < |order| && j < |order|
    requires Explains(order[i], s.done[c]) && s.done[c].resp < order[j].inv
    ensures i < j
  {
    assert i == j || i < j || j < i;
  }

  // ---------------------------------------------------------------- what the answers mean

  /** The call took out or put in a value, to judge by its answer. */
  predicate Changes<V(==)>(e: Event<V>) {
    || e.op.Store? || e.op.Delete?
    || (e.op.LoadOrStore? && e.res.Kept?)
    || ((e.op.CompareAndDelete? || e.op.CompareAndSwap?) && e.res == Did(true))
  }

  /** What a call that changed the register left in it. */
  function PutIn<V>(op: Op<V>): Option<V> {
    match op
    case Store(v) => Some(v)
    case LoadOrStore(v) => Some(v)
    case CompareAndSwap(_, v) => Some(v)
    case _ => None
  }

  /** `content` is what the last of these calls that changed the register left, or what was there at
    * the beginning if none did. */
  ghost predicate Holds<V>(init: Option<V>, log: seq<Event<V>>, content: Option<V>) {
    || ((forall j :: 0 <= j < |log| ==> !Changes(log[j])) && content == init)
    || (exists j :: LastChange(log, j) && content == PutIn(log[j].op))
  }

  ghost predicate LastChange<V>(log: seq<Event<V>>, j: int) {
    0 <= j < |log| && Changes(log[j]) && forall i :: j < i < |log| ==> !Changes(log[i])
  }

  /** The answer of a call on a register that holds `content`. */
  predicate Owed<V(==)>(eq: (V, V) -> bool, content: Option<V>, op: Op<V>, res: Res<V>) {
    match op
    case Load => res == Got(content)
    case Store(_) => res == Ack
    case Delete => res == Got(content)
    case LoadOrStore(v) => if content.Some? then res == Loaded(content.value) else res == Kept(Some(v))
    case CompareAndDelete(o) => res == Did(content.Some? && eq(content.value, o))
    case CompareAndSwap(o, _) => res == Did(content.Some? && eq(content.value, o))
  }

  lemma HoldsOn<V>(init: Option<V>, log: seq<Event<V>>, e: Event<V>, content: Option<V>)
    requires Holds(init, log, content)
    ensures Holds(init, log + [e], if Changes(e) then PutIn(e.op) else content)
  {
    hide Changes;
    var log' := log + [e];
    assert log'[|log|] == e && forall i :: 0 <= i < |log| ==> log'[i] == log[i];
    if Changes(e) {
      assert LastChange(log', |log|);
    } else if j :| LastChange(log, j) && content == PutIn(log[j].op) {
      assert LastChange(log', j);
    }
  }

  /** One call on a register that holds st: its answer, and what it leaves if it has that answer. */
  lemma ApplyIsOwed<V>(eq: (V, V) -> bool, st: Option<V>, e: Event<V>)
    ensures Owed(eq, st, e.op, e.res) <==> e.res == Apply(eq, st, e.op).1
    ensures e.res == Apply(eq, st, e.op).1 ==> Apply(eq, st, e.op).0 == if Changes(e) then PutIn(e.op) else st
  {
  }

  /** In a legal log the register always holds what the last call that changed it left there, */
  lemma {:induction false} LegalHolds<V>(eq: (V, V) -> bool, init: Option<V>, log: seq<Event<V>>)
    requires Legal(eq, init, log)
    ensures Holds(init, log, Final(eq, init, log))
  {
    if log != [] {
      hide Apply, Holds, Changes, PutIn;
      var front, e := log[..|log| - 1], log[|log| - 1];
      LegalHolds(eq, init, front);
      ApplyIsOwed(eq, Final(eq, init, front), e);
      HoldsOn(init, front, e, Final(eq, init, front));
      assert log == front + [e];
    }
  }

  /** and every call has the answer owed to it by that content, and conversely. */
  lemma {:induction false} LegalIsOwed<V(!new)>(eq: (V, V) -> bool, init: Option<V>, log: seq<Event<V>>)
    ensures Legal(eq, init, log) <==> forall i :: 0 <= i < |log| ==> OwedAt(eq, init, log, i)
  {
    if log != [] {
      hide Apply, Holds, Owed;
      var front, e := log[..|log| - 1], log[|log| - 1];
      LegalIsOwed(eq, init, front);
      forall i | 0 <= i < |front| ensures OwedAt(eq, init, log, i) <==> OwedAt(eq, init, front, i) {
        assert log[..i] == front[..i];
      }
      ApplyIsOwed(eq, Final(eq, init, front), e);
      if Legal(eq, init, front) {
        LegalHolds(eq, init, front);
        if content :| Holds(init, front, content) && Owed(eq, content, e.op, e.res) {
          OneContent(init, front, content, Final(eq, init, front));
        }
        assert OwedAt(eq, init, log, |front|) <==> Owed(eq, Final(eq, init, front), e.op, e.res);
      }
    }
  }

  /** The answer of the i-th call is owed by what the calls before it left. */
  ghost predicate OwedAt<V(!new)>(eq: (V, V) -> bool, init: Option<V>, log: seq<Event<V>>, i: nat)
    requires i < |log|
  {
    exists content :: Holds(init, log[..i], content) && Owed(eq, content, log[i].op, log[i].res)
  }

  lemma OneContent<V>(init: Option<V>, log: seq<Event<V>>, a: Option<V>, b: Option<V>)
    requires Holds(init, log, a) && Holds(init, log, b)
    ensures a == b
  {
  }

  /** So in every run each returned call was answered, or for a LoadOrStore that reads its box again
    * its effect was, by what the last call before it that changed the register had left, in an order
    * by moments within the calls. */
  lemma ReturnedIsOwed<V(!new)>(eq: (V, V) -> bool, init: Option<V>, schedule: seq<Choice<V>>)
    requires Run(eq, init, schedule).Some?
    ensures var s := Run(eq, init, schedule).value;
      exists order :: Ordered(s, order) && forall c :: 0 <= c < |s.done| ==> OwedIn(eq, init, order, s.done[c])
  {
    EffectsLinearizable(eq, init, schedule);
    var s := Run(eq, init, schedule).value;
    var order: seq<Event<V>> :| EffectsBy(eq, init, s, order);
    LegalIsOwed(eq, init, order);
    forall c | 0 <= c < |s.done| ensures OwedIn(eq, init, order, s.done[c]) {
      var i :| 0 <= i < |order| && Explains(order[i], s.done[c])
        && order[i].res == Promised(s.done[c].op, s.done[c].res);
      assert OwedAt(eq, init, order, i);
    }
  }

  ghost predicate OwedIn<V(!new)>(eq: (V, V) -> bool, init: Option<V>, order: seq<Event<V>>, c: Completed<V>) {
    exists i, content :: 0 <= i < |order| && Explains(order[i], c) && Holds(init, order[..i], content)
      && Owed(eq, content, c.op, Promised(c.op, c.res))
  }

  /** The exception is real: a LoadOrStore of 1 revives the entry, a Store of 2 lands in its box,
    * and the LoadOrStore then reads the box again and hands back 2 with loaded == false. */
  lemma LoadOrStoreCanHandBackAnothersValue(eq: (int, int) -> bool)
    ensures
      exists schedule: seq<Choice<int>> ::
        && Run(eq, None, schedule).Some?
        && var s := Run(eq, None, schedule).value;
        && s.done == [Completed(6, Store(2), Ack, 10), Completed(0, LoadOrStore(1), Kept(Some(2)), 12)]
        && !RunIsLinearizable(eq, None, schedule)
  {
    var schedule, s := OvertakenByTwo(eq);
    schedule, s := Then(eq, schedule, s, Advance(0));
    assert s.threads[0] == Thread(LoadOrStore(1), 0, Done(Kept(Some(2))));
    schedule, s := Then(eq, schedule, s, Return(0));
    assert !KeepsItsValue(s.done[1]);
    hide Act, Step, Run, RunIsLinearizable, KeepsItsValue;
    NotLinearizable(eq, schedule, 1);
  }

  lemma {:induction false} NotLinearizable<V(!new)>(eq: (V, V) -> bool, schedule: seq<Choice<V>>, c: nat)
    requires Run(eq, None, schedule).Some? && c < |Run(eq, None, schedule).value.done|
    requires !KeepsItsValue(Run(eq, None, schedule).value.done[c])
    ensures !RunIsLinearizable(eq, None, schedule)
  {
    hide Run, RunIsLinearizable, KeepsItsValue;
    Linearizable(eq, None, schedule);
  }

  /** Then a Store of 2 swaps the data word of that box and returns. */
  lemma OvertakenByTwo(eq: (int, int) -> bool) returns (schedule: seq<Choice<int>>, s: State<int>)
    ensures Run(eq, None, schedule) == Some(s) && s.now == 11 && s.done == [Completed(6, Store(2), Ack, 10)]
    ensures s.threads == map[0 := Thread(LoadOrStore(1), 0, Past(LosReread, 1, Kept(Some(1))))]
    ensures |s.phases| == 2 && s.phases[1].boxed && s.phases[1].word == Live(2)
  {
    hide Run;
    schedule, s := Revived(eq, 1);
    schedule, s := Then(eq, schedule, s, Invoke(1, Store(2), false));
    schedule, s := GoesOn(eq, schedule, s, 1, With(StoreFast, 1));
    schedule, s := GoesOn(eq, schedule, s, 1, Seen(StoreFast, 1, 1));
    schedule, s := Then(eq, schedule, s, Advance(1));
    assert s.threads[1] == Thread(Store(2), 6, Done(Ack));
    hide Act;
    schedule, s := Then(eq, schedule, s, Return(1));
  }

  /** Five steps of a LoadOrStore on an absent entry: it has published its box, not read it again. */
  lemma Revived<V>(eq: (V, V) -> bool, v: V) returns (schedule: seq<Choice<V>>, s: State<V>)
    ensures Run(eq, None, schedule) == Some(s) && s.now == 6 && s.done == []
    ensures s.threads == map[0 := Thread(LoadOrStore(v), 0, Past(LosReread, 1, Kept(Some(v))))]
    ensures |s.phases| == 2 && s.phases[1].boxed && s.phases[1].word == Live(v)
    ensures forall c :: c in schedule && c.Invoke? ==> c.op == LoadOrStore(v)
  {
    schedule, s := [], Init(None);
    assert Run(eq, None, schedule) == Some(s);
    hide Run;
    schedule, s := Then(eq, schedule, s, Invoke(0, LoadOrStore(v), false));
    schedule, s := GoesOn(eq, schedule, s, 0, Here(LosDeferred));
    schedule, s := GoesOn(eq, schedule, s, 0, Here(LosSlow));
    schedule, s := GoesOn(eq, schedule, s, 0, Here(LosCurrent));
    schedule, s := GoesOn(eq, schedule, s, 0, Here(LosNil));
    schedule, s := Then(eq, schedule, s, Advance(0));
    assert s.threads[0] == Thread(LoadOrStore(v), 0, Past(LosReread, 1, Kept(Some(v))));
  }

  lemma Then<V>(eq: (V, V) -> bool, schedule: seq<Choice<V>>, s: State<V>, c: Choice<V>)
    returns (schedule': seq<Choice<V>>, s': State<V>)
    requires Run(eq, None, schedule) == Some(s) && Enabled(s, c)
    ensures s' == Step(eq, s, c) && schedule' == schedule + [c] && Run(eq, None, schedule') == Some(s')
  {
    schedule', s' := schedule + [c], Step(eq, s, c);
    assert schedule'[..|schedule'| - 1] == schedule;
  }

  /** A step that only moves the calling thread on. */
  lemma GoesOn<V>(eq: (V, V) -> bool, schedule: seq<Choice<V>>, s: State<V>, tid: nat, pc: Pc<V>)
    returns (schedule': seq<Choice<V>>, s': State<V>)
    requires Run(eq, None, schedule) == Some(s) && Enabled(s, Advance(tid))
    requires Act(eq, s.phases, s.threads[tid].op, s.threads[tid].pc) == Goto(pc)
    ensures s' == s.(threads := s.threads[tid := s.threads[tid].(pc := pc)], now := s.now + 1)
    ensures schedule' == schedule + [Advance(tid)] && Run(eq, None, schedule') == Some(s')
  {
    schedule', s' := Then(eq, schedule, s, Advance(tid));
  }

  // ---------------------------------------------------------------- which operations go together

  /** An operation that, met by a register holding v, leaves it holding something else. */
  predicate Disturbs<V(==)>(eq: (V, V) -> bool, v: V, op: Op<V>) {
    match op
    case Load => false
    case Store(w) => w != v
    case Delete => true
    case LoadOrStore(_) => false
    case CompareAndDelete(o) => eq(v, o)
    case CompareAndSwap(o, n) => eq(v, o) && n != v
  }

  lemma DisturbsIsApply<V>(eq: (V, V) -> bool, v: V, op: Op<V>)
    ensures Disturbs(eq, v, op) <==> Apply(eq, Some(v), op).0 != Some(v)
  {
  }

  /** No LoadOrStore among them with an operation that disturbs its value. */
  ghost predicate Compatible<V(!new)>(eq: (V, V) -> bool, ops: iset<Op<V>>) {
    forall v, d :: LoadOrStore(v) in ops && d in ops ==> !Disturbs(eq, v, d)
  }

  ghost predicate CallsFrom<V>(ops: iset<Op<V>>, schedule: seq<Choice<V>>) {
    forall i :: 0 <= i < |schedule| && schedule[i].Invoke? ==> schedule[i].op in ops
  }

  /** Every run whose calls are all among these operations is linearizable, answers and all. */
  ghost predicate AllLinearizable<V(!new)>(eq: (V, V) -> bool, ops: iset<Op<V>>) {
    forall init: Option<V>, schedule: seq<Choice<V>> ::
      CallsFrom(ops, schedule) ==> RunIsLinearizable(eq, init, schedule)
  }

  ghost predicate OpsFrom<V>(ops: iset<Op<V>>, s: State<V>) {
    && (forall t :: t in s.threads ==> s.threads[t].op in ops)
    && (forall c :: 0 <= c < |s.done| ==> s.done[c].op in ops)
  }

  /** Every LoadOrStore that stored hands back the value it stored. */
  ghost predicate Faithful<V>(s: State<V>) {
    && (forall t :: t in s.threads && s.threads[t].pc.Done? ==>
          KeepsItsValue(Completed(0, s.threads[t].op, s.threads[t].pc.res, 0)))
    && (forall c :: 0 <= c < |s.done| ==> KeepsItsValue(s.done[c]))
  }

  /** Once a LoadOrStore has stored v, only a disturber of v makes the register hold anything else. */
  lemma {:induction false} StaysStored<V>(eq: (V, V) -> bool, st: Option<V>, log: seq<Event<V>>, i: nat, v: V)
    requires Legal(eq, st, log) && i < |log| && log[i].op == LoadOrStore(v) && log[i].res == Kept(Some(v))
    requires forall j :: 0 <= j < |log| ==> !Disturbs(eq, v, log[j].op)
    ensures Final(eq, st, log) == Some(v)
  {
    if i < |log| - 1 {
      StaysStored(eq, st, log[..|log| - 1], i, v);
      DisturbsIsApply(eq, v, log[|log| - 1].op);
    }
  }

  /** The box that a LoadOrStore has published still holds its value when it reads the box again. */
  lemma RereadIsFaithful<V(!new)>(eq: (V, V) -> bool, init: Option<V>, ops: iset<Op<V>>, s: State<V>, t: nat)
    requires Inv(eq, init, s) && OpsFrom(ops, s) && Compatible(eq, ops)
    requires t in s.threads && s.threads[t].op.LoadOrStore? && s.threads[t].pc.Past?
    ensures Held(s.threads[t].pc).value < |s.phases| && s.phases[s.threads[t].pc.k].word == Live(s.threads[t].op.v)
  {
    var th := s.threads[t];
    assert ThreadOk(eq, s, th);
    var (k, i) := s.place[th.inv];
    var log := s.phases[k].log;
    forall j | 0 <= j < |log| ensures !Disturbs(eq, th.op.v, log[j].op) {
      assert Invoked(s, log[j]);
    }
    assert PhaseOk(eq, init, s.phases, k);
    StaysStored(eq, Opening(init, s.phases, k), log, i, th.op.v);
  }

  /** Only the second reading of the box hands back what it finds. */
  lemma AnswersOfSteps<V>(eq: (V, V) -> bool, phases: seq<Phase<V>>, op: Op<V>, pc: Pc<V>)
    requires Placed(phases, op, pc)
    ensures var pc' := Act(eq, phases, op, pc).pc;
      pc'.Done? && op.LoadOrStore? && pc'.res.Kept? ==> pc.Past? && pc'.res.stored == Abs(phases[pc.k].word)
  {
  }

  lemma StepIsFaithful<V(!new)>(eq: (V, V) -> bool, init: Option<V>, ops: iset<Op<V>>, s: State<V>, c: Choice<V>)
    requires Inv(eq, init, s) && OpsFrom(ops, s) && Compatible(eq, ops) && Faithful(s)
    requires Enabled(s, c) && (c.Invoke? ==> c.op in ops)
    ensures OpsFrom(ops, Step(eq, s, c)) && Faithful(Step(eq, s, c))
  {
    hide Inv, Compatible, Act;
    if c.Advance? {
      var th := s.threads[c.tid];
      AnswersOfSteps(eq, s.phases, th.op, th.pc);
      if th.op.LoadOrStore? && th.pc.Past? {
        RereadIsFaithful(eq, init, ops, s, c.tid);
      }
      ActFits(eq, init, s, c.tid);
      hide Step;
      MoveIsFaithful(ops, s, Step(eq, s, c), c.tid, Act(eq, s.phases, th.op, th.pc).pc);
    }
  }

  lemma MoveIsFaithful<V>(ops: iset<Op<V>>, s: State<V>, s': State<V>, t: nat, pc: Pc<V>)
    requires OpsFrom(ops, s) && Faithful(s) && t in s.threads
    requires s'.done == s.done && s'.threads == s.threads[t := s.threads[t].(pc := pc)]
    requires pc.Done? ==> KeepsItsValue(Completed(0, s.threads[t].op, pc.res, 0))
    ensures OpsFrom(ops, s') && Faithful(s')
  {
  }

  lemma ActFits<V>(eq: (V, V) -> bool, init: Option<V>, s: State<V>, t: nat)
    requires Inv(eq, init, s) && Enabled(s, Advance(t))
    ensures var a := Act(eq, s.phases, s.threads[t].op, s.threads[t].pc); a.Take? ==> a.k < |s.phases|
    ensures Step(eq, s, Advance(t)).done == s.done
    ensures Step(eq, s, Advance(t)).threads
         == s.threads[t := s.threads[t].(pc := Act(eq, s.phases, s.threads[t].op, s.threads[t].pc).pc)]
  {
    TakeFits(eq, s, t);
    hide Act, Inv;
  }

  lemma TakeFits<V>(eq: (V, V) -> bool, s: State<V>, t: nat)
    requires Enabled(s, Advance(t))
    ensures var a := Act(eq, s.phases, s.threads[t].op, s.threads[t].pc); a.Take? ==> a.k < |s.phases|
  {
  }

  lemma {:induction false} RunIsFaithful<V(!new)>(eq: (V, V) -> bool, init: Option<V>, ops: iset<Op<V>>,
      schedule: seq<Choice<V>>)
    requires CallsFrom(ops, schedule) && Compatible(eq, ops) && Run(eq, init, schedule).Some?
    ensures OpsFrom(ops, Run(eq, init, schedule).value) && Faithful(Run(eq, init, schedule).value)
  {
    if schedule != [] {
      var before, c := schedule[..|schedule| - 1], schedule[|schedule| - 1];
      RunIsFaithful(eq, init, ops, before);
      RunKeepsInv(eq, init, before);
      StepIsFaithful(eq, init, ops, Run(eq, init, before).value, c);
    }
  }

  /** A disturber of v gets at the box while a LoadOrStore of v has not read it again. */
  lemma Disturbed<V>(eq: (V, V) -> bool, v: V, d: Op<V>) returns (schedule: seq<Choice<V>>, s: State<V>)
    requires Disturbs(eq, v, d)
    ensures Run(eq, None, schedule) == Some(s) && s.done == [] && 0 in s.threads
    ensures s.threads[0] == Thread(LoadOrStore(v), 0, Past(LosReread, 1, Kept(Some(v))))
    ensures |s.phases| == 2 && s.phases[1].word != Live(v)
    ensures forall c :: c in schedule && c.Invoke? ==> c.op == LoadOrStore(v) || c.op == d
  {
    hide Act, Run;
    schedule, s := Revived(eq, v);
    schedule, s := Then(eq, schedule, s, Invoke(1, d, false));
    DisturberActs(eq, v, d, s.phases);
    if d.CompareAndSwap? {
      schedule, s := GoesOn(eq, schedule, s, 1, With(CasFast, 1));
      schedule, s := GoesOn(eq, schedule, s, 1, Here(CasReplace));
    }
    var site := DisturberSite(d);
    schedule, s := GoesOn(eq, schedule, s, 1, With(site, 1));
    schedule, s := GoesOn(eq, schedule, s, 1, Seen(site, 1, v));
    schedule, s := TakesEffect(eq, schedule, s, 1);
  }

  /** A step that takes effect on a data word. */
  lemma TakesEffect<V>(eq: (V, V) -> bool, schedule: seq<Choice<V>>, s: State<V>, tid: nat)
    returns (schedule': seq<Choice<V>>, s': State<V>)
    requires Run(eq, None, schedule) == Some(s) && Enabled(s, Advance(tid))
    requires var a := Act(eq, s.phases, s.threads[tid].op, s.threads[tid].pc); a.Take? && a.k < |s.phases|
    ensures var a := Act(eq, s.phases, s.threads[tid].op, s.threads[tid].pc);
      && s'.done == s.done && s'.threads == s.threads[tid := s.threads[tid].(pc := a.pc)]
      && |s'.phases| == |s.phases| && s'.phases[a.k].word == a.w
    ensures schedule' == schedule + [Advance(tid)] && Run(eq, None, schedule') == Some(s')
  {
    schedule', s' := Then(eq, schedule, s, Advance(tid));
  }

  /** How a disturber of v gets from its call to the data word, and what it does there. */
  lemma DisturberActs<V>(eq: (V, V) -> bool, v: V, d: Op<V>, phases: seq<Phase<V>>)
    requires Disturbs(eq, v, d) && |phases| == 2 && phases[1].boxed && phases[1].word == Live(v)
    ensures var site := DisturberSite(d);
      && Start(d, false) == Here(if d.CompareAndSwap? then CasFast else site)
      && (d.CompareAndSwap? ==>
            && Placed(phases, d, Here(CasFast)) && Act(eq, phases, d, Here(CasFast)) == Goto(With(CasFast, 1))
            && Placed(phases, d, With(CasFast, 1)) && Act(eq, phases, d, With(CasFast, 1)) == Goto(Here(site)))
      && Placed(phases, d, Here(site)) && Act(eq, phases, d, Here(site)) == Goto(With(site, 1))
      && Placed(phases, d, With(site, 1)) && Act(eq, phases, d, With(site, 1)) == Goto(Seen(site, 1, v))
      && Placed(phases, d, Seen(site, 1, v)) && Act(eq, phases, d, Seen(site, 1, v)).Take?
      && Act(eq, phases, d, Seen(site, 1, v)).k == 1 && Act(eq, phases, d, Seen(site, 1, v)).w != Live(v)
  {
  }

  function DisturberSite<V>(d: Op<V>): Site {
    match d
    case Store(_) => StoreFast
    case Delete => DeleteClaim
    case CompareAndDelete(_) => CadClaim
    case _ => CasReplace
  }

  /** The LoadOrStore then hands back what it finds, which is not what it stored. */
  lemma DisturbedIsNotLinearizable<V(!new)>(eq: (V, V) -> bool, v: V, d: Op<V>) returns (schedule: seq<Choice<V>>)
    requires Disturbs(eq, v, d)
    ensures Run(eq, None, schedule).Some?
    ensures !RunIsLinearizable(eq, None, schedule)
    ensures forall c :: c in schedule && c.Invoke? ==> c.op == LoadOrStore(v) || c.op == d
  {
    var s;
    schedule, s := Disturbed(eq, v, d);
    schedule, s := ReadsAgain(eq, v, schedule, s);
    assert !KeepsItsValue(s.done[0]);
    hide Run, RunIsLinearizable, KeepsItsValue;
    NotLinearizable(eq, schedule, 0);
  }

  lemma ReadsAgain<V>(eq: (V, V) -> bool, v: V, schedule: seq<Choice<V>>, s: State<V>)
    returns (schedule': seq<Choice<V>>, s': State<V>)
    requires Run(eq, None, schedule) == Some(s) && s.done == [] && 0 in s.threads && |s.phases| == 2
    requires s.threads[0] == Thread(LoadOrStore(v), 0, Past(LosReread, 1, Kept(Some(v))))
    ensures Run(eq, None, schedule') == Some(s') && schedule' == schedule + [Advance(0), Return(0)]
    ensures |s'.done| == 1 && s'.done[0].op == LoadOrStore(v) && s'.done[0].res == Kept(Abs(s.phases[1].word))
  {
    schedule', s' := GoesOn(eq, schedule, s, 0, Done(Kept(Abs(s.phases[1].word))));
    hide Act, Run;
    schedule', s' := Then(eq, schedule', s', Return(0));
  }

  /** What can be said before any call is made: a set of operations is linearizable in every run, on
    * every entry, exactly when no LoadOrStore in it comes with an operation that disturbs its value. */
  lemma {:induction false} LinearizableOperations<V(!new)>(eq: (V, V) -> bool, ops: iset<Op<V>>)
    ensures AllLinearizable(eq, ops) <==> Compatible(eq, ops)
  {
    if Compatible(eq, ops) {
      forall init: Option<V>, schedule: seq<Choice<V>> | CallsFrom(ops, schedule)
        ensures RunIsLinearizable(eq, init, schedule)
      {
        CompatibleIsLinearizable(eq, init, ops, schedule);
      }
    } else {
      var v, d :| LoadOrStore(v) in ops && d in ops && Disturbs(eq, v, d);
      var schedule := DisturbedIsNotLinearizable(eq, v, d);
      assert CallsFrom(ops, schedule) && !RunIsLinearizable(eq, None, schedule);
    }
  }

  lemma {:induction false} CompatibleIsLinearizable<V(!new)>(eq: (V, V) -> bool, init: Option<V>, ops: iset<Op<V>>,
      schedule: seq<Choice<V>>)
    requires Compatible(eq, ops) && CallsFrom(ops, schedule)
    ensures RunIsLinearizable(eq, init, schedule)
  {
    if Run(eq, init, schedule) != None {
      hide Run, RunIsLinearizable, KeepsItsValue;
      RunIsFaithful(eq, init, ops, schedule);
      Linearizable(eq, init, schedule);
    }
  }
}
