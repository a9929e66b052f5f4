/** What a sequential run promises, told by its calls and answers alone: under a key a caller sees what
  * was last put there, unless it has been taken out since, its time is up, or its reads are used up.
  */
module History {
  import opened Options
  import opened Dictionary

  /** What a call that gave this answer put under k, where `before` is what k held for it. */
  function Puts<K(==), V>(op: Op<K, V>, r: Res<V>, k: K, before: Option<V>): Option<(V, EntryOptions)> {
    match op
    case Store(x, v, opt) => if x == k then Some((v, opt)) else None
    case Swap(x, v, opt) => if x == k then Some((v, opt)) else None
    case LoadOrStore(x, v, opt) => if x == k && !r.ok then Some((v, opt)) else None
    case CompareAndSwap(x, _, v, opt) => if x == k && r.ok then Some((v, opt)) else None
    case Compute(x, fn) => if x == k && fn(before).Update? then Some((fn(before).v, Plain)) else None
    case _ => None
  }

  /** Whether it took k's value out. */
  predicate Takes<K(==), V>(op: Op<K, V>, r: Res<V>, k: K, before: Option<V>) {
    match op
    case Delete(x) => x == k
    case CompareAndDelete(x, _) => x == k && r.ok
    case Compute(x, fn) => x == k && fn(before).Remove?
    case Clear => true
    case _ => false
  }

  /** Whether it used up one of k's reads. */
  predicate Reads<K(==), V>(op: Op<K, V>, r: Res<V>, k: K) {
    op.Load? && op.k == k && r.ok
  }

  /** What k holds for a caller at `now`, after calls at their times gave these answers and `spent`
    * more reads of k. */
  function SeenWith<K(==), V>(ops: seq<(nat, Op<K, V>)>, rs: seq<Res<V>>, k: K, now: nat, spent: nat): Option<V>
    requires |ops| == |rs|
  {
    if ops == [] then None else
    var n := |ops| - 1;
    var ((t, op), r) := (ops[n], rs[n]);
    var before := SeenWith(ops[..n], rs[..n], k, t, 0);
    match Puts(op, r, k, before)
    case Some((v, opt)) =>
      if (opt.ttl <= 0 || now < t + opt.ttl) && (opt.hits <= 0 || spent < opt.hits) then Some(v) else None
    case None =>
      if Takes(op, r, k, before) then None
      else SeenWith(ops[..n], rs[..n], k, now, if Reads(op, r, k) then spent + 1 else spent)
  }

  function Seen<K(==), V>(ops: seq<(nat, Op<K, V>)>, rs: seq<Res<V>>, k: K, now: nat): Option<V>
    requires |ops| == |rs|
  {
    SeenWith(ops, rs, k, now, 0)
  }

  function KeyOf<K, V>(op: Op<K, V>): Option<K> {
    if op.CleanupNow? || op.Clear? then None else Some(op.k)
  }

  /** The answer that a call owes to a caller for whom its key holds `seen`. */
  predicate Owed<K, V(==)>(eq: (V, V) -> bool, op: Op<K, V>, seen: Option<V>, r: Res<V>) {
    match op
    case Load(_) => r == Answer(seen, seen.Some?)
    case Peek(_) => r == Answer(seen, seen.Some?)
    case Contains(_) => r == Answer(None, seen.Some?)
    case Store(_, _, _) => r == Answer(None, true)
    case Delete(_) => r == Answer(seen, seen.Some?)
    case LoadOrStore(_, v, _) => r == if seen.Some? then Answer(seen, true) else Answer(Some(v), false)
    case Swap(_, _, _) => r == Answer(seen, seen.Some?)
    case CompareAndSwap(_, o, _, _) => r == Answer(None, seen.Some? && eq(seen.value, o))
    case CompareAndDelete(_, o) => r == Answer(None, seen.Some? && eq(seen.value, o))
    case Compute(_, fn) => (match fn(seen)
      case Cancel => r == Answer(seen, seen.Some?)
      case Update(v) => r == Answer(Some(v), true)
      case Remove => r == Answer(seen, false))
    case CleanupNow => r == Answer(None, true)
    case Clear => r == Answer(None, true)
  }

  /** What the i-th call's key holds for it. */
  function SeenBy<K(==), V>(ops: seq<(nat, Op<K, V>)>, rs: seq<Res<V>>, i: nat): Option<V>
    requires i < |ops| == |rs|
  {
    var key := KeyOf(ops[i].1);
    if key.Some? then Seen(ops[..i], rs[..i], key.value, ops[i].0) else None
  }

  /** Every call was given the answer that the calls before it and their answers call for. */
  ghost predicate Explained<K, V>(eq: (V, V) -> bool, ops: seq<(nat, Op<K, V>)>, rs: seq<Res<V>>) {
    |ops| == |rs| && forall i :: 0 <= i < |ops| ==> Owed(eq, ops[i].1, SeenBy(ops, rs, i), rs[i])
  }

  /** The clock does not go back. */
  ghost predicate Rising<K, V>(ops: seq<(nat, Op<K, V>)>) {
    forall i, j :: 0 <= i < j < |ops| ==> ops[i].0 <= ops[j].0
  }

  // ---------------------------------------------------------------- the dictionary keeps the promise

  /** What is left of k's cell at `now`, after `spent` more reads. */
  function Left<K, V>(d: map<K, Cell<V>>, k: K, now: nat, spent: nat): Option<V> {
    if k in d && (d[k].expiry.Some? ==> now < d[k].expiry.value) && (d[k].hits.Some? ==> spent < d[k].hits.value)
    then Some(d[k].val) else None
  }

  /** One call: what it leaves of k's cell is what it put there, or nothing, or what was left before. */
  lemma LeftAfter<K, V>(eq: (V, V) -> bool, d: map<K, Cell<V>>, t: nat, op: Op<K, V>, k: K, now: nat, spent: nat)
    requires t <= now
    ensures var before := Left(d, k, t, 0);
      var (d', r) := Apply(eq, Prune(d, t), t, op);
      Left(d', k, now, spent) == match Puts(op, r, k, before)
        case Some((v, opt)) =>
          if (opt.ttl <= 0 || now < t + opt.ttl) && (opt.hits <= 0 || spent < opt.hits) then Some(v) else None
        case None =>
          if Takes(op, r, k, before) then None
          else Left(d, k, now, if Reads(op, r, k) then spent + 1 else spent)
  {
    assert Value(Prune(d, t), k) == Left(d, k, t, 0);
  }

  lemma {:induction false} SeenIsLeft<K, V>(eq: (V, V) -> bool, ops: seq<(nat, Op<K, V>)>, k: K, now: nat, spent: nat)
    requires Rising(ops) && (ops != [] ==> ops[|ops| - 1].0 <= now)
    ensures var (d, rs) := Run(eq, map[], ops);
      |rs| == |ops| && SeenWith(ops, rs, k, now, spent) == Left(d, k, now, spent)
  {
    if ops != [] {
      var n := |ops| - 1;
      var (t, op) := ops[n];
      var (d, rs) := Run(eq, map[], ops[..n]);
      var (d', r) := Apply(eq, Prune(d, t), t, op);
      SeenIsLeft(eq, ops[..n], k, t, 0);
      SeenIsLeft(eq, ops[..n], k, now, if Reads(op, r, k) then spent + 1 else spent);
      LeftAfter(eq, d, t, op, k, now, spent);
      assert (rs + [r])[..n] == rs;
    }
  }

  lemma AnswerIsOwed<K, V>(eq: (V, V) -> bool, d: map<K, Cell<V>>, t: nat, op: Op<K, V>)
    ensures var key := KeyOf(op);
      Owed(eq, op, if key.Some? then Left(d, key.value, t, 0) else None, Apply(eq, Prune(d, t), t, op).1)
  {
    if KeyOf(op).Some? {
      assert Value(Prune(d, t), op.k) == Left(d, op.k, t, 0);
    }
  }

  lemma {:induction false} RunPrefix<K, V>(eq: (V, V) -> bool, ops: seq<(nat, Op<K, V>)>, i: nat)
    requires i <= |ops|
    ensures |Run(eq, map[], ops).1| == |ops| && Run(eq, map[], ops[..i]).1 == Run(eq, map[], ops).1[..i]
    ensures i < |ops| ==>
      var (t, op) := ops[i];
      Run(eq, map[], ops).1[i] == Apply(eq, Prune(Run(eq, map[], ops[..i]).0, t), t, op).1
  {
    hide Apply;
    if i < |ops| {
      RunPrefix(eq, ops[..|ops| - 1], i);
      assert ops[..|ops| - 1][..i] == ops[..i];
    } else if ops != [] {
      RunPrefix(eq, ops[..|ops| - 1], i - 1);
      assert ops[..i] == ops;
    }
  }

  /** The dictionary gives exactly the answers that the history calls for: they are explained by it,
    * and no other answers are. */
  lemma RunIsExplained<K, V>(eq: (V, V) -> bool, ops: seq<(nat, Op<K, V>)>, rs: seq<Res<V>>)
    requires Rising(ops)
    ensures Explained(eq, ops, rs) <==> rs == Run(eq, map[], ops).1
  {
    RunAnswersOwed(eq, ops);
    if Explained(eq, ops, rs) {
      OneExplanation(eq, ops, rs, Run(eq, map[], ops).1, |ops|);
      assert rs == rs[..|ops|];
    }
  }

  lemma RunAnswersOwed<K, V>(eq: (V, V) -> bool, ops: seq<(nat, Op<K, V>)>)
    requires Rising(ops)
    ensures Explained(eq, ops, Run(eq, map[], ops).1)
  {
    hide Run, Apply, Owed;
    var rs := Run(eq, map[], ops).1;
    RunPrefix(eq, ops, 0);
    forall i | 0 <= i < |ops| ensures Owed(eq, ops[i].1, SeenBy(ops, rs, i), rs[i]) {
      RunPrefix(eq, ops, i);
      var (t, op) := ops[i];
      AnswerIsOwed(eq, Run(eq, map[], ops[..i]).0, t, op);
      if KeyOf(op).Some? { SeenIsLeft(eq, ops[..i], KeyOf(op).value, t, 0); }
    }
  }

  /** The answers before a call determine its own. */
  lemma {:induction false} OneExplanation<K, V>(eq: (V, V) -> bool, ops: seq<(nat, Op<K, V>)>, rs: seq<Res<V>>,
      rs': seq<Res<V>>, n: nat)
    requires Explained(eq, ops, rs) && Explained(eq, ops, rs') && n <= |ops|
    ensures rs[..n] == rs'[..n]
  {
    if n > 0 {
      OneExplanation(eq, ops, rs, rs', n - 1);
      assert SeenBy(ops, rs, n - 1) == SeenBy(ops, rs', n - 1);
      assert Owed(eq, ops[n - 1].1, SeenBy(ops, rs, n - 1), rs[n - 1]);
      assert Owed(eq, ops[n - 1].1, SeenBy(ops, rs', n - 1), rs'[n - 1]);
    }
  }

  // ---------------------------------------------------------------- how long a value is there

  /** The call puts v under k with these options. */
  ghost predicate PutIn<K, V>(op: Op<K, V>, ok: bool, k: K, v: V, opt: EntryOptions) {
    || op == Op.Store(k, v, opt)
    || op == Op.Swap(k, v, opt)
    || (op == Op.LoadOrStore(k, v, opt) && !ok)
    || (op.CompareAndSwap? && op.k == k && op.new_ == v && op.opt == opt && ok)
  }

  /** Loads of k at these times. */
  function Loads<K, V>(k: K, at: seq<nat>): seq<(nat, Op<K, V>)> {
    seq(|at|, (i: nat) requires i < |at| => (at[i], Op.Load(k)))
  }

  lemma RunLast<K, V>(eq: (V, V) -> bool, ops: seq<(nat, Op<K, V>)>, t: nat, op: Op<K, V>)
    ensures var (d, rs) := Run(eq, map[], ops);
      var (d', r) := Apply(eq, Prune(d, t), t, op);
      Run(eq, map[], ops + [(t, op)]) == (d', rs + [r])
  {
    assert (ops + [(t, op)])[..|ops|] == ops;
  }

  /** The run up to the i-th Load. */
  lemma LoadsPrefix<K, V>(before: seq<(nat, Op<K, V>)>, t: nat, op: Op<K, V>, k: K, at: seq<nat>, i: nat)
    requires Rising(before + [(t, op)] + Loads(k, at)) && i <= |at|
    ensures var part := before + [(t, op)] + Loads(k, at[..i]);
      && part == (before + [(t, op)] + Loads(k, at))[..|before| + 1 + i] && Rising(part)
      && (i < |at| ==> part[|part| - 1].0 <= at[i])
  {
    var ops := before + [(t, op)] + Loads(k, at);
    assert i < |at| ==> ops[|before| + 1 + i].0 == at[i];
  }

  lemma {:induction false} LoadsLeft<K, V>(eq: (V, V) -> bool, before: seq<(nat, Op<K, V>)>, t: nat, op: Op<K, V>,
      k: K, v: V, opt: EntryOptions, at: seq<nat>, now: nat, spent: nat)
    requires var ops := before + [(t, op)] + Loads(k, at);
      && Rising(ops) && ops[|ops| - 1].0 <= now
      && PutIn(op, Run(eq, map[], before + [(t, op)]).1[|before|].ok, k, v, opt)
    ensures Left(Run(eq, map[], before + [(t, op)] + Loads(k, at)).0, k, now, spent) ==
      if (opt.ttl <= 0 || now < t + opt.ttl) && (opt.hits <= 0 || |at| + spent < opt.hits) then Some(v) else None
  {
    hide Run, Apply, Prune, Left;
    if at == [] {
      assert before + [(t, op)] + Loads(k, at) == before + [(t, op)];
      RunLast(eq, before, t, op);
      LeftAfter(eq, Run(eq, map[], before).0, t, op, k, now, spent);
    } else {
      var early, last := at[..|at| - 1], at[|at| - 1];
      var front := before + [(t, op)] + Loads(k, early);
      assert before + [(t, op)] + Loads(k, at) == front + [(last, Op.Load(k))];
      LoadsPrefix(before, t, op, k, at, |early|);
      hide Rising;
      LoadsLeft(eq, before, t, op, k, v, opt, early, last, 0);
      LoadsLeft(eq, before, t, op, k, v, opt, early, now, spent);
      LoadsLeft(eq, before, t, op, k, v, opt, early, now, spent + 1);
      RunLast(eq, front, last, Op.Load(k));
      LeftAfter(eq, Run(eq, map[], front).0, last, Op.Load(k), k, now, spent);
      AnswerIsOwed(eq, Run(eq, map[], front).0, last, Op.Load(k));
    }
  }

  /** A value put in with a TTL and a number of reads, by whichever call and in whatever state, is what
    * the i-th Load after it finds until its time is up, as many times as it may be read; after that
    * it is absent. */
  lemma ReadBack<K, V>(eq: (V, V) -> bool, before: seq<(nat, Op<K, V>)>, t: nat, op: Op<K, V>, k: K, v: V,
      opt: EntryOptions, at: seq<nat>, i: nat)
    requires Rising(before + [(t, op)] + Loads(k, at)) && i < |at|
    requires PutIn(op, Run(eq, map[], before + [(t, op)]).1[|before|].ok, k, v, opt)
    ensures Run(eq, map[], before + [(t, op)] + Loads(k, at)).1[|before| + 1 + i] ==
      if (opt.ttl <= 0 || at[i] < t + opt.ttl) && (opt.hits <= 0 || i < opt.hits)
      then Answer(Some(v), true) else Answer(None, false)
  {
    hide Run, Apply, Prune, Left, Rising;
    LoadsPrefix(before, t, op, k, at, i);
    var ops, m := before + [(t, op)] + Loads(k, at), |before| + 1 + i;
    RunPrefix(eq, ops, m);
    LoadsLeft(eq, before, t, op, k, v, opt, at[..i], at[i], 0);
    AnswerIsOwed(eq, Run(eq, map[], ops[..m]).0, at[i], Op.Load(k));
  }

  // ---------------------------------------------------------------- cleanup

  lemma RisingFront<K, V>(ops: seq<(nat, Op<K, V>)>, u: nat, op: Op<K, V>)
    requires Rising(ops + [(u, op)])
    ensures Rising(ops) && (ops != [] ==> ops[|ops| - 1].0 <= u)
  {
    var all := ops + [(u, op)];
    assert all[|ops|] == (u, op);
    assert forall i :: 0 <= i < |ops| ==> all[i] == ops[i];
  }

  /** A cleanup anywhere in a run leaves all other answers, and what anybody sees later, as they are. */
  lemma {:induction false} CleanupIsInvisible<K, V>(eq: (V, V) -> bool, a: seq<(nat, Op<K, V>)>, t: nat,
      b: seq<(nat, Op<K, V>)>, now: nat)
    requires var ops := a + [(t, Op.CleanupNow)] + b; Rising(ops) && ops[|ops| - 1].0 <= now
    ensures var (with, without) := (Run(eq, map[], a + [(t, Op.CleanupNow)] + b), Run(eq, map[], a + b));
      && |without.1| == |a| + |b|
      && with.1 == without.1[..|a|] + [Answer(None, true)] + without.1[|a|..]
      && Prune(with.0, now) == Prune(without.0, now)
  {
    hide Run, Prune;
    if b == [] {
      assert a + [(t, Op.CleanupNow)] + b == a + [(t, Op.CleanupNow)] && a + b == a;
      RunLast(eq, a, t, Op.CleanupNow);
      PruneLater(Run(eq, map[], a).0, t, now);
    } else {
      hide Apply;
      var front := b[..|b| - 1];
      var (u, op) := b[|b| - 1];
      assert a + [(t, Op.CleanupNow)] + b == a + [(t, Op.CleanupNow)] + front + [(u, op)];
      assert a + b == a + front + [(u, op)];
      RisingFront(a + [(t, Op.CleanupNow)] + front, u, op);
      CleanupIsInvisible(eq, a, t, front, u);
      RunLast(eq, a + [(t, Op.CleanupNow)] + front, u, op);
      RunLast(eq, a + front, u, op);
    }
  }
}
