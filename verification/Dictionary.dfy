/** What both maps promise in a sequential run: a plain dictionary from keys to a value, an
  * optional expiry time and an optional number of reads left. An expired cell and a cell with no
  * reads left are absent.
  */
module Dictionary {
  import opened Options

  datatype Cell<V> = Cell(val: V, expiry: Option<nat>, hits: Option<nat>)

  /** TTL and Hits of zero or less mean no limit. */
  datatype EntryOptions = EntryOptions(ttl: int, hits: int)

  const Plain := EntryOptions(0, 0)

  function NewCell<V>(v: V, opt: EntryOptions, now: nat): Cell<V> {
    Cell(v, if opt.ttl > 0 then Some(now + opt.ttl) else None, if opt.hits > 0 then Some(opt.hits) else None)
  }

  predicate Alive<V>(c: Cell<V>, now: nat) {
    (c.expiry.Some? ==> now < c.expiry.value) && (c.hits.Some? ==> c.hits.value > 0)
  }

  /** The dictionary as it is at time `now`. */
  function Prune<K, V>(d: map<K, Cell<V>>, now: nat): map<K, Cell<V>> {
    map k | k in d && Alive(d[k], now) :: d[k]
  }

  /** What Compute's function decides: cancel, update to a value, or delete. */
  datatype Decision<V> = Cancel | Update(v: V) | Remove

  datatype Op<!K, !V> =
    | Load(k: K)
    | Peek(k: K)
    | Contains(k: K)
    | Store(k: K, v: V, opt: EntryOptions)
    | Delete(k: K)
    | LoadOrStore(k: K, v: V, opt: EntryOptions)
    | Swap(k: K, v: V, opt: EntryOptions)
    | CompareAndSwap(k: K, old_: V, new_: V, opt: EntryOptions)
    | CompareAndDelete(k: K, old_: V)
    | Compute(k: K, fn: Option<V> -> Decision<V>)
    | CleanupNow
    | Clear

  /** A returned value, or the zero value as None, and the returned bool. */
  datatype Res<V> = Answer(val: Option<V>, ok: bool)

  function Value<K, V>(d: map<K, Cell<V>>, k: K): Option<V> {
    if k in d then Some(d[k].val) else None
  }

  /** One read less; the last one removes the cell. */
  function Consume<K, V>(d: map<K, Cell<V>>, k: K): map<K, Cell<V>>
    requires k in d
  {
    match d[k].hits
    case None => d
    case Some(n) => if n <= 1 then d - {k} else d[k := d[k].(hits := Some(n - 1))]
  }

  /** One operation on a pruned dictionary. */
  function Apply<K, V>(eq: (V, V) -> bool, d: map<K, Cell<V>>, now: nat, op: Op<K, V>): (map<K, Cell<V>>, Res<V>) {
    match op
    case Load(k) => if k in d then (Consume(d, k), Answer(Some(d[k].val), true)) else (d, Answer(None, false))
    case Peek(k) => (d, Answer(Value(d, k), k in d))
    case Contains(k) => (d, Answer(None, k in d))
    case Store(k, v, opt) => (d[k := NewCell(v, opt, now)], Answer(None, true))
    case Delete(k) => (d - {k}, Answer(Value(d, k), k in d))
    case LoadOrStore(k, v, opt) =>
      if k in d then (d, Answer(Some(d[k].val), true)) else (d[k := NewCell(v, opt, now)], Answer(Some(v), false))
    case Swap(k, v, opt) => (d[k := NewCell(v, opt, now)], Answer(Value(d, k), k in d))
    case CompareAndSwap(k, o, n, opt) =>
      if k in d && eq(d[k].val, o) then (d[k := NewCell(n, opt, now)], Answer(None, true)) else (d, Answer(None, false))
    case CompareAndDelete(k, o) =>
      if k in d && eq(d[k].val, o) then (d - {k}, Answer(None, true)) else (d, Answer(None, false))
    case Compute(k, fn) => (match fn(Value(d, k))
      case Cancel => (d, Answer(Value(d, k), k in d))
      case Update(v) => (d[k := NewCell(v, Plain, now)], Answer(Some(v), true))
      case Remove => (d - {k}, Answer(Value(d, k), false)))
    case CleanupNow => (d, Answer(None, true))
    case Clear => (map[], Answer(None, true))
  }

  /** A run: each operation sees the dictionary pruned to its own time. */
  function Run<K, V>(eq: (V, V) -> bool, d: map<K, Cell<V>>,
      ops: seq<(nat, Op<K, V>)>): (r: (map<K, Cell<V>>, seq<Res<V>>))
    ensures |r.1| == |ops|
  {
    if ops == [] then (d, []) else
    var (before, answers) := Run(eq, d, ops[..|ops| - 1]);
    var (now, op) := ops[|ops| - 1];
    var (after, answer) := Apply(eq, Prune(before, now), now, op);
    (after, answers + [answer])
  }

  lemma EmptyRun<K, V>(eq: (V, V) -> bool, ops: seq<(nat, Op<K, V>)>)
    ensures Run(eq, map[], ops[..0]) == (map[], [])
    ensures forall t: nat :: Prune<K, V>(map[], t) == map[]
  {
    assert ops[..0] == [];
  }

  lemma RunStep<K, V>(eq: (V, V) -> bool, ops: seq<(nat, Op<K, V>)>, i: nat, before: map<K, Cell<V>>,
      after: map<K, Cell<V>>, r: Res<V>)
    requires i < |ops| && before == Prune(Run(eq, map[], ops[..i]).0, ops[i].0)
    requires (after, r) == Apply(eq, before, ops[i].0, ops[i].1)
    ensures Run(eq, map[], ops[..i + 1]) == (after, Run(eq, map[], ops[..i]).1 + [r])
  {
    assert ops[..i + 1][..i] == ops[..i];
  }

  // ---------------------------------------------------------------- pruning

  /** Time only takes cells away, so pruning early does no harm. */
  lemma PruneLater<K, V>(d: map<K, Cell<V>>, now: nat, later: nat)
    requires now <= later
    ensures Prune(Prune(d, now), later) == Prune(d, later)
  {
    assert forall k :: k in d && Alive(d[k], later) ==> Alive(d[k], now);
  }

  lemma PrunePut<K, V>(d: map<K, Cell<V>>, k: K, c: Cell<V>, now: nat)
    ensures Prune(d[k := c], now) == if Alive(c, now) then Prune(d, now)[k := c] else Prune(d, now) - {k}
  {
  }

  lemma PruneDrop<K, V>(d: map<K, Cell<V>>, k: K, now: nat)
    ensures Prune(d - {k}, now) == Prune(d, now) - {k}
  {
  }

  // ---------------------------------------------------------------- answers, on the whole dictionary

  // An operation that changes a dictionary with dead cells in it, and looks only at what is alive,
  // does what Apply does on the pruned one. `seen` is the value alive under the key, if any.

  lemma PutMeets<K, V>(eq: (V, V) -> bool, d: map<K, Cell<V>>, k: K, v: V, opt: EntryOptions, seen: Option<V>, now: nat)
    requires seen == Value(Prune(d, now), k)
    ensures
      var d' := Prune(d[k := NewCell(v, opt, now)], now);
      var p := Prune(d, now);
      && Apply(eq, p, now, Op.Store(k, v, opt)) == (d', Answer(None, true))
      && Apply(eq, p, now, Op.Swap(k, v, opt)) == (d', Answer(seen, seen.Some?))
      && Apply(eq, p, now, Op.LoadOrStore(k, v, opt))
           == (if seen.Some? then (p, Answer(seen, true)) else (d', Answer(Some(v), false)))
      && forall o :: Apply(eq, p, now, Op.CompareAndSwap(k, o, v, opt))
           == if seen.Some? && eq(seen.value, o) then (d', Answer(None, true)) else (p, Answer(None, false))
  {
    PrunePut(d, k, NewCell(v, opt, now), now);
  }

  lemma DeleteMeets<K, V>(eq: (V, V) -> bool, d: map<K, Cell<V>>, k: K, seen: Option<V>, now: nat)
    requires seen == Value(Prune(d, now), k)
    ensures
      var d' := Prune(d - {k}, now);
      var p := Prune(d, now);
      && Apply(eq, p, now, Op.Delete(k)) == (d', Answer(seen, seen.Some?))
      && forall o :: Apply(eq, p, now, Op.CompareAndDelete(k, o))
           == if seen.Some? && eq(seen.value, o) then (d', Answer(None, true)) else (p, Answer(None, false))
  {
    PruneDrop(d, k, now);
  }

  lemma ComputeMeets<K, V>(eq: (V, V) -> bool, d: map<K, Cell<V>>, k: K, fn: Option<V> -> Decision<V>,
      seen: Option<V>, now: nat)
    requires seen == Value(Prune(d, now), k)
    ensures
      var p := Prune(d, now);
      Apply(eq, p, now, Op.Compute(k, fn)) == match fn(seen)
        case Cancel => (p, Answer(seen, seen.Some?))
        case Update(v) => (Prune(d[k := NewCell(v, Plain, now)], now), Answer(Some(v), true))
        case Remove => (Prune(d - {k}, now), Answer(seen, false))
  {
    PruneDrop(d, k, now);
    if fn(seen).Update? {
      PrunePut(d, k, NewCell(fn(seen).v, Plain, now), now);
    }
  }

  lemma NotSeenUnless<K, V>(d: map<K, Cell<V>>, k: K, now: nat)
    ensures Value(Prune(d, now), k).Some? ==> k in d
  {
  }

  lemma NotSeen<K, V>(d: map<K, Cell<V>>, k: K, now: nat)
    requires k !in d
    ensures Value(Prune(d, now), k) == None
  {
  }

  lemma AbsentDrops<K, V>(d: map<K, Cell<V>>, k: K, now: nat)
    requires Value(Prune(d, now), k) == None
    ensures Prune(d - {k}, now) == Prune(d, now)
  {
    PruneDrop(d, k, now);
  }

  lemma ReadMeets<K, V>(eq: (V, V) -> bool, d: map<K, Cell<V>>, k: K, now: nat)
    ensures
      var p := Prune(d, now);
      var seen := Value(p, k);
      && Apply(eq, p, now, Op.Peek(k)) == (p, Answer(seen, seen.Some?))
      && Apply(eq, p, now, Op.Contains(k)) == (p, Answer(None, seen.Some?))
      && Apply(eq, p, now, Op.Load(k)) == (if k in p then Consume(p, k) else p, Answer(seen, seen.Some?))
  {
  }
}
