/** Whole runs of a `Map` shard with Range among the calls. A Range may leave the counters inexact;
  * what every call answers afterwards is still what the dictionary answers.
  */
module MapRun {
  import opened Options
  import opened Probe
  import opened Sizing
  import opened Dictionary
  import opened History
  import opened MapTable
  import opened RangeScan
  import opened MapShard

  datatype Call<!K, !V> = Do(op: Op<K, V>) | Range(more: seq<(K, V)> -> bool)

  /** An operation's answer, or the pairs a Range visited and whether the visitor took them all. */
  datatype Reply<K, V> = Answered(r: Res<V>) | Visited(pairs: seq<(K, V)>, whole: bool)

  /** The dictionary after a call; Range leaves it alone. */
  function Next<K, V>(eq: (V, V) -> bool, d: map<K, Cell<V>>, now: nat, call: Call<K, V>): map<K, Cell<V>> {
    match call
    case Do(op) => Apply(eq, d, now, op).0
    case Range(_) => d
  }

  /** The dictionary after a run. */
  function DictAfter<K, V>(eq: (V, V) -> bool, calls: seq<(nat, Call<K, V>)>): map<K, Cell<V>> {
    if calls == [] then map[] else
    var (now, call) := calls[|calls| - 1];
    Next(eq, Prune(DictAfter(eq, calls[..|calls| - 1]), now), now, call)
  }

  /** A visit of a dictionary: no key twice, each with its value, on to the next only if the visitor
    * wants more, and to the end if it always does. */
  ghost predicate Shows<K, V>(d: map<K, Cell<V>>, more: seq<(K, V)> -> bool, ps: seq<(K, V)>, whole: bool) {
    && (forall i, j :: 0 <= i < j < |ps| ==> ps[i].0 != ps[j].0)
    && (forall i :: 0 <= i < |ps| ==> ps[i].0 in d && d[ps[i].0].val == ps[i].1)
    && (forall n :: 0 < n < |ps| ==> more(ps[..n]))
    && (if whole then ps != [] ==> more(ps) else ps != [] && !more(ps))
    && (whole ==> forall k :: k in d ==> (k, d[k].val) in ps)
  }

  /** What a call may reply on a dictionary pruned to its time. */
  ghost predicate Meets<K, V>(eq: (V, V) -> bool, d: map<K, Cell<V>>, now: nat, call: Call<K, V>, reply: Reply<K, V>) {
    match call
    case Do(op) => reply == Answered(Apply(eq, d, now, op).1)
    case Range(more) => reply.Visited? && Shows(d, more, reply.pairs, reply.whole)
  }

  /** The plain scan of a table, cut by the visitor, is a visit of its dictionary. */
  lemma ScanShows<K, V>(t: Table<V, K>, d: map<K, Cell<V>>, now: nat, more: seq<(K, V)> -> bool)
    requires Unique(t) && Represents(t, d)
    ensures var (ps, whole) := Visit(more, [], Pairs(t, now)); Shows(Prune(d, now), more, ps, whole)
  {
    hide Visit, Pairs, Prune, Represents, Unique;
    var plain := Pairs(t, now);
    var (ps, whole) := Visit(more, [], plain);
    PairsAreView(t, d, now);
    VisitIsCut(more, [], plain);
    assert [] + plain == plain;
    forall n | 0 <= n <= |ps| ensures ps[..n] == plain[..n] {
    }
  }

  lemma TableShows<K, V>(shard: Shard<K, V>, now: nat, more: seq<(K, V)> -> bool)
    requires shard.Valid()
    ensures var (ps, whole) := Visit(more, [], Pairs(shard.table, now)); Shows(shard.View(now), more, ps, whole)
  {
    ScanShows(shard.table, shard.dict, now, more);
  }

  method Make<K(==), V>(shard: Shard<K, V>, now: nat, call: Call<K, V>) returns (reply: Reply<K, V>)
    requires shard.Valid() && (call.Do? ==> !call.op.Compute?)
    modifies shard, shard.Repr()
    ensures shard.Valid() && fresh(shard.Repr() - old(shard.Repr()))
    ensures shard.View(now) == Next(shard.valuesEqual, old(shard.View(now)), now, call)
    ensures Meets(shard.valuesEqual, old(shard.View(now)), now, call, reply)
  {
    hide Shard.Valid, Shard.View, Shard.CountersAfter, Apply, Visit, Pairs, Prune, Shows;
    match call {
      case Do(op) =>
        var r := shard.Do(now, op);
        reply := Answered(r);
      case Range(more) =>
        TableShows(shard, now, more);
        ghost var upto;
        var ps, whole;
        ps, whole, upto := shard.RangeShard(more, [], now);
        reply := Visited(ps, whole);
    }
  }

  /** After i calls the shard stands where the dictionary stands. */
  ghost predicate OnTrack<K, V>(shard: Shard<K, V>, eq: (V, V) -> bool, calls: seq<(nat, Call<K, V>)>, i: nat)
    requires i <= |calls|
    reads shard
  {
    i < |calls| ==> shard.View(calls[i].0) == Prune(DictAfter(eq, calls[..i]), calls[i].0)
  }

  /** The i-th reply is the dictionary's. */
  ghost predicate ReplyMeets<K, V>(eq: (V, V) -> bool, calls: seq<(nat, Call<K, V>)>, i: nat, reply: Reply<K, V>)
    requires i < |calls|
  {
    Meets(eq, Prune(DictAfter(eq, calls[..i]), calls[i].0), calls[i].0, calls[i].1, reply)
  }

  method MakeNext<K(==), V>(shard: Shard<K, V>, calls: seq<(nat, Call<K, V>)>, i: nat) returns (reply: Reply<K, V>)
    requires shard.Valid() && i < |calls| && OnTrack(shard, shard.valuesEqual, calls, i)
    requires calls[i].1.Do? ==> !calls[i].1.op.Compute?
    requires i + 1 < |calls| ==> calls[i].0 <= calls[i + 1].0
    modifies shard, shard.Repr()
    ensures shard.Valid() && fresh(shard.Repr() - old(shard.Repr())) && OnTrack(shard, shard.valuesEqual, calls, i + 1)
    ensures ReplyMeets(shard.valuesEqual, calls, i, reply)
  {
    hide Shard.Valid, Apply, Prune, Meets, Next;
    var (now, call) := calls[i];
    reply := Make(shard, now, call);
    assert calls[..i + 1][..i] == calls[..i];
    if i + 1 < |calls| {
      PruneLater(shard.dict, now, calls[i + 1].0);
    }
  }

  // ---------------------------------------------------------------- what the replies mean

  /** The run as the operations see it: a Range leaves everything as a cleanup does. */
  function OpsOf<K, V>(calls: seq<(nat, Call<K, V>)>): (ops: seq<(nat, Op<K, V>)>)
    ensures |ops| == |calls|
  {
    seq(|calls|, (i: nat) requires i < |calls| => (calls[i].0, if calls[i].1.Do? then calls[i].1.op else Op.CleanupNow))
  }

  function AnswersOf<K, V>(replies: seq<Reply<K, V>>): (rs: seq<Res<V>>)
    ensures |rs| == |replies|
  {
    seq(|replies|, (i: nat) requires i < |replies| =>
      if replies[i].Answered? then replies[i].r else Answer(None, true))
  }

  /** A visit of a map whose keys hold what `seen` says: no key twice, each with its value, on to the
    * next only if the visitor wants more, and every key if it always does. */
  ghost predicate ShowsAll<K(!new), V>(seen: K -> Option<V>, more: seq<(K, V)> -> bool, ps: seq<(K, V)>, whole: bool) {
    && (forall i, j :: 0 <= i < j < |ps| ==> ps[i].0 != ps[j].0)
    && (forall i :: 0 <= i < |ps| ==> seen(ps[i].0) == Some(ps[i].1))
    && (forall n :: 0 < n < |ps| ==> more(ps[..n]))
    && (if whole then ps != [] ==> more(ps) else ps != [] && !more(ps))
    && (whole ==> forall k :: seen(k).Some? ==> (k, seen(k).value) in ps)
  }

  /** Every operation was given the answer that the calls before it and their answers call for, and
    * every Range has shown what they left to be seen at its time. */
  ghost predicate Told<K(!new), V>(eq: (V, V) -> bool, calls: seq<(nat, Call<K, V>)>, replies: seq<Reply<K, V>>) {
    && |replies| == |calls| && (forall i :: 0 <= i < |calls| ==> (calls[i].1.Do? <==> replies[i].Answered?))
    && Explained(eq, OpsOf(calls), AnswersOf(replies))
    && (forall i :: 0 <= i < |calls| && calls[i].1.Range? ==>
          ShowsAll(Sight(calls, replies, i), calls[i].1.more, replies[i].pairs, replies[i].whole))
  }

  /** What each key holds for the i-th call. */
  function Sight<K(==), V>(calls: seq<(nat, Call<K, V>)>, replies: seq<Reply<K, V>>, i: nat): K -> Option<V>
    requires i < |calls| == |replies|
  {
    (k: K) => Seen(OpsOf(calls[..i]), AnswersOf(replies[..i]), k, calls[i].0)
  }

  lemma {:induction false} DictIsRun<K, V>(eq: (V, V) -> bool, calls: seq<(nat, Call<K, V>)>)
    ensures DictAfter(eq, calls) == Run(eq, map[], OpsOf(calls)).0
  {
    if calls != [] {
      var front := calls[..|calls| - 1];
      DictIsRun(eq, front);
      assert OpsOf(calls)[..|calls| - 1] == OpsOf(front);
    }
  }

  lemma AnswersAreRun<K, V>(eq: (V, V) -> bool, calls: seq<(nat, Call<K, V>)>, replies: seq<Reply<K, V>>)
    requires |replies| == |calls| && forall i :: 0 <= i < |calls| ==> ReplyMeets(eq, calls, i, replies[i])
    ensures AnswersOf(replies) == Run(eq, map[], OpsOf(calls)).1
  {
    var ops := OpsOf(calls);
    forall i | 0 <= i < |calls| ensures AnswersOf(replies)[i] == Run(eq, map[], ops).1[i] {
      RunPrefix(eq, ops, i);
      assert ops[..i] == OpsOf(calls[..i]);
      DictIsRun(eq, calls[..i]);
      assert ReplyMeets(eq, calls, i, replies[i]);
    }
  }

  lemma SightIs<K, V>(eq: (V, V) -> bool, calls: seq<(nat, Call<K, V>)>, replies: seq<Reply<K, V>>, i: nat, k: K)
    requires Rising(OpsOf(calls)) && AnswersOf(replies) == Run(eq, map[], OpsOf(calls)).1 && i < |calls| == |replies|
    ensures Sight(calls, replies, i)(k) == Value(Prune(DictAfter(eq, calls[..i]), calls[i].0), k)
  {
    var ops := OpsOf(calls);
    RunPrefix(eq, ops, i);
    assert ops[..i] == OpsOf(calls[..i]) && AnswersOf(replies)[..i] == AnswersOf(replies[..i]);
    assert i > 0 ==> ops[i - 1].0 <= ops[i].0;
    DictIsRun(eq, calls[..i]);
    SeenIsLeft(eq, ops[..i], k, calls[i].0, 0);
    assert Value(Prune(DictAfter(eq, calls[..i]), calls[i].0), k) == Left(DictAfter(eq, calls[..i]), k, calls[i].0, 0);
  }

  lemma MeetsIsTold<K(!new), V>(eq: (V, V) -> bool, calls: seq<(nat, Call<K, V>)>, replies: seq<Reply<K, V>>)
    requires Rising(OpsOf(calls)) && |replies| == |calls|
    requires forall i :: 0 <= i < |calls| ==> ReplyMeets(eq, calls, i, replies[i])
    ensures Told(eq, calls, replies)
  {
    hide Run, Sight, Rising, Explained;
    AnswersAreRun(eq, calls, replies);
    RunIsExplained(eq, OpsOf(calls), AnswersOf(replies));
    forall i | 0 <= i < |calls| && calls[i].1.Range?
      ensures ShowsAll(Sight(calls, replies, i), calls[i].1.more, replies[i].pairs, replies[i].whole)
    {
      assert ReplyMeets(eq, calls, i, replies[i]);
      forall k ensures Sight(calls, replies, i)(k) == Value(Prune(DictAfter(eq, calls[..i]), calls[i].0), k) {
        SightIs(eq, calls, replies, i, k);
      }
    }
  }

  /** Every sequential run of a new shard, Range included, with a clock that does not go back, replies
    * to every call what the calls before it and their replies call for. */
  method RunCalls<K(==, !new), V>(hash: K -> nat, keySize: K -> nat, typeWord: V -> nat, valuesEqual: (V, V) -> bool,
    loadFactor: real, capacity: int, calls: seq<(nat, Call<K, V>)>) returns (replies: seq<Reply<K, V>>)
    requires LoadFactor(loadFactor)
    requires forall i :: 0 <= i < |calls| && calls[i].1.Do? ==> !calls[i].1.op.Compute?
    requires forall i, j :: 0 <= i < j < |calls| ==> calls[i].0 <= calls[j].0
    ensures Told(valuesEqual, calls, replies)
  {
    hide Shard.Valid, Shard.Exact, Apply, ReplyMeets, Next;
    var shard := new Shard<K, V>(hash, keySize, typeWord, valuesEqual, loadFactor, capacity);
    replies := [];
    assert calls[..0] == [];
    hide Prune;
    for i := 0 to |calls|
      invariant fresh(shard) && fresh(shard.Repr()) && shard.Valid() && shard.valuesEqual == valuesEqual
      invariant OnTrack(shard, valuesEqual, calls, i) && |replies| == i
      invariant forall m :: 0 <= m < i ==> ReplyMeets(valuesEqual, calls, m, replies[m])
    {
      var reply := MakeNext(shard, calls, i);
      replies := replies + [reply];
    }
    MeetsIsTold(valuesEqual, calls, replies);
  }
}
