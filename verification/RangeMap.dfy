/** Range over the shards of a `Map`, as objects: each scan clears dead entries and may rebuild its
  * shard, and what is visited or collected is still what the plain scan of the tables that were
  * there before would give.
  */
module RangeMap {
  import opened Options
  import opened Dictionary
  import opened MapTable
  import opened MapShard
  import opened RangeScan
  import opened RangePipeline

  ghost function Footprint<K, V>(s: Shard<K, V>): set<object>
    reads s
  {
    var self: set<object> := {s};
    self + s.Repr()
  }

  ghost function AllOf<K, V>(shards: seq<Shard<K, V>>): set<object>
    reads shards
  {
    if shards == [] then {} else AllOf(shards[..|shards| - 1]) + Footprint(shards[|shards| - 1])
  }

  /** The shards are in order between operations, and share nothing. */
  ghost predicate Ready<K, V>(shards: seq<Shard<K, V>>)
    reads shards, AllOf(shards)
  {
    shards == [] ||
    var front, last := shards[..|shards| - 1], shards[|shards| - 1];
    Ready(front) && last.Valid() && AllOf(front) !! Footprint(last)
  }

  /** The pairs of each shard's plain scan. */
  ghost function AllPairs<K, V>(shards: seq<Shard<K, V>>, now: nat): seq<seq<(K, V)>>
    reads shards
  {
    if shards == [] then []
    else AllPairs(shards[..|shards| - 1], now) + [Pairs(shards[|shards| - 1].table, now)]
  }

  /** What a caller sees in each shard. */
  ghost function Views<K, V>(shards: seq<Shard<K, V>>, now: nat): seq<map<K, Cell<V>>>
    reads shards
  {
    if shards == [] then [] else Views(shards[..|shards| - 1], now) + [shards[|shards| - 1].View(now)]
  }

  lemma {:induction false} Members<K, V>(shards: seq<Shard<K, V>>)
    ensures forall s :: s in shards ==> s in AllOf(shards)
    ensures forall o :: o in AllOf(shards) ==> allocated(o)
  {
    if shards != [] {
      Members(shards[..|shards| - 1]);
    }
  }

  lemma {:induction false} Concat<K, V>(a: seq<Shard<K, V>>, b: seq<Shard<K, V>>, now: nat)
    ensures AllOf(a + b) == AllOf(a) + AllOf(b)
    ensures Ready(a + b) <==> Ready(a) && Ready(b) && AllOf(a) !! AllOf(b)
    ensures AllPairs(a + b, now) == AllPairs(a, now) + AllPairs(b, now)
    ensures Views(a + b, now) == Views(a, now) + Views(b, now)
  {
    hide Shard.Valid, Shard.View, Footprint, Pairs;
    if b == [] {
      assert a + b == a;
    } else {
      Concat(a, b[..|b| - 1], now);
      assert (a + b)[..|a + b| - 1] == a + b[..|b| - 1];
    }
  }

  lemma Single<K, V>(s: Shard<K, V>, now: nat)
    ensures AllOf([s]) == Footprint(s) && (Ready([s]) <==> s.Valid())
    ensures AllPairs([s], now) == [Pairs(s.table, now)] && Views([s], now) == [s.View(now)]
  {
    hide Shard.Valid, Shard.View, Footprint, Pairs;
    assert [s][..0] == [];
  }

  /** Scan one shard; those already scanned and those still to be scanned stay as they are. */
  method RangeOne<K(==), V>(ghost done: seq<Shard<K, V>>, s: Shard<K, V>, ghost rest: seq<Shard<K, V>>,
    more: seq<(K, V)> -> bool, seen: seq<(K, V)>, now: nat) returns (visited: seq<(K, V)>, go: bool)
    requires Ready(done) && s.Valid() && Ready(rest)
    requires AllOf(done) !! Footprint(s) && AllOf(done) !! AllOf(rest) && Footprint(s) !! AllOf(rest)
    modifies Footprint(s)
    ensures Ready(done) && s.Valid() && Ready(rest)
    ensures AllOf(done) == old(AllOf(done)) && AllOf(rest) == old(AllOf(rest))
    ensures AllOf(done) !! Footprint(s) && Footprint(s) !! AllOf(rest)
    ensures fresh(Footprint(s) - old(Footprint(s))) && s.View(now) == old(s.View(now))
    ensures AllPairs(rest, now) == old(AllPairs(rest, now))
    ensures Views(done, now) == old(Views(done, now)) && Views(rest, now) == old(Views(rest, now))
    ensures (visited, go) == Visit(more, seen, Pairs(old(s.table), now))
  {
    Members(done);
    Members(rest);
    hide Shard.Valid, Shard.View, Shard.CountersAfter, Visit, Pairs, Ready, AllOf, AllPairs, Views;
    ghost var upto;
    visited, go, upto := s.RangeShard(more, seen, now);
  }

  /** A loop over the shards has come to the i-th: the others are as they were. */
  ghost predicate Reached<K, V>(shards: seq<Shard<K, V>>, i: nat, plain: seq<seq<(K, V)>>, views: seq<map<K,
      Cell<V>>>, now: nat)
    requires i <= |shards|
    reads shards[..i], shards[i..], AllOf(shards[..i]), AllOf(shards[i..])
  {
    && Ready(shards[..i]) && Ready(shards[i..]) && AllOf(shards[..i]) !! AllOf(shards[i..])
    && |plain| == |views| == |shards| && AllPairs(shards[i..], now) == plain[i..]
    && Views(shards[..i], now) == views[..i] && Views(shards[i..], now) == views[i..]
  }

  lemma Reaches<K, V>(shards: seq<Shard<K, V>>, now: nat)
    requires Ready(shards)
    ensures Reached(shards, 0, AllPairs(shards, now), Views(shards, now), now)
  {
    assert shards[..0] == [] && shards[0..] == shards;
  }

  lemma AtHead<K, V>(shards: seq<Shard<K, V>>, i: nat, plain: seq<seq<(K, V)>>, views: seq<map<K, Cell<V>>>, now: nat)
    requires i < |shards| && Reached(shards, i, plain, views, now)
    ensures var done, s, rest := shards[..i], shards[i], shards[i + 1..];
      && s.Valid() && Ready(rest) && AllOf(shards[i..]) == Footprint(s) + AllOf(rest)
      && AllOf(done) !! Footprint(s) && AllOf(done) !! AllOf(rest) && Footprint(s) !! AllOf(rest)
      && Pairs(s.table, now) == plain[i] && s.View(now) == views[i]
      && AllPairs(rest, now) == plain[i + 1..] && Views(rest, now) == views[i + 1..]
  {
    hide Shard.Valid, Shard.View, Footprint, Ready, AllOf, AllPairs, Views, Pairs;
    var s, rest := shards[i], shards[i + 1..];
    assert shards[i..] == [s] + rest;
    assert plain[i..] == [plain[i]] + plain[i + 1..] && views[i..] == [views[i]] + views[i + 1..];
    Concat([s], rest, now);
    Single(s, now);
    assert plain[i..][0] == Pairs(s.table, now) && views[i..][0] == s.View(now);
    assert AllPairs(rest, now) == plain[i..][1..] && Views(rest, now) == views[i..][1..];
  }

  lemma Passed<K, V>(shards: seq<Shard<K, V>>, i: nat, plain: seq<seq<(K, V)>>, views: seq<map<K, Cell<V>>>, now: nat)
    requires i < |shards| == |plain| == |views|
    requires Ready(shards[..i]) && shards[i].Valid() && Ready(shards[i + 1..])
    requires AllOf(shards[..i]) !! Footprint(shards[i])
    requires AllOf(shards[..i]) !! AllOf(shards[i + 1..]) && Footprint(shards[i]) !! AllOf(shards[i + 1..])
    requires AllPairs(shards[i + 1..], now) == plain[i + 1..] && Views(shards[i + 1..], now) == views[i + 1..]
    requires Views(shards[..i], now) == views[..i] && shards[i].View(now) == views[i]
    ensures Reached(shards, i + 1, plain, views, now)
    ensures AllOf(shards[..i + 1]) == AllOf(shards[..i]) + Footprint(shards[i])
  {
    hide Shard.Valid, Shard.View, Footprint, Ready, AllOf, AllPairs, Views, Pairs;
    assert shards[..i + 1] == shards[..i] + [shards[i]] && views[..i + 1] == views[..i] + [views[i]];
    Concat(shards[..i], [shards[i]], now);
    Single(shards[i], now);
  }

  lemma Joined<K, V>(shards: seq<Shard<K, V>>, i: nat, plain: seq<seq<(K, V)>>, views: seq<map<K, Cell<V>>>, now: nat)
    requires i <= |shards| && Reached(shards, i, plain, views, now)
    ensures Ready(shards) && AllOf(shards) == AllOf(shards[..i]) + AllOf(shards[i..]) && Views(shards, now) == views
  {
    hide Shard.Valid, Shard.View, Footprint, Ready, AllOf, AllPairs, Views, Pairs;
    assert shards[..i] + shards[i..] == shards && views[..i] + views[i..] == views;
    Concat(shards[..i], shards[i..], now);
  }

  method RangeNext<K(==), V>(shards: seq<Shard<K, V>>, i: nat, more: seq<(K, V)> -> bool, seen: seq<(K, V)>,
    ghost plain: seq<seq<(K, V)>>, ghost views: seq<map<K, Cell<V>>>, now: nat) returns (visited: seq<(K, V)>, go: bool)
    requires i < |shards| && Reached(shards, i, plain, views, now)
    modifies AllOf(shards[i..])
    ensures Reached(shards, i + 1, plain, views, now) && (visited, go) == Visit(more, seen, plain[i])
    ensures AllOf(shards[i + 1..]) <= old(AllOf(shards[i..]))
    ensures fresh(AllOf(shards[..i + 1]) - old(AllOf(shards[..i])) - old(AllOf(shards[i..])))
  {
    AtHead(shards, i, plain, views, now);
    hide Shard.Valid, Shard.View, Footprint, Ready, AllOf, AllPairs, Views, Visit, Pairs;
    visited, go := RangeOne(shards[..i], shards[i], shards[i + 1..], more, seen, now);
    hide Reached;
    Passed(shards, i, plain, views, now);
  }

  /** Range below the threshold: one shard after the other until the visitor says no. */
  method RangeAll<K(==), V>(shards: seq<Shard<K, V>>, more: seq<(K, V)> -> bool, now: nat)
    returns (visited: seq<(K, V)>, go: bool)
    requires Ready(shards)
    modifies AllOf(shards)
    ensures Ready(shards) && fresh(AllOf(shards) - old(AllOf(shards))) && Views(shards, now) == old(Views(shards, now))
    ensures (visited, go) == ShardByShard(more, old(AllPairs(shards, now)))
  {
    hide *;
    ghost var plain, views := AllPairs(shards, now), Views(shards, now);
    Reaches(shards, now);
    visited, go := [], true;
    NoShards(more, plain);
    Joined(shards, 0, plain, views, now);
    var i := 0;
    while i < |shards| && go
      invariant i <= |shards| && Reached(shards, i, plain, views, now)
      invariant AllOf(shards[i..]) <= old(AllOf(shards)) && fresh(AllOf(shards[..i]) - old(AllOf(shards)))
      invariant (visited, go) == ShardByShard(more, plain[..i])
    {
      NextShard(more, plain, i);
      visited, go := RangeNext(shards, i, more, visited, plain, views, now);
      i := i + 1;
    }
    Joined(shards, i, plain, views, now);
    Stopped(more, plain, i);
  }

  lemma NoShards<P>(more: seq<P> -> bool, ps: seq<seq<P>>)
    ensures ShardByShard(more, ps[..0]) == ([], true)
  {
  }

  lemma NextShard<P>(more: seq<P> -> bool, ps: seq<seq<P>>, i: nat)
    requires i < |ps| && ShardByShard(more, ps[..i]).1
    ensures ShardByShard(more, ps[..i + 1]) == Visit(more, ShardByShard(more, ps[..i]).0, ps[i])
  {
    assert ps[..i + 1][..i] == ps[..i];
  }

  /** Once a visitor has said no the shards behind do not count. */
  lemma {:induction false} Stopped<P>(more: seq<P> -> bool, ps: seq<seq<P>>, i: nat)
    requires i <= |ps|
    ensures !ShardByShard(more, ps[..i]).1 || i == |ps| ==> ShardByShard(more, ps) == ShardByShard(more, ps[..i])
  {
    if i < |ps| {
      Stopped(more, ps[..|ps| - 1], i);
      assert ps[..|ps| - 1][..i] == ps[..i];
    } else {
      assert ps[..i] == ps;
    }
  }

  /** rangeShardsCollect: a worker's slab gets the pairs of its shards in order. */
  method Collect<K(==), V>(shards: seq<Shard<K, V>>, now: nat) returns (slab: seq<(K, V)>)
    requires Ready(shards)
    modifies AllOf(shards)
    ensures Ready(shards) && fresh(AllOf(shards) - old(AllOf(shards))) && Views(shards, now) == old(Views(shards, now))
    ensures slab == Flat(old(AllPairs(shards, now)))
  {
    hide *;
    ghost var plain := AllPairs(shards, now);
    var always: seq<(K, V)> -> bool := _ => true;
    var go;
    slab, go := RangeAll(shards, always, now);
    ShardByShardIsPlain(always, plain);
    VisitAll(always, [], Flat(plain));
  }

  /** The shards of worker w. */
  function SliceOf<K, V>(shards: seq<Shard<K, V>>, workers: nat, w: nat): seq<Shard<K, V>>
    requires w < workers
  {
    SlicesCover(|shards|, workers);
    shards[Start(|shards|, workers, w)..Start(|shards|, workers, w + 1)]
  }

  /** A worker's shards are in order, their pairs are the worker's share of all pairs, and no part of
    * them belongs to another worker. */
  lemma WorkersShareNothing<K, V>(shards: seq<Shard<K, V>>, workers: nat, w: nat, now: nat)
    requires Ready(shards) && w < workers
    ensures Ready(SliceOf(shards, workers, w)) && |AllPairs(shards, now)| == |shards|
    ensures AllPairs(SliceOf(shards, workers, w), now) == Slice(AllPairs(shards, now), workers, w)
    ensures forall v :: w < v < workers ==> AllOf(SliceOf(shards, workers, w)) !! AllOf(SliceOf(shards, workers, v))
  {
    hide *;
    ShareIs(shards, AllPairs(shards, now), workers, w, now);
    forall v | w < v < workers ensures AllOf(SliceOf(shards, workers, w)) !! AllOf(SliceOf(shards, workers, v)) {
      ShareIs(shards, AllPairs(shards, now), workers, v, now);
      StartsRise(|shards|, workers, w + 1, v);
      var a, b := Start(|shards|, workers, w), Start(|shards|, workers, w + 1);
      var c, d := Start(|shards|, workers, v), Start(|shards|, workers, v + 1);
      Apart(shards, a, b, c, d, now);
    }
  }

  lemma ShareIs<K, V>(shards: seq<Shard<K, V>>, plain: seq<seq<(K, V)>>, workers: nat, w: nat, now: nat)
    requires Ready(shards) && w < workers && plain == AllPairs(shards, now)
    ensures var a, b := Start(|shards|, workers, w), Start(|shards|, workers, w + 1);
      && a <= b <= |shards| && SliceOf(shards, workers, w) == shards[a..b] && Ready(shards[a..b])
      && |plain| == |shards| && Slice(plain, workers, w) == AllPairs(shards[a..b], now)
  {
    SlicesCover(|shards|, workers);
    hide Ready, AllOf, AllPairs, Start;
    Part(shards, Start(|shards|, workers, w), Start(|shards|, workers, w + 1), now);
  }

  lemma {:induction false} Lengths<K, V>(shards: seq<Shard<K, V>>, now: nat)
    ensures |AllPairs(shards, now)| == |shards|
  {
    if shards != [] {
      Lengths(shards[..|shards| - 1], now);
    }
  }

  lemma Part<K, V>(shards: seq<Shard<K, V>>, a: nat, b: nat, now: nat)
    requires Ready(shards) && a <= b <= |shards|
    ensures Ready(shards[a..b]) && |AllPairs(shards, now)| == |shards|
    ensures AllPairs(shards[a..b], now) == AllPairs(shards, now)[a..b]
    ensures AllOf(shards[..a]) !! AllOf(shards[a..b]) && AllOf(shards[a..b]) !! AllOf(shards[b..])
  {
    hide *;
    assert shards == shards[..b] + shards[b..] && shards[..b] == shards[..a] + shards[a..b];
    Concat(shards[..b], shards[b..], now);
    Concat(shards[..a], shards[a..b], now);
    Lengths(shards, now);
    Lengths(shards[..a], now);
    Lengths(shards[a..b], now);
  }

  lemma Apart<K, V>(shards: seq<Shard<K, V>>, a: nat, b: nat, c: nat, d: nat, now: nat)
    requires Ready(shards) && a <= b <= c <= d <= |shards|
    ensures AllOf(shards[a..b]) !! AllOf(shards[c..d])
  {
    hide *;
    Part(shards, a, b, now);
    assert shards[b..] == shards[b..c] + (shards[c..d] + shards[d..]);
    Concat(shards[b..c], shards[c..d] + shards[d..], now);
    Concat(shards[c..d], shards[d..], now);
  }
}
