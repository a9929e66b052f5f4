/** Range over many shards: one after the other, or by workers that each collect a contiguous slice
  * of shards into a slab while the caller's goroutine visits the slabs that are ready, in order.
  *
  * Nobody else uses the map, so a shard's pairs are those of its plain scan at any time; RangeMap
  * proves that of the shards themselves.
  */
module RangePipeline {
  import opened Sizing
  import opened RangeScan

  // ---------------------------------------------------------------- dividing the shards

  const MIN_RANGE_ENTRIES_PER_WORKER := 2048

  /** So many workers have a processor's share and work enough. */
  predicate Allowed(x: int, procs: nat, totalLive: nat) {
    x <= procs * 4 && x * MIN_RANGE_ENTRIES_PER_WORKER <= totalLive
  }

  /** The largest count that leaves no worker without a shard, and that is allowed if it is not 1. */
  function WorkerCount(shards: nat, procs: nat, totalLive: nat): (w: nat)
    requires shards > 0 && procs > 0
    ensures 1 <= w <= shards
    ensures forall x :: 1 <= x <= shards && (x == 1 || Allowed(x, procs, totalLive)) <==> 1 <= x <= w
  {
    var byProcs := if procs * 4 > shards then shards else procs * 4;
    var byWork := totalLive / MIN_RANGE_ENTRIES_PER_WORKER;
    Max(1, if byProcs > byWork then byWork else byProcs)
  }

  /** The first shard of worker w, as the loop that starts the workers adds it up. */
  function Start(shards: nat, workers: nat, w: nat): nat
    requires workers > 0
  {
    if w == 0 then 0
    else Start(shards, workers, w - 1) + shards / workers + if w - 1 < shards % workers then 1 else 0
  }

  lemma {:induction false} StartIs(shards: nat, workers: nat, w: nat)
    requires workers > 0
    ensures Start(shards, workers, w) == w * (shards / workers) + if w < shards % workers then w else shards % workers
  {
    if w > 0 {
      StartIs(shards, workers, w - 1);
      assert w * (shards / workers) == (w - 1) * (shards / workers) + shards / workers;
    }
  }

  /** The slices follow each other without a gap and end with the last shard. */
  lemma SlicesCover(shards: nat, workers: nat)
    requires workers > 0
    ensures Start(shards, workers, workers) == shards
    ensures forall w :: 0 <= w <= workers ==> Start(shards, workers, w) <= shards
    ensures forall w :: 0 <= w < workers ==> Start(shards, workers, w) <= Start(shards, workers, w + 1)
  {
    StartIs(shards, workers, workers);
    forall w | 0 <= w <= workers ensures Start(shards, workers, w) <= Start(shards, workers, workers) {
      StartsRise(shards, workers, w, workers);
    }
  }

  lemma StartOn(shards: nat, workers: nat, w: nat)
    requires workers > 0
    ensures w > 0 ==> Start(shards, workers, w - 1) <= Start(shards, workers, w)
  {
  }

  lemma {:induction false} StartsRise(shards: nat, workers: nat, v: nat, w: nat)
    requires workers > 0 && v <= w
    ensures Start(shards, workers, v) <= Start(shards, workers, w)
  {
    StartOn(shards, workers, w);
    hide Start;
    if v < w {
      StartsRise(shards, workers, v, w - 1);
    }
  }

  /** No worker gets more than one shard more than another. */
  lemma SlicesAreEven(shards: nat, workers: nat, v: nat, w: nat)
    requires v < workers && w < workers
    ensures var (a, b) := (Start(shards, workers, v + 1) - Start(shards, workers, v),
                           Start(shards, workers, w + 1) - Start(shards, workers, w));
      -1 <= a - b <= 1
  {
  }

  function Slice<P>(shards: seq<seq<P>>, workers: nat, w: nat): seq<seq<P>>
    requires 0 <= w < workers
  {
    SlicesCover(|shards|, workers);
    shards[Start(|shards|, workers, w)..Start(|shards|, workers, w + 1)]
  }

  /** The pairs of several shards, shard by shard. */
  function Flat<P>(shards: seq<seq<P>>): seq<P> {
    if shards == [] then [] else Flat(shards[..|shards| - 1]) + shards[|shards| - 1]
  }

  lemma {:induction false} FlatConcat<P>(a: seq<seq<P>>, b: seq<seq<P>>)
    ensures Flat(a + b) == Flat(a) + Flat(b)
  {
    if b == [] {
      assert a + b == a;
    } else {
      FlatConcat(a, b[..|b| - 1]);
      assert (a + b)[..|a + b| - 1] == a + b[..|b| - 1];
    }
  }

  /** The shards before worker w + 1 are those before w and w's own. */
  lemma SliceExtends<P>(shards: seq<seq<P>>, workers: nat, w: nat)
    requires w < workers
    ensures Start(|shards|, workers, w) <= Start(|shards|, workers, w + 1) <= |shards|
    ensures Flat(shards[..Start(|shards|, workers, w + 1)])
      == Flat(shards[..Start(|shards|, workers, w)]) + Flat(Slice(shards, workers, w))
  {
    SlicesCover(|shards|, workers);
    var a, b := Start(|shards|, workers, w), Start(|shards|, workers, w + 1);
    assert shards[..b] == shards[..a] + shards[a..b];
    FlatConcat(shards[..a], shards[a..b]);
  }

  // ---------------------------------------------------------------- one after the other

  /** Range below the threshold: rangeShardSequential on each shard until one says stop. */
  function ShardByShard<P>(more: seq<P> -> bool, shards: seq<seq<P>>): (seq<P>, bool) {
    if shards == [] then ([], true) else
    var (v, go) := ShardByShard(more, shards[..|shards| - 1]);
    if go then Visit(more, v, shards[|shards| - 1]) else (v, false)
  }

  lemma {:induction false} ShardByShardIsPlain<P>(more: seq<P> -> bool, shards: seq<seq<P>>)
    ensures ShardByShard(more, shards) == Visit(more, [], Flat(shards))
  {
    if shards != [] {
      ShardByShardIsPlain(more, shards[..|shards| - 1]);
      VisitConcat(more, [], Flat(shards[..|shards| - 1]), shards[|shards| - 1]);
    }
  }

  // ---------------------------------------------------------------- the pipeline

  /** A worker is at pair `at` of the `next`-th shard of its slice, has a slab, and may have raised
    * its flag. */
  datatype Worker<P> = Worker(next: nat, at: nat, slab: seq<P>, ready: bool)

  /** The visiting goroutine waits for worker w, reads pair i of its slab, or is through. */
  datatype Main = Waiting(w: nat) | Reading(w: nat, i: nat) | Finished(go: bool)

  datatype State<P> = State(workers: seq<Worker<P>>, main: Main, visited: seq<P>)

  datatype Actor = Visitor | Work(w: nat)

  function Init<P>(workers: nat): State<P> {
    State(seq(workers, _ => Worker(0, 0, [], false)), Waiting(0), [])
  }

  /** Collect one pair, go on to the next shard, or raise the flag. */
  function WorkerStep<P>(shards: seq<seq<P>>, s: State<P>, w: nat): (r: State<P>)
    requires w < |s.workers|
    ensures |r.workers| == |s.workers|
  {
    var slice, me := Slice(shards, |s.workers|, w), s.workers[w];
    var me' :=
      if me.next >= |slice| then me.(ready := true)
      else if me.at < |slice[me.next]| then me.(at := me.at + 1, slab := me.slab + [slice[me.next][me.at]])
      else me.(next := me.next + 1, at := 0);
    s.(workers := s.workers[w := me'])
  }

  function MainStep<P>(more: seq<P> -> bool, s: State<P>): (r: State<P>)
    ensures |r.workers| == |s.workers|
  {
    match s.main
    case Waiting(w) =>
      if w >= |s.workers| then s.(main := Finished(true))
      else if s.workers[w].ready then s.(main := Reading(w, 0))
      else s
    case Reading(w, i) =>
      if w < |s.workers| && i < |s.workers[w].slab| then
        var v := s.visited + [s.workers[w].slab[i]];
        State(s.workers, if more(v) then Reading(w, i + 1) else Finished(false), v)
      else s.(main := Waiting(w + 1))
    case Finished(_) => s
  }

  function Step<P>(more: seq<P> -> bool, shards: seq<seq<P>>, s: State<P>, a: Actor): (r: State<P>)
    ensures |r.workers| == |s.workers|
  {
    match a
    case Visitor => MainStep(more, s)
    case Work(w) => if w < |s.workers| then WorkerStep(shards, s, w) else s
  }

  function Run<P>(more: seq<P> -> bool, shards: seq<seq<P>>, workers: nat, schedule: seq<Actor>): (r: State<P>)
    ensures |r.workers| == workers
  {
    if schedule == [] then Init(workers)
    else Step(more, shards, Run(more, shards, workers, schedule[..|schedule| - 1]), schedule[|schedule| - 1])
  }

  /** A worker's slab holds the pairs it has come past, and a raised flag means all of the slice. */
  ghost predicate SlabOk<P>(slice: seq<seq<P>>, me: Worker<P>) {
    && me.next <= |slice| && (if me.next < |slice| then me.at <= |slice[me.next]| else me.at == 0)
    && me.slab == Flat(slice[..me.next]) + (if me.next < |slice| then slice[me.next][..me.at] else [])
    && (me.ready ==> me.next == |slice|)
  }

  ghost predicate SlabsOk<P>(shards: seq<seq<P>>, s: State<P>) {
    forall w :: 0 <= w < |s.workers| ==> SlabOk(Slice(shards, |s.workers|, w), s.workers[w])
  }

  lemma FullSlab<P>(slice: seq<seq<P>>, me: Worker<P>)
    requires SlabOk(slice, me) && me.ready
    ensures me.slab == Flat(slice)
  {
    assert slice[..|slice|] == slice;
  }

  /** The pairs of the shards before worker w. */
  function Before<P>(shards: seq<seq<P>>, workers: nat, w: nat): seq<P>
    requires w <= workers && workers > 0
  {
    SlicesCover(|shards|, workers);
    Flat(shards[..Start(|shards|, workers, w)])
  }

  ghost predicate MainOk<P>(more: seq<P> -> bool, shards: seq<seq<P>>, s: State<P>) {
    var n := |s.workers|;
    && n > 0
    && match s.main
       case Waiting(w) => w <= n && Visit(more, [], Before(shards, n, w)) == (s.visited, true)
       case Reading(w, i) =>
         && w < n && s.workers[w].ready && i <= |s.workers[w].slab|
         && Visit(more, [], Before(shards, n, w) + s.workers[w].slab[..i]) == (s.visited, true)
       case Finished(go) => Visit(more, [], Flat(shards)) == (s.visited, go)
  }

  lemma CollectKeeps<P>(slice: seq<seq<P>>, me: Worker<P>)
    requires SlabOk(slice, me) && me.next < |slice|
    ensures me.at < |slice[me.next]| ==> SlabOk(slice, me.(at := me.at + 1, slab := me.slab + [slice[me.next][me.at]]))
    ensures me.at == |slice[me.next]| ==> SlabOk(slice, me.(next := me.next + 1, at := 0))
  {
    var shard := slice[me.next];
    if me.at < |shard| {
      assert shard[..me.at + 1] == shard[..me.at] + [shard[me.at]];
    } else {
      assert shard[..me.at] == shard;
      assert slice[..me.next + 1][..me.next] == slice[..me.next];
    }
  }

  lemma WorkerKeeps<P>(more: seq<P> -> bool, shards: seq<seq<P>>, s: State<P>, w: nat)
    requires SlabsOk(shards, s) && MainOk(more, shards, s) && w < |s.workers|
    ensures SlabsOk(shards, WorkerStep(shards, s, w)) && MainOk(more, shards, WorkerStep(shards, s, w))
  {
    hide Slice, Visit, Before;
    var slice, me := Slice(shards, |s.workers|, w), s.workers[w];
    if me.next < |slice| { CollectKeeps(slice, me); }
  }

  lemma ReadKeeps<P>(more: seq<P> -> bool, shards: seq<seq<P>>, s: State<P>, w: nat, i: nat)
    requires SlabsOk(shards, s) && MainOk(more, shards, s) && s.main == Reading(w, i)
    ensures MainOk(more, shards, MainStep(more, s))
  {
    hide Slice, Before, Flat, SlabsOk, SlabOk, Visit;
    var n := |s.workers|;
    var before, slab := Before(shards, n, w), s.workers[w].slab;
    ReadySlab(shards, s, w);
    SliceIsNext(shards, n, w);
    if i < |slab| {
      VisitOneMore(more, before, slab, i);
      RestIsCut(more, shards, n, w, slab, i);
    } else {
      assert slab[..i] == slab;
    }
  }

  lemma ReadySlab<P>(shards: seq<seq<P>>, s: State<P>, w: nat)
    requires SlabsOk(shards, s) && w < |s.workers| && s.workers[w].ready
    ensures s.workers[w].slab == Flat(Slice(shards, |s.workers|, w))
  {
    FullSlab(Slice(shards, |s.workers|, w), s.workers[w]);
  }

  lemma VisitOneMore<P>(more: seq<P> -> bool, before: seq<P>, slab: seq<P>, i: nat)
    requires i < |slab|
    ensures var (v, go) := Visit(more, [], before + slab[..i]);
      go ==> Visit(more, [], before + slab[..i + 1]) == (v + [slab[i]], more(v + [slab[i]]))
  {
    var a := before + slab[..i];
    assert before + slab[..i + 1] == a + [slab[i]];
    assert (a + [slab[i]])[..|a|] == a;
  }

  lemma SliceIsNext<P>(shards: seq<seq<P>>, n: nat, w: nat)
    requires w < n
    ensures Before(shards, n, w + 1) == Before(shards, n, w) + Flat(Slice(shards, n, w))
  {
    SliceExtends(shards, n, w);
  }

  lemma MainKeeps<P>(more: seq<P> -> bool, shards: seq<seq<P>>, s: State<P>)
    requires SlabsOk(shards, s) && MainOk(more, shards, s)
    ensures SlabsOk(shards, MainStep(more, s)) && MainOk(more, shards, MainStep(more, s))
  {
    var n := |s.workers|;
    SlicesCover(|shards|, n);
    match s.main {
      case Waiting(w) =>
        if w == n {
          assert shards[..|shards|] == shards;
        } else if s.workers[w].ready {
          assert Before(shards, n, w) + s.workers[w].slab[..0] == Before(shards, n, w);
        }
      case Reading(w, i) =>
        ReadKeeps(more, shards, s, w, i);
      case Finished(_) =>
    }
  }

  /** If the visitor stops within a slab, nothing behind counts. */
  lemma RestIsCut<P>(more: seq<P> -> bool, shards: seq<seq<P>>, n: nat, w: nat, slab: seq<P>, i: nat)
    requires w < n && slab == Flat(Slice(shards, n, w)) && i < |slab|
    ensures var part := Before(shards, n, w) + slab[..i + 1];
      !Visit(more, [], part).1 ==> Visit(more, [], Flat(shards)) == Visit(more, [], part)
  {
    SlicesCover(|shards|, n);
    SliceExtends(shards, n, w);
    var b := Start(|shards|, n, w + 1);
    assert shards == shards[..b] + shards[b..];
    FlatConcat(shards[..b], shards[b..]);
    var part := Before(shards, n, w) + slab[..i + 1];
    assert Flat(shards) == part + (slab[i + 1..] + Flat(shards[b..]));
    VisitConcat(more, [], part, slab[i + 1..] + Flat(shards[b..]));
  }

  lemma {:induction false} RunKeeps<P>(more: seq<P> -> bool, shards: seq<seq<P>>, workers: nat, schedule: seq<Actor>)
    requires workers > 0
    ensures SlabsOk(shards, Run(more, shards, workers, schedule))
    ensures MainOk(more, shards, Run(more, shards, workers, schedule))
  {
    if schedule == [] {
      assert shards[..0] == [];
    } else {
      RunKeeps(more, shards, workers, schedule[..|schedule| - 1]);
      var before, a := Run(more, shards, workers, schedule[..|schedule| - 1]), schedule[|schedule| - 1];
      match a {
        case Visitor => MainKeeps(more, shards, before);
        case Work(w) => if w < workers { WorkerKeeps(more, shards, before, w); }
      }
    }
  }

  /** Whatever the number of workers and however they interleave: once the visiting goroutine is
    * through, it has visited what a plain scan over all shards visits, in the same order and cut at
    * the same pair; and it never reads a slab that its worker is still filling. */
  lemma PipelineIsPlain<P>(more: seq<P> -> bool, shards: seq<seq<P>>, workers: nat, schedule: seq<Actor>)
    requires workers > 0
    ensures var s := Run(more, shards, workers, schedule);
      && (s.main.Finished? ==> (s.visited, s.main.go) == ShardByShard(more, shards))
      && (s.main.Reading? ==> s.main.w < workers && s.workers[s.main.w].slab == Flat(Slice(shards, workers, s.main.w)))
  {
    RunKeeps(more, shards, workers, schedule);
    ShardByShardIsPlain(more, shards);
    var s := Run(more, shards, workers, schedule);
    if s.main.Reading? {
      ReadySlab(shards, s, s.main.w);
    }
  }

  // ---------------------------------------------------------------- nobody is stuck

  /** What a worker has left to do. */
  function WorkLeft<P>(slice: seq<seq<P>>, me: Worker<P>): int {
    if me.ready then 0 else 1 + |slice| - me.next + |Flat(slice)| - |me.slab|
  }

  /** Each step of a worker that has not raised its flag leaves it less to do. */
  lemma WorkerMovesOn<P>(more: seq<P> -> bool, shards: seq<seq<P>>, workers: nat, schedule: seq<Actor>, w: nat)
    requires w < workers
    ensures var s := Run(more, shards, workers, schedule);
      var (me, me') := (s.workers[w], WorkerStep(shards, s, w).workers[w]);
      WorkLeft(Slice(shards, workers, w), me) >= 0
      && (!me.ready ==> WorkLeft(Slice(shards, workers, w), me') < WorkLeft(Slice(shards, workers, w), me))
  {
    RunKeeps(more, shards, workers, schedule);
    var s := Run(more, shards, workers, schedule);
    SlabIsPart(Slice(shards, workers, w), s.workers[w]);
    hide Slice, Flat, Visit;
  }

  lemma SlabIsPart<P>(slice: seq<seq<P>>, me: Worker<P>)
    requires SlabOk(slice, me)
    ensures |me.slab| <= |Flat(slice)|
  {
    assert slice[..me.next] + slice[me.next..] == slice;
    FlatConcat(slice[..me.next], slice[me.next..]);
    if me.next < |slice| {
      assert slice[me.next..] == [slice[me.next]] + slice[me.next + 1..];
      FlatConcat([slice[me.next]], slice[me.next + 1..]);
      assert [slice[me.next]][..0] == [];
    }
  }

  /** The pairs of worker w's shards and of all behind. */
  function Behind<P>(shards: seq<seq<P>>, workers: nat, w: nat): seq<P>
    requires w <= workers && workers > 0
  {
    SlicesCover(|shards|, workers);
    Flat(shards[Start(|shards|, workers, w)..])
  }

  /** What the visiting goroutine has left to do. */
  function VisitLeft<P>(shards: seq<seq<P>>, s: State<P>): int
    requires |s.workers| > 0
  {
    var n := |s.workers|;
    match s.main
    case Waiting(w) => if w <= n then 1 + 2 * (n - w) + |Behind(shards, n, w)| else 1
    case Reading(w, i) => if w <= n then 2 * (n - w) + |Behind(shards, n, w)| - i else 1
    case Finished(_) => 0
  }

  lemma BehindSplits<P>(shards: seq<seq<P>>, workers: nat, w: nat)
    requires w < workers
    ensures Behind(shards, workers, w) == Flat(Slice(shards, workers, w)) + Behind(shards, workers, w + 1)
  {
    SlicesCover(|shards|, workers);
    var a, b := Start(|shards|, workers, w), Start(|shards|, workers, w + 1);
    assert shards[a..] == shards[a..b] + shards[b..];
    FlatConcat(shards[a..b], shards[b..]);
  }

  /** Each step of the visiting goroutine leaves it less to do, unless it is through or the worker it
    * waits for has not raised its flag. */
  lemma VisitorMovesOn<P>(more: seq<P> -> bool, shards: seq<seq<P>>, workers: nat, schedule: seq<Actor>)
    requires workers > 0
    ensures var s := Run(more, shards, workers, schedule);
      && VisitLeft(shards, s) >= 0
      && (s.main.Finished? || (s.main.Waiting? && s.main.w < workers && !s.workers[s.main.w].ready)
          || VisitLeft(shards, MainStep(more, s)) < VisitLeft(shards, s))
  {
    hide SlabsOk, Slice, Behind, Visit, Flat, Run;
    RunKeeps(more, shards, workers, schedule);
    var s := Run(more, shards, workers, schedule);
    if s.main.Reading? {
      ReadySlab(shards, s, s.main.w);
      BehindSplits(shards, workers, s.main.w);
    }
  }
}
