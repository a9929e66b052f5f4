/** Linear probing over a circular table: what every table of both maps has in common.
  *
  * A slot is empty (nil), a reusable tombstone, or holds an entry; `ref` is the entry it points
  * to and `key` that entry's key, which never changes once published. Table sizes are powers of
  * two, so the source's `hash & mask` is the hash modulo the size.
  */
module Probe {
  import opened Options

  datatype Slot<+R, +K> = Nil | Tomb | Full(ref: R, key: K)

  function Home(h: nat, n: nat): (i: nat)
    requires n > 0
    ensures i < n
  {
    h % n
  }

  function Next(i: nat, n: nat): (j: nat)
    requires i < n
    ensures j < n
  {
    if i + 1 == n then 0 else i + 1
  }

  /** How far slot i lies behind the home of h, going round. */
  function Dist(h: nat, i: nat, n: nat): (d: nat)
    requires i < n
    ensures d < n
  {
    if Home(h, n) <= i then i - Home(h, n) else i + n - Home(h, n)
  }

  /** The slot at distance d behind the home of h. */
  function At(h: nat, d: nat, n: nat): (i: nat)
    requires d < n
    ensures i < n && Dist(h, i, n) == d
  {
    if Home(h, n) + d < n then Home(h, n) + d else Home(h, n) + d - n
  }

  /** Stepping to the next slot moves one further from home. */
  lemma AtNext(h: nat, d: nat, n: nat)
    requires d + 1 < n
    ensures At(h, d + 1, n) == Next(At(h, d, n), n)
  {
  }

  lemma AtDist(h: nat, i: nat, n: nat)
    requires i < n
    ensures At(h, Dist(h, i, n), n) == i
  {
  }

  predicate Has<R, K(==)>(s: Slot<R, K>, k: K) {
    s.Full? && s.key == k
  }

  /** The control word of an entry of `Map`: the top byte of its 64-bit hash, made odd so that it is
    * never 0. */
  function Fingerprint(h: nat): (fp: nat)
    ensures 0 < fp < 0x100
  {
    var top := (h / 0x100_0000_0000_0000) % 0x100;
    if top % 2 == 0 then top + 1 else top
  }

  // ---------------------------------------------------------------- well-formed tables

  /** No nil within distance q of the home of h. */
  ghost predicate Reaches<R, K>(slots: seq<Slot<R, K>>, h: nat, q: nat)
    requires q <= |slots|
  {
    forall d :: 0 <= d < q ==> slots[At(h, d, |slots|)] != Nil
  }

  /** No nil and no entry of k within distance q of the home of k: a probe for k got this far. */
  ghost predicate Misses<R, K>(slots: seq<Slot<R, K>>, h: nat, k: K, q: nat)
    requires q <= |slots|
  {
    forall d :: 0 <= d < q ==> slots[At(h, d, |slots|)] != Nil && !Has(slots[At(h, d, |slots|)], k)
  }

  /** No nil lies between a key's home and its entry. */
  ghost predicate Chained<R, K>(slots: seq<Slot<R, K>>, hash: K -> nat) {
    forall i :: 0 <= i < |slots| && slots[i].Full? ==>
      Reaches(slots, hash(slots[i].key), Dist(hash(slots[i].key), i, |slots|))
  }

  ghost predicate Unique<R, K>(slots: seq<Slot<R, K>>) {
    forall i, j :: 0 <= i < j < |slots| && slots[i].Full? && slots[j].Full? ==> slots[i].key != slots[j].key
  }

  ghost predicate WellFormed<R, K>(slots: seq<Slot<R, K>>, hash: K -> nat) {
    |slots| > 0 && Chained(slots, hash) && Unique(slots)
  }

  ghost predicate Absent<R, K>(slots: seq<Slot<R, K>>, k: K) {
    forall i :: 0 <= i < |slots| ==> !Has(slots[i], k)
  }

  /** A probe that meets nil before k, or that went all the way round, proves k absent. */
  lemma MissIsAbsent<R, K>(slots: seq<Slot<R, K>>, hash: K -> nat, k: K, q: nat)
    requires Chained(slots, hash) && q <= |slots| && Misses(slots, hash(k), k, q)
    requires q < |slots| ==> slots[At(hash(k), q, |slots|)] == Nil
    ensures Absent(slots, k)
  {
    forall i | 0 <= i < |slots| ensures !Has(slots[i], k) {
      AtDist(hash(k), i, |slots|);
    }
  }

  /** Filling a slot that a probe for k may end in, when k is nowhere, keeps the table well formed. */
  lemma PutKeepsWellFormed<R, K>(slots: seq<Slot<R, K>>, hash: K -> nat, k: K, q: nat, ref: R)
    requires WellFormed(slots, hash) && Absent(slots, k)
    requires q < |slots| && Reaches(slots, hash(k), q) && !slots[At(hash(k), q, |slots|)].Full?
    ensures WellFormed(slots[At(hash(k), q, |slots|) := Full(ref, k)], hash)
  {
    var i := At(hash(k), q, |slots|);
    var slots' := slots[i := Full(ref, k)];
    forall j | 0 <= j < |slots'| && slots'[j].Full?
      ensures Reaches(slots', hash(slots'[j].key), Dist(hash(slots'[j].key), j, |slots'|))
    {
      assert j != i ==> Reaches(slots, hash(slots[j].key), Dist(hash(slots[j].key), j, |slots|));
    }
    forall a, b | 0 <= a < b < |slots'| && slots'[a].Full? && slots'[b].Full? ensures slots'[a].key != slots'[b].key {
      assert !Has(slots[a], k) && !Has(slots[b], k);
    }
  }

  /** Turning an entry into a tombstone keeps the table well formed. */
  lemma TombKeepsWellFormed<R, K>(slots: seq<Slot<R, K>>, hash: K -> nat, i: nat)
    requires WellFormed(slots, hash) && i < |slots| && slots[i].Full?
    ensures WellFormed(slots[i := Tomb], hash)
    ensures Absent(slots[i := Tomb], slots[i].key)
  {
    var slots' := slots[i := Tomb];
    forall j | 0 <= j < |slots'| && slots'[j].Full?
      ensures Reaches(slots', hash(slots'[j].key), Dist(hash(slots'[j].key), j, |slots'|))
    {
      assert Reaches(slots, hash(slots[j].key), Dist(hash(slots[j].key), j, |slots|));
    }
  }

  // ---------------------------------------------------------------- counting slots

  function Count<T>(p: T -> bool, s: seq<T>): (c: nat)
    ensures c <= |s|
  {
    if s == [] then 0 else Count(p, s[..|s| - 1]) + if p(s[|s| - 1]) then 1 else 0
  }

  lemma {:induction false} CountUpdate<T>(p: T -> bool, s: seq<T>, i: nat, x: T)
    requires i < |s|
    ensures Count(p, s[i := x]) == Count(p, s) - (if p(s[i]) then 1 else 0) + (if p(x) then 1 else 0)
  {
    var front, last := s[..|s| - 1], |s| - 1;
    if i == last {
      assert s[i := x][..last] == front;
    } else {
      CountUpdate(p, front, i, x);
      assert s[i := x][..last] == front[i := x];
    }
  }

  lemma {:induction false} CountAll<T>(p: T -> bool, s: seq<T>)
    ensures Count(p, s) == |s| <==> (forall i :: 0 <= i < |s| ==> p(s[i]))
    ensures Count(p, s) == 0 <==> (forall i :: 0 <= i < |s| ==> !p(s[i]))
  {
    if s != [] {
      CountAll(p, s[..|s| - 1]);
    }
  }

  function IsFull<R, K>(): Slot<R, K> -> bool { (s: Slot<R, K>) => s.Full? }

  function IsTomb<R, K>(): Slot<R, K> -> bool { (s: Slot<R, K>) => s.Tomb? }

  function Used<R, K>(slots: seq<Slot<R, K>>): nat { Count(IsFull(), slots) + Count(IsTomb(), slots) }

  /** A table with fewer entries and tombstones than slots has a nil, so every probe ends. */
  lemma {:induction false} SparseHasNil<R, K>(slots: seq<Slot<R, K>>)
    ensures Used(slots) <= |slots|
    ensures Used(slots) < |slots| ==> exists i :: 0 <= i < |slots| && slots[i] == Nil
  {
    if slots != [] {
      SparseHasNil(slots[..|slots| - 1]);
    }
  }

  function Empty<R, K>(n: nat): (slots: seq<Slot<R, K>>)
    ensures |slots| == n && forall i :: 0 <= i < n ==> slots[i] == Nil
  {
    seq(n, _ => Nil)
  }

  lemma EmptyCounts<R, K>(n: nat)
    ensures Count(IsFull<R, K>(), Empty(n)) == 0 && Count(IsTomb<R, K>(), Empty(n)) == 0
  {
    CountAll(IsFull<R, K>(), Empty(n));
    CountAll(IsTomb<R, K>(), Empty(n));
  }

  /** Distance of the first nil at or after distance d from the home of h. */
  function FirstNil<R, K>(slots: seq<Slot<R, K>>, h: nat, d: nat): (q: nat)
    requires d <= |slots|
    requires exists j :: d <= j < |slots| && slots[At(h, j, |slots|)] == Nil
    ensures d <= q < |slots| && slots[At(h, q, |slots|)] == Nil
    ensures forall j :: d <= j < q ==> slots[At(h, j, |slots|)] != Nil
    decreases |slots| - d
  {
    if slots[At(h, d, |slots|)].Nil? then d else FirstNil(slots, h, d + 1)
  }

  lemma NilIsAhead<R, K>(slots: seq<Slot<R, K>>, h: nat)
    requires exists i :: 0 <= i < |slots| && slots[i] == Nil
    ensures exists j :: 0 <= j < |slots| && slots[At(h, j, |slots|)] == Nil
  {
    var i :| 0 <= i < |slots| && slots[i] == Nil;
    AtDist(h, i, |slots|);
    assert slots[At(h, Dist(h, i, |slots|), |slots|)] == Nil;
  }

  // ---------------------------------------------------------------- rebuilding

  /** Full, and worth keeping. */
  function Kept<R, K>(keep: Slot<R, K> -> bool): Slot<R, K> -> bool { (s: Slot<R, K>) => s.Full? && keep(s) }

  /** insertClone: the first nil at or after the entry's home, if there is one. */
  function CloneIndex<R, K>(hash: K -> nat, into: seq<Slot<R, K>>, s: Slot<R, K>): (i: Option<nat>)
    requires s.Full?
    ensures i.Some? ==> i.value < |into|
  {
    var h := hash(s.key);
    if exists j :: 0 <= j < |into| && into[At(h, j, |into|)].Nil?
    then Some(At(h, FirstNil(into, h, 0), |into|)) else None
  }

  function InsertClone<R, K>(hash: K -> nat, into: seq<Slot<R, K>>, s: Slot<R, K>): (r: seq<Slot<R, K>>)
    requires s.Full?
    ensures |r| == |into|
  {
    var i := CloneIndex(hash, into, s);
    if i.Some? then into[i.value := s] else into
  }

  /** The table that results from moving the kept entries of `old`, in slot order, into an empty
    * table of `size` slots. */
  function Rebuild<R, K>(hash: K -> nat, old_: seq<Slot<R, K>>, keep: Slot<R, K> -> bool,
      size: nat): (r: seq<Slot<R, K>>)
    ensures |r| == size
  {
    if old_ == [] then Empty(size) else
    var r := Rebuild(hash, old_[..|old_| - 1], keep, size);
    var s := old_[|old_| - 1];
    if s.Full? && keep(s) then InsertClone(hash, r, s) else r
  }

  /** A well-formed table without tombstones that holds exactly the kept slots of `old`. */
  ghost predicate HoldsKept<R, K>(hash: K -> nat, old_: seq<Slot<R, K>>, keep: Slot<R, K> -> bool, r: seq<Slot<R, K>>) {
    && WellFormed(r, hash)
    && Count(IsFull(), r) == Count(Kept(keep), old_) && Count(IsTomb(), r) == 0
    && (forall j :: 0 <= j < |r| && r[j].Full? ==> r[j] in old_ && keep(r[j]))
    && (forall m :: 0 <= m < |old_| && old_[m].Full? && keep(old_[m]) ==> old_[m] in r)
  }

  /** Moving one more kept entry into the first nil behind its home. */
  lemma PutCloneHolds<R, K>(hash: K -> nat, old_: seq<Slot<R, K>>, keep: Slot<R, K> -> bool, r: seq<Slot<R, K>>,
      s: Slot<R, K>, q: nat)
    requires HoldsKept(hash, old_, keep, r) && s.Full? && keep(s) && Absent(old_, s.key)
    requires q < |r| && Reaches(r, hash(s.key), q) && r[At(hash(s.key), q, |r|)] == Nil
    ensures HoldsKept(hash, old_ + [s], keep, r[At(hash(s.key), q, |r|) := s])
  {
    var at := At(hash(s.key), q, |r|);
    forall j | 0 <= j < |r| ensures !Has(r[j], s.key) {
      if r[j].Full? {
        var m :| 0 <= m < |old_| && old_[m] == r[j];
        assert !Has(old_[m], s.key);
      }
    }
    PutKeepsWellFormed(r, hash, s.key, q, s.ref);
    CountUpdate(IsFull(), r, at, s);
    CountUpdate(IsTomb(), r, at, s);
    var old', r' := old_ + [s], r[at := s];
    assert old'[..|old'| - 1] == old_;
    forall j | 0 <= j < |r'| && r'[j].Full? ensures r'[j] in old' && keep(r'[j]) {
      assert r[j].Full? ==> r[j] in old_;
    }
    forall m | 0 <= m < |old'| && old'[m].Full? && keep(old'[m]) ensures old'[m] in r' {
      if m < |old_| {
        var j :| 0 <= j < |r| && r[j] == old_[m];
        assert r'[j] == old'[m];
      } else {
        assert r'[at] == s;
      }
    }
  }

  /** There is room for one more as long as fewer entries than slots have been moved. */
  lemma RoomForClone<R, K>(hash: K -> nat, old_: seq<Slot<R, K>>, keep: Slot<R, K> -> bool, r: seq<Slot<R, K>>, k: K)
    requires HoldsKept(hash, old_, keep, r) && Count(Kept(keep), old_) < |r|
    ensures exists j :: 0 <= j < |r| && r[At(hash(k), j, |r|)] == Nil
  {
    SparseHasNil(r);
    NilIsAhead(r, hash(k));
  }

  /** Rebuilding into more slots than entries are kept keeps exactly those entries. */
  lemma {:induction false} RebuildHolds<R, K>(hash: K -> nat, old_: seq<Slot<R, K>>, keep: Slot<R, K> -> bool,
      size: nat)
    requires Unique(old_) && Count(Kept(keep), old_) < size
    ensures HoldsKept(hash, old_, keep, Rebuild(hash, old_, keep, size))
  {
    if old_ == [] {
      EmptyCounts<R, K>(size);
    } else {
      var front, s := old_[..|old_| - 1], old_[|old_| - 1];
      assert old_ == front + [s];
      RebuildHolds(hash, front, keep, size);
      if s.Full? && keep(s) {
        var r := Rebuild(hash, front, keep, size);
        RoomForClone(hash, front, keep, r, s.key);
        PutCloneHolds(hash, front, keep, r, s, FirstNil(r, hash(s.key), 0));
      } else {
        HoldsKeptSkips(hash, front, keep, Rebuild(hash, front, keep, size), s);
      }
    }
  }

  lemma HoldsKeptSkips<R, K>(hash: K -> nat, old_: seq<Slot<R, K>>, keep: Slot<R, K> -> bool, r: seq<Slot<R, K>>,
      s: Slot<R, K>)
    requires HoldsKept(hash, old_, keep, r) && !Kept(keep)(s)
    ensures HoldsKept(hash, old_ + [s], keep, r)
  {
    var old' := old_ + [s];
    assert old'[..|old'| - 1] == old_;
    forall j | 0 <= j < |r| && r[j].Full? ensures r[j] in old' {
      assert r[j] in old_;
    }
  }

  lemma {:induction false} CountMonotone<T>(p: T -> bool, q: T -> bool, s: seq<T>)
    requires forall i :: 0 <= i < |s| && p(s[i]) ==> q(s[i])
    ensures Count(p, s) <= Count(q, s)
  {
    if s != [] {
      CountMonotone(p, q, s[..|s| - 1]);
    }
  }

  lemma {:induction false} CountPrefix<T>(p: T -> bool, s: seq<T>, i: nat)
    requires i <= |s|
    ensures Count(p, s[..i]) <= Count(p, s)
  {
    if i < |s| {
      CountPrefix(p, s[..|s| - 1], i);
      assert s[..|s| - 1][..i] == s[..i];
    } else {
      assert s[..i] == s;
    }
  }
}
