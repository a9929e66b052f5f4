/** What a table of `Map` holds, as a value: for each slot nil, or an entry's key with the box its
  * value pointer points to. A tombstone here is an entry whose pointer is nil; it keeps its slot.
  */
module MapTable {
  import opened Options
  import opened Probe
  import opened Dictionary

  /** valueBox: expiresAt 0 means no expiry; hits counts H..1 and then -1, 0 meaning no limit. */
  datatype Box<V> = Box(val: V, expiresAt: nat, hits: int)

  type Table<V, K> = seq<Slot<Option<Box<V>>, K>>

  predicate IsSimple<V>(b: Box<V>) {
    b.expiresAt == 0 && b.hits == 0
  }

  predicate Expired<V>(b: Box<V>, now: nat) {
    b.expiresAt > 0 && now >= b.expiresAt
  }

  predicate Dead<V>(b: Box<V>, now: nat) {
    Expired(b, now) || b.hits < 0
  }

  function NewBox<V>(v: V, opt: EntryOptions, now: nat): Box<V> {
    Box(v, if opt.ttl > 0 then now + opt.ttl else 0, if opt.hits > 0 then opt.hits else 0)
  }

  function CellOf<V>(b: Box<V>): Cell<V> {
    Cell(b.val,
         if b.expiresAt > 0 then Some(b.expiresAt) else None,
         if b.hits > 0 then Some(b.hits) else if b.hits < 0 then Some(0) else None)
  }

  /** The encoding in the box says what the dictionary's cell says. */
  lemma BoxIsCell<V>(b: Box<V>, v: V, opt: EntryOptions, now: nat)
    ensures Dead(b, now) <==> !Alive(CellOf(b), now)
    ensures CellOf(NewBox(v, opt, now)) == NewCell(v, opt, now)
  {
  }

  /** A simple box with another value is the simple box of that value. */
  lemma SimpleBoxes<V>(b: Box<V>, v: V, opt: EntryOptions, now: nat)
    ensures IsSimple(b) && IsSimple(NewBox(v, opt, now)) ==> b.(val := v) == NewBox(v, opt, now)
  {
  }

  // ---------------------------------------------------------------- counters

  function IsLive<V, K>(): Slot<Option<Box<V>>, K> -> bool {
    (s: Slot<Option<Box<V>>, K>) => s.Full? && s.ref.Some?
  }

  function IsGone<V, K>(): Slot<Option<Box<V>>, K> -> bool {
    (s: Slot<Option<Box<V>>, K>) => s.Full? && s.ref.None?
  }

  /** Key bytes of one slot: only live entries count. */
  function KeyBytes<V, K>(size: K -> nat): Slot<Option<Box<V>>, K> -> nat {
    (s: Slot<Option<Box<V>>, K>) => if s.Full? && s.ref.Some? then size(s.key) else 0
  }

  function Total<T>(w: T -> nat, s: seq<T>): nat {
    if s == [] then 0 else Total(w, s[..|s| - 1]) + w(s[|s| - 1])
  }

  lemma {:induction false} TotalUpdate<T>(w: T -> nat, s: seq<T>, i: nat, x: T)
    requires i < |s|
    ensures Total(w, s[i := x]) == Total(w, s) - w(s[i]) + w(x)
  {
    var front, last := s[..|s| - 1], |s| - 1;
    if i == last {
      assert s[i := x][..last] == front;
    } else {
      TotalUpdate(w, front, i, x);
      assert s[i := x][..last] == front[i := x];
    }
  }

  lemma {:induction false} TotalZero<T>(w: T -> nat, s: seq<T>)
    requires forall i :: 0 <= i < |s| ==> w(s[i]) == 0
    ensures Total(w, s) == 0
  {
    if s != [] {
      TotalZero(w, s[..|s| - 1]);
    }
  }

  /** What the shard's counters must say. */
  datatype Stats = Stats(live: int, used: int, tombs: int, keyBytes: int)

  function StatsOf<V, K>(s: Table<V, K>, size: K -> nat): Stats {
    Stats(Count(IsLive(), s), Count(IsFull(), s), Count(IsGone(), s), Total(KeyBytes(size), s))
  }

  /** Putting a box, or nil, in slot i. */
  lemma StatsPut<V, K>(s: Table<V, K>, size: K -> nat, i: nat, k: K, b: Option<Box<V>>)
    requires i < |s| && (s[i].Full? ==> s[i].key == k) && !s[i].Tomb?
    ensures
      var a := StatsOf(s, size);
      var was := if s[i].Full? && s[i].ref.Some? then 1 else 0;
      var is_ := if b.Some? then 1 else 0;
      StatsOf(s[i := Full(b, k)], size) == Stats(
        a.live - was + is_, a.used + (if s[i].Full? then 0 else 1),
        a.tombs - (if s[i].Full? then 1 - was else 0) + (1 - is_), a.keyBytes + (is_ - was) * size(k))
  {
    CountUpdate(IsLive(), s, i, Full(b, k));
    CountUpdate(IsFull(), s, i, Full(b, k));
    CountUpdate(IsGone(), s, i, Full(b, k));
    TotalUpdate(KeyBytes(size), s, i, Full(b, k));
  }

  lemma EmptyStats<V, K>(n: nat, size: K -> nat)
    ensures StatsOf<V, K>(Empty(n), size) == Stats(0, 0, 0, 0)
  {
    CountAll(IsLive<V, K>(), Empty(n));
    CountAll(IsFull<Option<Box<V>>, K>(), Empty(n));
    CountAll(IsGone<V, K>(), Empty(n));
    TotalZero(KeyBytes<V, K>(size), Empty(n));
  }

  /** Every filled slot is live or gone. */
  lemma {:induction false} UsedIsLiveAndGone<V, K>(s: Table<V, K>)
    ensures Count(IsFull(), s) == Count(IsLive(), s) + Count(IsGone(), s)
  {
    if s != [] {
      UsedIsLiveAndGone(s[..|s| - 1]);
    }
  }

  // ---------------------------------------------------------------- the dictionary of a table

  ghost function LiveKeys<V, K>(s: Table<V, K>): set<K> {
    set i | 0 <= i < |s| && s[i].Full? && s[i].ref.Some? :: s[i].key
  }

  ghost predicate Represents<V, K>(s: Table<V, K>, d: map<K, Cell<V>>) {
    && d.Keys == LiveKeys(s)
    && (forall i :: 0 <= i < |s| && s[i].Full? && s[i].ref.Some? ==> d[s[i].key] == CellOf(s[i].ref.value))
  }

  /** Without the flag, no box in the table has a limit. */
  ghost predicate FlagOk<V, K>(s: Table<V, K>, needsCleanup: bool) {
    !needsCleanup ==> forall i :: 0 <= i < |s| && s[i].Full? && s[i].ref.Some? ==> IsSimple(s[i].ref.value)
  }

  ghost predicate NoTombs<V, K>(s: Table<V, K>) {
    forall i :: 0 <= i < |s| ==> !s[i].Tomb?
  }

  ghost predicate Good<V, K>(s: Table<V, K>, hash: K -> nat, d: map<K, Cell<V>>, needsCleanup: bool) {
    WellFormed(s, hash) && NoTombs(s) && Represents(s, d) && FlagOk(s, needsCleanup)
  }

  /** A table that is not full has a nil on every probe's way. */
  lemma EndOfProbe<V, K>(s: Table<V, K>, h: nat) returns (end: nat)
    requires NoTombs(s) && Count(IsFull(), s) < |s|
    ensures end < |s| && s[At(h, end, |s|)] == Nil
  {
    CountAll(IsTomb<Option<Box<V>>, K>(), s);
    SparseHasNil(s);
    NilIsAhead(s, h);
    end := FirstNil(s, h, 0);
  }

  lemma EmptyGood<V, K>(n: nat, hash: K -> nat)
    requires n > 0
    ensures Good<V, K>(Empty(n), hash, map[], false)
  {
  }

  lemma UniqueSlots<V, K>(s: Table<V, K>, hash: K -> nat, i: nat)
    requires WellFormed(s, hash) && i < |s| && s[i].Full?
    ensures forall j :: 0 <= j < |s| && j != i && s[j].Full? ==> s[j].key != s[i].key
  {
  }

  /** Raising the flag does no harm. */
  lemma SetFlag<V, K>(s: Table<V, K>, hash: K -> nat, d: map<K, Cell<V>>, flag: bool)
    requires Good(s, hash, d, flag)
    ensures Good(s, hash, d, true)
  {
  }

  /** Changing the box of an entry moves no entry. */
  lemma SetKeepsWellFormed<V, K>(s: Table<V, K>, hash: K -> nat, i: nat, b: Option<Box<V>>)
    requires WellFormed(s, hash) && i < |s| && s[i].Full?
    ensures WellFormed(s[i := Full(b, s[i].key)], hash)
  {
    var s' := s[i := Full(b, s[i].key)];
    forall j | 0 <= j < |s'| && s'[j].Full?
      ensures Reaches(s', hash(s'[j].key), Dist(hash(s'[j].key), j, |s'|))
    {
      assert Reaches(s, hash(s[j].key), Dist(hash(s[j].key), j, |s|));
    }
  }

  lemma LiveKeysPut<V, K>(s: Table<V, K>, i: nat, k: K, b: Option<Box<V>>)
    requires i < |s| && (s[i].Full? ==> s[i].key == k)
    requires forall j :: 0 <= j < |s| && j != i && s[j].Full? ==> s[j].key != k
    ensures LiveKeys(s[i := Full(b, k)]) == if b.Some? then LiveKeys(s) + {k} else LiveKeys(s) - {k}
  {
    var s' := s[i := Full(b, k)];
    forall x | x in LiveKeys(s) && x != k ensures x in LiveKeys(s') {
      var j :| 0 <= j < |s| && s[j].Full? && s[j].ref.Some? && s[j].key == x;
      assert s'[j].Full? && s'[j].ref.Some? && s'[j].key == x;
    }
    if b.Some? {
      assert s'[i].Full? && s'[i].ref.Some? && s'[i].key == k;
    }
  }

  /** A box, or nil, published on the entry in slot i. */
  lemma SetGood<V, K>(s: Table<V, K>, hash: K -> nat, d: map<K, Cell<V>>, flag: bool, i: nat, b: Option<Box<V>>,
      flag': bool)
    requires Good(s, hash, d, flag) && i < |s| && s[i].Full?
    requires (flag ==> flag') && (b.Some? && !IsSimple(b.value) ==> flag')
    ensures Good(s[i := Full(b, s[i].key)], hash,
          if b.Some? then d[s[i].key := CellOf(b.value)] else d - {s[i].key}, flag')
  {
    SetKeepsWellFormed(s, hash, i, b);
    UniqueSlots(s, hash, i);
    LiveKeysPut(s, i, s[i].key, b);
  }

  /** A new entry in the nil slot at the end of its probe. */
  lemma InsertGood<V, K>(s: Table<V, K>, hash: K -> nat, d: map<K, Cell<V>>, flag: bool, k: K, q: nat, b: Box<V>,
      flag': bool)
    requires Good(s, hash, d, flag) && Absent(s, k) && (flag ==> flag') && (!IsSimple(b) ==> flag')
    requires q < |s| && Reaches(s, hash(k), q) && s[At(hash(k), q, |s|)] == Nil
    ensures Good(s[At(hash(k), q, |s|) := Full(Some(b), k)], hash, d[k := CellOf(b)], flag')
  {
    var i := At(hash(k), q, |s|);
    forall j | 0 <= j < |s| && s[j].Full? ensures s[j].key != k {
      assert !Has(s[j], k);
    }
    PutKeepsWellFormed(s, hash, k, q, Some(b));
    LiveKeysPut(s, i, k, Some(b));
  }

  /** What a probe's answer means for the dictionary. */
  lemma KeyIsSpot<V, K>(s: Table<V, K>, d: map<K, Cell<V>>, k: K, at: Option<nat>)
    requires Represents(s, d) && Unique(s)
    requires match at case Some(i) => i < |s| && Has(s[i], k) case None => Absent(s, k)
    ensures k in d <==> at.Some? && s[at.value].ref.Some?
    ensures k in d ==> d[k] == CellOf(s[at.value].ref.value)
  {
    if k in d {
      var j :| 0 <= j < |s| && s[j].Full? && s[j].ref.Some? && s[j].key == k;
      assert Has(s[j], k);
    }
  }

  // ---------------------------------------------------------------- rebuilding

  /** The entries a rebuild at `now` keeps. */
  function Keep<V, K>(now: nat): Slot<Option<Box<V>>, K> -> bool {
    (s: Slot<Option<Box<V>>, K>) => s.Full? && s.ref.Some? && !Dead(s.ref.value, now)
  }

  /** Key bytes of a slot that a rebuild keeps. */
  function KeptBytes<V, K>(size: K -> nat, now: nat): Slot<Option<Box<V>>, K> -> nat {
    (s: Slot<Option<Box<V>>, K>) => if s.Full? && Keep(now)(s) then size(s.key) else 0
  }

  /** A box with a limit in some slot: what resizeAt looks for before it filters. */
  ghost predicate HasLimit<V, K>(s: Table<V, K>) {
    exists i :: 0 <= i < |s| && s[i].Full? && s[i].ref.Some? && !IsSimple(s[i].ref.value)
  }

  lemma LimitSoFar<V, K>(s: Table<V, K>, i: nat)
    requires i < |s|
    ensures HasLimit(s[..i + 1]) <==> HasLimit(s[..i]) || (s[i].Full? && s[i].ref.Some? && !IsSimple(s[i].ref.value))
  {
    var t, t' := s[..i], s[..i + 1];
    if j :| 0 <= j < |t| && t[j].Full? && t[j].ref.Some? && !IsSimple(t[j].ref.value) {
      assert t'[j] == t[j];
    }
    if j :| 0 <= j < |t'| && t'[j].Full? && t'[j].ref.Some? && !IsSimple(t'[j].ref.value) {
      assert j < i ==> t[j] == t'[j];
    }
    assert t'[i] == s[i];
  }

  /** r holds what is worth keeping of the first i slots of s, and its key bytes are theirs. */
  ghost predicate FilledTo<V, K>(hash: K -> nat, s: Table<V, K>, now: nat, size: K -> nat, i: nat, r: Table<V, K>)
    requires i <= |s|
  {
    HoldsKept(hash, s[..i], Keep(now), r) && Total(KeyBytes(size), r) == Total(KeptBytes(size, now), s[..i])
  }

  /** Before anything has been moved. */
  lemma EmptyHolds<V, K>(hash: K -> nat, now: nat, size: K -> nat, n: nat)
    requires n > 0
    ensures HoldsKept(hash, [], Keep<V, K>(now), Empty(n))
    ensures Total(KeyBytes<V, K>(size), Empty(n)) == 0 == Total(KeptBytes<V, K>(size, now), [])
  {
    EmptyCounts<Option<Box<V>>, K>(n);
    EmptyStats<V, K>(n, size);
  }

  /** While not everything kept has been moved, the new table has room. */
  lemma RoomForOne<V, K>(hash: K -> nat, s: Table<V, K>, now: nat, size: K -> nat, i: nat, r: Table<V, K>)
    requires i < |s| && FilledTo(hash, s, now, size, i, r) && Count(Kept(Keep(now)), s) < |r|
    requires WellFormed(s, hash) && Kept(Keep(now))(s[i])
    ensures NoTombs(r) && Count(IsFull(), r) < |r|
  {
    CountPrefix(Kept(Keep(now)), s, i);
    CountAll(IsTomb<Option<Box<V>>, K>(), r);
  }

  lemma MovedOne<V, K>(hash: K -> nat, s: Table<V, K>, now: nat, size: K -> nat, i: nat, r: Table<V, K>, q: nat)
    requires i < |s| && FilledTo(hash, s, now, size, i, r) && WellFormed(s, hash) && Kept(Keep(now))(s[i])
    requires q < |r| && Reaches(r, hash(s[i].key), q) && r[At(hash(s[i].key), q, |r|)] == Nil
    ensures FilledTo(hash, s, now, size, i + 1, r[At(hash(s[i].key), q, |r|) := s[i]])
  {
    assert s[..i + 1] == s[..i] + [s[i]] && s[..i + 1][..i] == s[..i];
    assert Absent(s[..i], s[i].key) by { UniqueSlots(s, hash, i); }
    PutCloneHolds(hash, s[..i], Keep(now), r, s[i], q);
    TotalUpdate(KeyBytes(size), r, At(hash(s[i].key), q, |r|), s[i]);
  }

  lemma SkippedOne<V, K>(hash: K -> nat, s: Table<V, K>, now: nat, size: K -> nat, i: nat, r: Table<V, K>)
    requires i < |s| && FilledTo(hash, s, now, size, i, r) && !Kept(Keep(now))(s[i])
    ensures FilledTo(hash, s, now, size, i + 1, r)
  {
    assert s[..i + 1] == s[..i] + [s[i]] && s[..i + 1][..i] == s[..i];
    HoldsKeptSkips(hash, s[..i], Keep(now), r, s[i]);
  }

  lemma RebuiltGood<V, K>(s: Table<V, K>, hash: K -> nat, d: map<K, Cell<V>>, flag: bool, now: nat, r: Table<V, K>,
      flag': bool)
    requires Good(s, hash, d, flag) && HoldsKept(hash, s, Keep(now), r) && (HasLimit(s) ==> flag')
    ensures Good(r, hash, Prune(d, now), flag')
  {
    CountAll(IsTomb<Option<Box<V>>, K>(), r);
    forall i | 0 <= i < |r| && r[i].Full?
      ensures r[i].ref.Some? && r[i].key in Prune(d, now) && d[r[i].key] == CellOf(r[i].ref.value)
      ensures !flag' ==> IsSimple(r[i].ref.value)
    {
      var m :| 0 <= m < |s| && s[m] == r[i];
      assert Keep(now)(r[i]);
      assert s[m].key in LiveKeys(s);
      BoxIsCell(s[m].ref.value, s[m].ref.value.val, Plain, now);
    }
    forall k | k in Prune(d, now) ensures k in LiveKeys(r) {
      var m :| 0 <= m < |s| && s[m].Full? && s[m].ref.Some? && s[m].key == k;
      BoxIsCell(s[m].ref.value, s[m].ref.value.val, Plain, now);
      assert Keep(now)(s[m]) && s[m] in r;
      var j :| 0 <= j < |r| && r[j] == s[m];
      assert r[j].Full? && r[j].ref.Some? && r[j].key == k;
    }
  }

  /** The recount: as many live and used as were kept, no tombstones. */
  lemma RebuiltStats<V, K>(s: Table<V, K>, hash: K -> nat, size: K -> nat, now: nat, r: Table<V, K>)
    requires HoldsKept(hash, s, Keep(now), r)
    ensures var n := Count(Kept(Keep(now)), s); StatsOf(r, size) == Stats(n, n, 0, Total(KeyBytes(size), r))
  {
    CountAll(IsTomb<Option<Box<V>>, K>(), r);
    forall i | 0 <= i < |r| ensures IsLive<V, K>()(r[i]) == IsFull<Option<Box<V>>, K>()(r[i]) && !IsGone<V, K>()(r[i]) {
      if r[i].Full? { assert Keep(now)(r[i]); }
    }
    CountMonotone(IsLive(), IsFull(), r);
    CountMonotone(IsFull(), IsLive(), r);
    CountAll(IsGone<V, K>(), r);
  }

  /** Nothing with a limit and no tombstones: nothing for a cleanup to do. */
  lemma CleanAlready<V, K>(s: Table<V, K>, hash: K -> nat, d: map<K, Cell<V>>, now: nat)
    requires Good(s, hash, d, false)
    ensures Prune(d, now) == d
  {
    forall k | k in d ensures Alive(d[k], now) {
      var i :| 0 <= i < |s| && s[i].Full? && s[i].ref.Some? && s[i].key == k;
      BoxIsCell(s[i].ref.value, s[i].ref.value.val, Plain, now);
    }
  }

  /** No flag and no tombstone: every entry is alive. */
  lemma CleanTable<V, K>(s: Table<V, K>, hash: K -> nat, d: map<K, Cell<V>>, now: nat)
    requires Good(s, hash, d, false) && Count(IsGone(), s) == 0
    ensures forall i :: 0 <= i < |s| && s[i].Full? ==> Keep(now)(s[i])
  {
    forall i | 0 <= i < |s| && s[i].Full? ensures Keep(now)(s[i]) {
      if s[i].ref.None? {
        CountsOne(IsGone(), s, i);
      }
    }
  }

  lemma OnlyKept<V, K>(hash: K -> nat, s: Table<V, K>, now: nat, r: Table<V, K>)
    requires HoldsKept(hash, s, Keep(now), r)
    ensures forall i :: 0 <= i < |r| && r[i].Full? ==> Keep(now)(r[i])
  {
  }

  // ---------------------------------------------------------------- reads

  /** consumeHit on a counter above zero. */
  function AfterHit<V>(b: Box<V>): Box<V>
    requires b.hits > 0
  {
    b.(hits := if b.hits - 1 == 0 then -1 else b.hits - 1)
  }

  /** What a caller sees under k is the value of k's box, unless it is dead. */
  lemma BoxSeen<K, V>(d: map<K, Cell<V>>, k: K, b: Box<V>, now: nat)
    requires k in d && d[k] == CellOf(b)
    ensures Value(Prune(d, now), k) == if Dead(b, now) then None else Some(b.val)
  {
  }

  lemma DeadDrops<K, V>(d: map<K, Cell<V>>, k: K, now: nat)
    ensures Value(Prune(d, now), k) == None ==> Prune(d - {k}, now) == Prune(d, now)
  {
    PruneDrop(d, k, now);
  }

  /** A read of a box without a hit limit leaves the dictionary as it is. */
  lemma ConsumeFree<K, V>(d: map<K, Cell<V>>, k: K, b: Box<V>, now: nat)
    requires k in d && d[k] == CellOf(b) && b.hits == 0 && !Dead(b, now)
    ensures k in Prune(d, now) && Consume(Prune(d, now), k) == Prune(d, now)
  {
  }

  /** A step of the counter is one read less; the last one leaves a dead box, and clearing it
    * changes nothing more. */
  lemma HitIsRead<K, V>(d: map<K, Cell<V>>, k: K, b: Box<V>, now: nat)
    requires k in d && d[k] == CellOf(b) && b.hits > 0 && !Dead(b, now)
    ensures k in Prune(d, now)
    ensures Prune(d[k := CellOf(AfterHit(b))], now) == Consume(Prune(d, now), k)
    ensures b.hits == 1 ==> Prune(d[k := CellOf(AfterHit(b))] - {k}, now) == Consume(Prune(d, now), k)
  {
    PrunePut(d, k, CellOf(AfterHit(b)), now);
    PruneDrop(d[k := CellOf(AfterHit(b))], k, now);
  }

  // ---------------------------------------------------------------- the live counter

  lemma {:induction false} LiveCountsKeys<V, K>(s: Table<V, K>)
    requires Unique(s)
    ensures |LiveKeys(s)| == Count(IsLive(), s)
  {
    if s == [] {
      assert LiveKeys(s) == {};
    } else {
      var front, last := s[..|s| - 1], s[|s| - 1];
      LiveCountsKeys(front);
      OneMoreLive(front, last);
      assert s == front + [last];
    }
  }

  lemma OneMoreLive<V, K>(front: Table<V, K>, last: Slot<Option<Box<V>>, K>)
    ensures LiveKeys(front + [last]) == LiveKeys(front) + if last.Full? && last.ref.Some? then {last.key} else {}
  {
    var s := front + [last];
    forall k | k in LiveKeys(front) ensures k in LiveKeys(s) {
      var i :| 0 <= i < |front| && front[i].Full? && front[i].ref.Some? && front[i].key == k;
      assert s[i] == front[i];
    }
    if last.Full? && last.ref.Some? {
      assert s[|front|] == last;
    }
  }

  /** The keys of the entries that a rebuild at `now` keeps. */
  ghost function AliveKeys<V, K>(s: Table<V, K>, now: nat): set<K> {
    set i | 0 <= i < |s| && Kept(Keep(now))(s[i]) :: s[i].key
  }

  lemma {:induction false} AliveCountsKeys<V, K>(s: Table<V, K>, now: nat)
    requires Unique(s)
    ensures |AliveKeys(s, now)| == Count(Kept(Keep(now)), s)
  {
    if s == [] {
      assert AliveKeys(s, now) == {};
    } else {
      var front, last := s[..|s| - 1], s[|s| - 1];
      AliveCountsKeys(front, now);
      OneMoreAlive(front, last, now);
      assert s == front + [last];
    }
  }

  lemma OneMoreAlive<V, K>(front: Table<V, K>, last: Slot<Option<Box<V>>, K>, now: nat)
    ensures AliveKeys(front + [last], now) == AliveKeys(front, now) + if Kept(Keep(now))(last) then {last.key} else {}
  {
    var s := front + [last];
    forall k | k in AliveKeys(front, now) ensures k in AliveKeys(s, now) {
      var i :| 0 <= i < |front| && Kept(Keep(now))(front[i]) && front[i].key == k;
      assert s[i] == front[i];
    }
    if Kept(Keep(now))(last) {
      assert s[|front|] == last;
    }
  }

  /** As many entries are alive as a caller sees keys. */
  lemma AliveCountsView<V, K>(s: Table<V, K>, d: map<K, Cell<V>>, now: nat)
    requires Unique(s) && Represents(s, d)
    ensures Count(Kept(Keep(now)), s) == |Prune(d, now)|
  {
    AliveCountsKeys(s, now);
    forall k ensures k in AliveKeys(s, now) <==> k in Prune(d, now) {
      if k in AliveKeys(s, now) {
        var i :| 0 <= i < |s| && Kept(Keep(now))(s[i]) && s[i].key == k;
        assert k in LiveKeys(s);
        BoxIsCell(s[i].ref.value, s[i].ref.value.val, Plain, now);
      }
      if k in Prune(d, now) {
        var i :| 0 <= i < |s| && s[i].Full? && s[i].ref.Some? && s[i].key == k;
        BoxIsCell(s[i].ref.value, s[i].ref.value.val, Plain, now);
        assert Kept(Keep(now))(s[i]);
      }
    }
    assert AliveKeys(s, now) == Prune(d, now).Keys;
    assert |Prune(d, now)| == |Prune(d, now).Keys|;
  }

  /** Without tombstones a key without a box has no entry. */
  lemma NoEntry<V, K>(s: Table<V, K>, d: map<K, Cell<V>>, k: K)
    requires Represents(s, d) && NoTombs(s) && Count(IsGone(), s) == 0 && k !in d
    ensures Absent(s, k)
  {
    forall i | 0 <= i < |s| ensures !Has(s[i], k) {
      if Has(s[i], k) && s[i].ref.None? {
        CountsOne(IsGone(), s, i);
      }
    }
  }

  lemma {:induction false} CountsOne<T>(p: T -> bool, s: seq<T>, i: nat)
    requires i < |s| && p(s[i])
    ensures Count(p, s) > 0
  {
    if i < |s| - 1 {
      CountsOne(p, s[..|s| - 1], i);
    }
  }

  lemma PrunedIsSmaller<K, V>(d: map<K, Cell<V>>, now: nat)
    ensures |Prune(d, now)| == |d| <==> Prune(d, now) == d
  {
    if Prune(d, now) != d {
      var k :| k in d && !Alive(d[k], now);
      SubsetIsSmaller(Prune(d, now).Keys, d.Keys, k);
    }
  }

  lemma SubsetIsSmaller<T>(a: set<T>, b: set<T>, x: T)
    requires a <= b && x in b && x !in a
    ensures |a| < |b|
  {
    SubsetIsNoLarger(a, b - {x});
  }

  lemma {:induction false} SubsetIsNoLarger<T>(a: set<T>, b: set<T>)
    requires a <= b
    ensures |a| <= |b|
  {
    if x :| x in a {
      SubsetIsNoLarger(a - {x}, b - {x});
    }
  }
}
