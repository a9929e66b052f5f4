# alosmap, modelled and proved in Dafny

alosmap is two concurrent open-addressing hash maps, `Map` and `TypedMap`. This project models the
protocols under their API and proves what they keep: under any interleaving of atomic steps where
the code is concurrent, and over every run where it is used by one goroutine.

| file | what it models |
|---|---|
| `Options.dfy`, `Probe.dfy` | linear probing on a circular table: well-formed tables, counting, rebuilding |
| `Sizing.dfy` | slot counts, growth and shrink tests, for every load factor in [0.50, 0.90] |
| `Dictionary.dfy` | the specification of both maps in a sequential run: a dictionary with expiry times and reads left |
| `History.dfy` | what the dictionary promises, told by calls and answers alone |
| `EntryRegister.dfy`, `EntryProgress.dfy` | threads racing on one `Map` entry: box pointer, data word, claim and unlink |
| `DataWord.dfy` | compare-and-swap on one box's data word |
| `HitBudget.dfy` | readers racing for one hit budget, in both encodings |
| `ShardMachine.dfy` | the write gate, inserts, control words, counters, removals and rebuilds of a `Map` shard |
| `ShardWork.dfy`, `ShardProgress.dfy` | what a thread of that machine has done when it is through, and that it gets there |
| `TypedReader.dfy` | lock-free reads of a `TypedMap` shard against its locked writers and rebuilds |
| `TypedWrites.dfy` | what those writers leave for the readers to see |
| `TypedShard.dfy` | a `TypedMap` shard as an object, with all its operations |
| `MapTable.dfy`, `MapShard.dfy` | a `Map` shard as an object, with all its operations and Range |
| `MapRun.dfy` | whole runs of a `Map` shard, Range among the calls |
| `RangeScan.dfy`, `RangePipeline.dfy` | what a scan visits, what its clearing does to the counters, and the worker pipeline |
| `RangeMap.dfy` | Range over several `Map` shards as objects |

The concurrent models are state machines. A step is one atomic access (one slot, one control word,
one counter, one pointer or word; a rebuild's or a clear's stores of the table, of live, of used and
of tombstones are four steps), a schedule says who steps next, and the theorems hold for every
schedule. What their specifications mean is stated a second time without them: the register's answers
by the last call before that changed it, the dictionary's by the last call that put a value in, what a
key shows to lock-free readers by the last completed write. The sequential models are classes over
arrays whose methods are proved against the dictionary. The hash is any function of the key, and the clock any sequence of readings that does not
go back. Equality of values is any predicate for `Map` and equality of the words for `TypedMap`.

Where the code does not do what its documentation says, the model follows the code:

- `LoadOrStore` of `Map` is documented to return the value it stored when `loaded` is false. It
  reads the box again after publishing it (map.go:2351, map.go:2378), and a store of the same type
  may have replaced the value by then. `EntryRegister.LoadOrStoreCanHandBackAnothersValue` is such a
  run. `EntryRegister.LinearizableOperations` says when it cannot happen, over the operations that a
  program uses: all its runs are linearizable if and only if no `LoadOrStore(v)` is among them
  together with an operation that changes a register holding v to something else.
- `Len` of `Map` is documented to leave out expired entries (map.go:1265-1268). It returns the live
  counter, which counts them until something clears them: `MapShard.LenOfExpired` is a run after which
  `Len` is 2 and the map is empty, and `MapShard.Shard.Len` says when the two agree.
- `Range` of `Map` scans the table it started with. When its own clearing of expired entries makes
  it rebuild the shard, the entries the rebuild dropped are met again in the old table, and each
  lowers the live counter once more (map.go:1606-1608, map.go:2388-2404), until another rebuild
  recounts. `MapShard.LenAfterRange` is a run after which `Len` is -1. A Range over a shard whose
  counters were exact leaves them exact, and `Len` right after a whole scan, if and only if
  `RangeScan.StaysExact` holds, a condition on the shard's numbers before the call: no expired entry
  triggers a rebuild before the last one, or else the last one falls on the beat of rebuilds that the
  scan keeps from its second rebuild on. What Range visits is right all the same, and so are the
  answers of all later calls but `Len` (`MapRun.RunCalls`).
- Between the stores of a rebuild or a clear the counters still hold old values although nobody is
  writing (map.go:2506-2511, map.go:2156-2160). `ShardMachine.CountersLag` says by how much.

## Steps of the machines

Each function below is one atomic step of the code cited.

- `EntryRegister.LoadStep` map.go:902-957; `StoreStep` map.go:767-837 and map.go:2294-2337;
  `DeleteStep` map.go:1887-1939; `LoadOrStoreStep` map.go:1085-1124, map.go:1684-1710,
  map.go:1771-1830 and map.go:2339-2386; `CompareAndDeleteStep` map.go:2055-2113;
  `CompareAndSwapStep` map.go:1199-1253 and map.go:1976-2028
- `ShardMachine.GateStep` map.go:2185-2221; `ProbeStep` map.go:1642-1682, map.go:2245-2292 and
  map.go:2582-2602, with `Retry` for map.go:1655-1681; `Swapping` map.go:767-837; `EntryStep` map.go:1919-1939, map.go:2087-2113 and map.go:2294-2386; `PayStep`
  map.go:2230-2242; `ResizeStep` map.go:2132-2165 and map.go:2417-2518, `Install` and the `Settle` steps
  in it map.go:2156-2160 and map.go:2506-2511; loading the table pointer (`Enter`) map.go:1645-1646
- `TypedReader.ReadStep` typedmap.go:297-343; `WriteStep` typedmap.go:356-453 and
  typedmap_ext.go:122-517, with `Exchange` for typedmap_ext.go:464-486; `Act` adds the rebuilds of typedmap.go:531-553 and typedmap_ext.go:572-639
- `DataWord.Step` fastcell.go:47-96; `HitBudget.Step` map.go:2678-2696; `HitBudget.TypedStep`
  typedmap.go:337; `RangePipeline.WorkerStep` and `MainStep` rangefast.go:105-109, rangefast.go:271-338 and
  map.go:1368-1382

## Model

| member | source | states |
|---|---|---|
| EntryRegister.EffectsLinearizable | map.go:2294-2386 | in every interleaving of Load, Store, Delete, LoadOrStore, CompareAndDelete and same-type CompareAndSwap on one entry, also on boxes already unlinked, the effects have a legal order of a register that may be absent, each at a moment between its call and its return, or up to now for a call still running |
| EntryRegister.LinearizableOperations | map.go:2339-2386 | for any set of operations: every run of calls from it, from any start, has a legal order that gives each returned call the answer it gave, if and only if the set has no LoadOrStore(v) together with a Store, Delete, CompareAndDelete or CompareAndSwap that would change v |
| EntryRegister.Linearizable | map.go:2339-2386 | a single run has such an order if and only if every LoadOrStore in it that stored handed back the value it stored |
| EntryRegister.LoadOrStoreCanHandBackAnothersValue | map.go:2351-2352 | a run in which it hands back the value of a later Store, and for which no order exists |
| EntryRegister.RealTime | map.go:767-837 | in such an order a call that returned comes before every call made later, returned or still running |
| EntryRegister.ReturnedIsOwed | map.go:767-2386 | in every run each returned Load and Delete gives what the last call before it that changed the register had left there, and every other call the answer owed by that content (LoadOrStore: its effect) |
| EntryRegister.LegalIsOwed | map.go:767-957 | a log is legal if and only if every answer in it is owed by what the last call before it that changed the register, to judge by its answer, had left |
| EntryRegister.LegalHolds | map.go:2294-2337 | in a legal log the register always holds what the last call that changed it left there |
| EntryProgress.NobodyIsStuck | map.go:767-2386 | in every state of every run a call that is let run alone has its answer after at most ten steps |
| EntryRegister.StepKeeps | map.go:1888-1939 | every step of every operation keeps the phases, logs and places consistent |
| EntryRegister.FlattenIsLegal | fastcell.go:69-96 | joining the histories of all boxes that the entry ever held, box after box, gives a legal history of the register |
| EntryRegister.FlattenIsOrdered | fastcell.go:69-96 | that joined history is in order of the moments, has each call once, and has every call that took effect |
| DataWord.DeadIsFinal | fastcell.go:76-86 | once the dead marker is in, no publish and no removal reports success in any continuation |
| DataWord.OneRemover | fastcell.go:90-96 | at most one of claim and claimData wins, and one has won exactly while the marker is in |
| DataWord.DisplacedOnce | fastcell.go:55-86 | each value ever published is still current, or exactly one later winner displaced it and was handed it |
| DataWord.OnlyRacesLose | fastcell.go:55-96 | a caller is told that the box is claimed only if it is, and that it lost a race only if it does not try again and another has displaced the word |
| DataWord.SomebodyWins | fastcell.go:55-96 | when all have returned somebody has won, and everybody has if all publish and try again |
| DataWord.StepKeeps | fastcell.go:47-86 | every load and every compare-and-swap keeps winners and history matched one to one |
| HitBudget.NeverUnlimited | map.go:2678-2696 | the counter is H..1 or -1 at all times, never the 0 that means no limit; successes are what is gone from H; one exhausting success exactly when it is -1 |
| HitBudget.ExactlyMinSucceed | map.go:2678-2696 | of n readers that returned exactly min(n, H) succeeded, one of them reporting exhaustion exactly if n >= H |
| HitBudget.TypedAdmits | typedmap.go:336-340 | TypedMap's decrement admits the first H reads and no more, and deadForView holds exactly once H have come |
| HitBudget.EncodingsAgree | typedmap_ext.go:15-23 | both encodings admit the same number of the same readers and agree on when the budget is spent, whatever the schedules |
| ShardMachine.GateExcludes | map.go:2185-2221 | with fewer than 2^62 pending the state word is writers inside or backing off plus the bit of at most one resizer, and past its drain loop nobody is between beginWrite and endWrite |
| ShardMachine.BitMeansHolder | map.go:2185-2191 | the resizing bit as read from the word is set exactly while a resizer is present |
| ShardMachine.TableStaysWhileInside | map.go:2427-2434 | the table a writer has loaded inside the gate is the current one, by its number, and stays so with its filled slots unchanged whoever steps |
| ShardMachine.NewTableNewNumber | map.go:2506 | only a resizer or clearer past its drain loop puts in place a table with a new number; every other step keeps the table |
| ShardMachine.InsertsKeepTable | map.go:1642-1682 | racing inserts never break a probe chain and never give a key two entries |
| ShardMachine.InsertKeeps | map.go:2223-2231 | a won slot compare-and-swap keeps the whole invariant |
| ShardMachine.CountersExact | map.go:1919-1939 | live, used and tombstones are exact when nobody is inside and no rebuild or clear is between its stores, and else off by exactly what threads past their compare-and-swap and those stores still owe, also for a Delete whose claimed box a Store replaced |
| ShardMachine.CountersLag | map.go:2505-2511 | between those stores nobody is inside, and each counter is right from its own store on and holds the old count before |
| ShardMachine.SettlingKeepsTable | map.go:2506-2511 | from the store of the table until the bit is cleared no step changes a slot, a control word or whether an entry has a value |
| ShardMachine.ReleaseIsExact | map.go:2506-2518 | when the resizer is about to clear its bit all three counters are exact |
| ShardMachine.ClaimedHasRemover | map.go:1919-1934 | an entry that points to a claimed box has its remover inside, about to unlink it |
| ShardMachine.ExclusiveMeansUnclaimed | map.go:2427-2432 | once a resizer has drained the writers no entry of the table points to a claimed box |
| ShardMachine.RebuildIsExact | map.go:2490-2506 | the table a rebuild installs holds exactly the entries with a value, the same objects, none with a claimed box, with exact control words, and the count it is about to store is that of the table |
| ShardMachine.CtrlLookupIsExact | map.go:2582-2606 | with no insert before its control word, the lookup by fingerprints finds a key's slot exactly if there is one |
| ShardWork.WorkIsDone | map.go:1642-1940 | a thread puts its work behind it only in the step that does it: a Put by giving its key, absent from the table, a slot or by giving its entry a fresh box, a removal by claiming an unclaimed box of its key's entry; a LoadOrStore may find a value, and a removal may find no key, an insert in its way that has not returned, no box, or another remover's |
| ShardWork.ClaimedIsUnlinked | map.go:1925-1934 | after the remover's next step no entry points to the box it has claimed |
| ShardWork.ClearIsEmpty | map.go:2156 | a clear puts in place a table with no key and no control word |
| ShardProgress.NobodyIsStuck | map.go:1642-1682 | with no resizer present, a thread at work that runs alone is through after at most 2n + 13 steps on n slots, if there is an entry or a slot for the key it is to put |
| ShardMachine.StepKeeps | map.go:2132-2337 | every step of the gate, the probes, the entry operations, the counters and the resizer keeps the invariant |
| TypedReader.ReadsAreTimely | typedmap.go:297-343 | a lock-free read returns what its key had, a value or nothing, at some moment between its first and last step, also in a replaced table |
| TypedWrites.ReadsGiveLastWritten | typedmap.go:297-343 | that answer is what the completed writes of the run, up to some moment between its first and last step, had left under its key |
| TypedWrites.ShowsLastWritten | typedmap.go:356-453 | at every moment every key shows what the last completed write on it stored, or nothing after a removal or a clear |
| TypedWrites.WriteIsSeen | typedmap.go:366-405 | when a locked operation unlocks it has done its write, every other key shows what it showed, and until then nothing changes |
| TypedWrites.TablesAreSeen | typedmap.go:531-553 | growing and cleaning up change what no key shows, and after a clear no key shows anything |
| TypedWrites.WriterMovesOn | typedmap.go:366-405 | each step of the mutex holder brings it one slot further, and it unlocks before it has gone round |
| TypedWrites.ReaderMovesOn | typedmap.go:297-316 | each step of a reader brings it one slot further, to its entry, or home |
| TypedReader.MomentsAreFunctions | typedmap.go:297-316 | at each moment a key has one value or none, so that answer means something |
| TypedReader.StepKeeps | typedmap.go:356-453 | writes, tombstone reuse, rebuilds, cleanups and reader steps keep every table, live or replaced, readable |
| TypedReader.AheadKept | typedmap.go:384-389 | a key ahead of a reader stays ahead of it, or has been absent since the reader began |
| TypedReader.Remove | typedmap.go:434-439 | a tombstone leaves the key absent and every probe chain whole |
| Probe.MissIsAbsent | typedmap.go:297-316 | a probe that ends at nil, or goes round, proves the key absent from the whole table |
| Probe.PutKeepsWellFormed | typedmap.go:375-396 | filling the first tombstone or the nil of a probe keeps chains and uniqueness |
| Probe.TombKeepsWellFormed | typedmap.go:434-436 | a tombstone keeps chains and uniqueness and removes the key |
| Probe.RebuildHolds | map.go:2570-2580 | moving the kept entries into a larger empty table keeps exactly those, well formed and counted, and never runs out of slots |
| Probe.SparseHasNil | typedmap.go:361-364 | a table with fewer entries and tombstones than slots has a nil |
| Sizing.NextPowerOfTwoIsLeast | map.go:2797-2802 | the least power of two that is large enough |
| Sizing.TypedTargetIsSound | typedmap.go:523-529 | a power of two, at most half full, and 8 slots or less than eight per entry |
| Sizing.SlotsHoldEntries | map.go:2661-2670 | with the slots for n entries, n <= growAt < slots |
| Sizing.SlotsAreLeast | map.go:2661-2670 | a power of two has at least the slots asked for if and only if it is at least 32 and holds the entries at the load factor |
| Sizing.GrowAtIsLargest | map.go:2641-2652 | a number of entries is at most growAt if and only if it is within the load factor |
| Sizing.TargetMoves | map.go:2520-2545 | a rebuild gives more slots exactly to a table that is full or too small, then at least four times as many, and fewer exactly to any other with a quarter tombstones, over twice too large, or if forced |
| Sizing.TargetIsSound | map.go:2520-2545 | on every branch a power of two, no fewer slots than for the entries asked for, entries <= growAt < slots |
| Sizing.SlotsForFewer | map.go:2661-2670 | fewer entries never ask for more slots |
| TypedShard.MetaIsCell | typedmap_ext.go:15-41 | the metadata word means the dictionary's expiry and reads left, and deadForView means absent |
| TypedShard.ReadsCount | typedmap.go:336-340 | one decrement of the hit counter is one read less, below zero nothing changes |
| TypedShard.Shard.Find | typedmap.go:297-316 | finds the key's slot, or proves the key absent |
| TypedShard.Shard.Locate | typedmap.go:366-405 | the unbounded probe of the writers ends, at the key's entry or at the slot where a new one keeps the table well formed |
| TypedShard.Shard.Insert | typedmap.go:368-393 | a new entry, in a tombstone or a nil slot, adds exactly its key |
| TypedShard.Shard.DropEntry | typedmap.go:434-436 | a tombstone removes exactly its key |
| TypedShard.Shard.MoveInto | typedmap.go:531-553 | a rebuild keeps the dictionary, or its cells alive, with exact counters and no tombstones |
| TypedShard.Shard.MaybeGrow | typedmap.go:361-364 | after the check there is room below three quarters, a rebuilt table is at most half full, and the old slots scanned stay within eight per nil slot used up |
| TypedShard.Shard.Load | typedmap.go:322-346 | what the dictionary's consuming read does, whatever hasMeta says |
| TypedShard.Shard.Peek | typedmap_ext.go:78-90 | the value alive under the key, nothing changed |
| TypedShard.Shard.Contains | typedmap_ext.go:63-74 | whether a value is alive under the key |
| TypedShard.Shard.Store | typedmap_ext.go:122-175 | Store and putMeta replace value and limits |
| TypedShard.Shard.Delete | typedmap.go:418-453 | removes the key, answers the value if it was alive |
| TypedShard.Shard.LoadOrStore | typedmap_ext.go:188-251 | the value alive, else the new one stored |
| TypedShard.Shard.Swap | typedmap_ext.go:264-327 | stores, answers the value replaced if it was alive |
| TypedShard.Shard.Compute | typedmap_ext.go:338-451 | the function sees what is alive; cancel, update and delete do what they say |
| TypedShard.Shard.CompareAndSwap | typedmap_ext.go:464-486 | replaces exactly an equal value alive |
| TypedShard.Shard.CompareAndDelete | typedmap_ext.go:490-517 | removes exactly an equal value alive |
| TypedShard.Shard.CleanupNow | typedmap_ext.go:590-639 | changes nothing that anybody sees then or later, and leaves no dead entry and no tombstone |
| TypedShard.Shard.Clear | typedmap_ext.go:572-586 | the empty dictionary in a table of the same size |
| TypedShard.Shard.Len | typedmap.go:498-521 | the number of keys a caller sees |
| History.RunIsExplained | typedmap_ext.go:122-517 | the dictionary's answers in a run are those, and only those, that the calls and answers before call for: under its key a call meets what was last put there, unless taken out since, past its TTL, or read as often as allowed |
| History.ReadBack | map.go:1497-1512 | after any run, a value put in by Store, Swap, LoadOrStore or CompareAndSwap is what the i-th Load after it finds if and only if its time is not up and i is below its number of reads; else it is absent |
| History.CleanupIsInvisible | map.go:2174-2183 | a cleanup anywhere in a run leaves all other answers, and all that is seen later, as they are |
| TypedShard.RunShard | typedmap_ext.go:122-517 | every sequential run of every length, from a shard of any size it may be made with, answers what the dictionary answers and the history calls for, and all its rebuilds for growth together scanned at most 8 old slots per operation |
| MapTable.BoxIsCell | map.go:1497-1512 | the box's words mean the dictionary's expiry and reads left |
| MapTable.HitIsRead | map.go:1571-1592 | a step of the H..1,-1 counter is one read less, and clearing the box after the last changes nothing more |
| MapTable.RebuiltGood | map.go:2456-2504 | the entries kept by a rebuild at a time are the dictionary at that time, and without the flag no box has a limit |
| MapTable.RebuiltStats | map.go:2506-2511 | the recount is exact |
| MapTable.CleanAlready | map.go:2174-2180 | when the cleanup is skipped no entry is dead |
| MapTable.LiveCountsKeys | map.go:1273-1279 | the live entries of a well-formed table are its keys |
| MapShard.Shard.FindEntry | map.go:2582-2602 | the lookup by control words finds the key's entry or proves there is none |
| MapShard.Shard.Probe | map.go:1648-1677 | the writers' probe ends at the key's entry or at the nil where it may be inserted |
| MapShard.Shard.Insert | map.go:2223-2243 | a new entry adds exactly its key, with slot, control word and counters exact |
| MapShard.Shard.ClearIfMatch | map.go:2388-2404 | removes exactly the entry's key; on an entry no longer in the table only the counters change |
| MapShard.Shard.InsertClone | map.go:2570-2580 | ends at the first nil, with slot and control word set |
| MapShard.Shard.Refill | map.go:2489-2504 | the new table holds exactly the entries alive, the same objects, with their key bytes |
| MapShard.Shard.ResizeAt | map.go:2417-2518 | rebuilds exactly when forced or still worth it; then the table is the dictionary at that time, in the same entry objects, all counters exact whatever they said before, used <= growAt |
| MapShard.Shard.ReplaceOrRevive | map.go:2294-2337 | the key has the new box, the answer is the value alive before |
| MapShard.Shard.Store | map.go:767-837 | all three paths are the dictionary's store |
| MapShard.Shard.StoreWithOptions | map.go:891-895 | the dictionary's store with expiry and reads |
| MapShard.Shard.Load | map.go:902-957 | the dictionary's consuming read, with the clearing and rebuilds it triggers |
| MapShard.Shard.ReadLimited | map.go:1571-1638 | the reads of boxes with limits: dead ones are cleared, a last read clears |
| MapShard.Shard.Peek | map.go:971-1016 | the value alive, nothing visible changed |
| MapShard.Shard.Contains | map.go:1023-1065 | whether a value is alive |
| MapShard.Shard.Delete | map.go:1878-1965 | removes the key, answers the value if alive |
| MapShard.Shard.LoadOrStore | map.go:1085-1124 | the value alive, else the new one stored |
| MapShard.Shard.LoadOrStoreSlow | map.go:1712-1834 | the same for the gated half |
| MapShard.Shard.Swap | map.go:1144-1182 | stores, answers the value replaced if alive |
| MapShard.Shard.CompareAndSwap | map.go:1967-2044 | replaces exactly an equal value alive |
| MapShard.Shard.CompareAndDelete | map.go:2046-2130 | removes exactly an equal value alive |
| MapShard.Shard.CleanupNow | map.go:2174-2183 | changes nothing that anybody sees then or later and leaves no dead entry; with exact counters before, also no tombstone, skipped or not |
| MapShard.Shard.Clear | map.go:2132-2165 | the empty dictionary in an empty table of the initial size, all counters exact whatever they said before |
| MapShard.Shard.Len | map.go:1269-1279 | with exact counters, all entries with a box; as many as the keys a caller sees if and only if none of them is dead |
| MapShard.RunShard | map.go:767-1263 | every sequential run of every length, whatever hash, load factor and capacity, answers what the dictionary answers and the history calls for, and leaves a shard with exact counters and used <= growAt |
| MapRun.RunCalls | rangefast.go:188-247 | the same for runs with Range among the calls: each operation gives the answer, and each Range shows the keys and values, that the calls and answers before call for, no key twice, until the visitor says no |
| MapRun.ScanShows | map.go:1307-1312 | a visit of the plain scan shows each key with its value, no key twice, and all of them unless the visitor says no |
| MapShard.Shard.VisitTable | rangefast.go:188-247 | the scan that skips eight empty slots at a time visits what the plain scan visits |
| MapShard.Shard.RangeShard | rangefast.go:188-247 | visits the plain scan cut at the first no, also when its own clearing rebuilds the shard; changes nothing visible; leaves exact counters exact if and only if StaysExact holds of the numbers before, and then and only then Len right after a whole scan |
| MapShard.LenAfterRange | map.go:1606-1608 | a run from a new shard after which Len is -1 and the map empty: two entries stored with a TTL, the clock passes it, Range |
| MapShard.LenOfExpired | map.go:1269-1279 | a run from a new shard after which Len is 2 and the map empty |
| RangeScan.ExactAfterScan | map.go:1594-1611 | after any number of dead entries met the shard has not been rebuilt or its live counter is right if and only if StaysExact holds: none of them triggers a rebuild, or the last one is the first or the second rebuild, or comes a multiple of the settled table's period after the second |
| RangeScan.Settles | map.go:2520-2545 | from its second rebuild on the scan keeps one table size, or swaps two sizes at every dead entry |
| RangeScan.ClearsCurrentTable | map.go:1594-1611 | the clearing during a scan always hits the current table if and only if at most one entry is dead, or one more entry than are alive would not trigger a rebuild |
| RangeScan.LenCanGoNegative | map.go:2388-2411 | the numbers of that run |
| RangeScan.PairsAreView | rangefast.go:188-247 | the plain scan meets each key a caller sees exactly once, with its value, and no other |
| RangeScan.VisitIsCut | map.go:1307-1312 | a visit shows the pairs in order up to the first at which the visitor, knowing all it has seen, says no |
| RangePipeline.WorkerCount | map.go:1334-1344 | the largest number of workers that is no more than the shards and, above one, no more than four per processor and leaves 2048 entries for each |
| RangePipeline.SlicesCover | map.go:1353-1366 | the workers' slices follow each other without gap and end with the last shard |
| RangePipeline.SlicesAreEven | map.go:1353-1366 | no worker gets more than one shard more than another |
| RangePipeline.ShardByShardIsPlain | map.go:1320-1325 | visiting shard by shard is one visit of all pairs in order |
| RangePipeline.PipelineIsPlain | map.go:1368-1382 | for any number of workers and any interleaving, pair by pair, the pipeline visits the same pairs in the same order with the same cut, and never reads a slab still being filled |
| RangePipeline.VisitorMovesOn | map.go:1368-1382 | each step of the visiting goroutine leaves it less to do, unless it is through or the worker it waits for is not ready |
| RangePipeline.WorkerMovesOn | rangefast.go:256-338 | each step of a worker that is not ready leaves it less to do |
| RangeMap.RangeAll | map.go:1320-1325 | Range over shard objects, each of which its scan may clear and rebuild, visits shard by shard the pairs of the tables that were there before, cut at the first no, and changes nothing visible in any of them |
| RangeMap.Collect | rangefast.go:256-338 | a worker's slab gets exactly the pairs of its shards in order, while its scans clear and rebuild them |
| RangeMap.WorkersShareNothing | map.go:1353-1366 | each worker's shards give its share of all pairs, and no part of them belongs to another worker |

## Left out

- Hash functions, hash mixing and the choice of a shard by hash: a hash is any function of the key, and one shard is modelled where the others would repeat it. `hasMeta` of `TypedMap`, one flag for all shards, is a flag of the shard here.
- Machine integers: keys' sizes, times, counters and hit counts are unbounded, so an expiry time beyond 2^63 and a typed hit counter below -2^63 do not wrap.
- EntryRegister.LinearizableOperations: the entry stays in the table throughout, values share one type, and no entry has a TTL or hit limit.
- ShardProgress.NobodyIsStuck: a thread that finds no slot for its key waits for another to resize, where the source resizes itself; a claim that keeps losing its box to stores is left out.
- EntryRegister.EffectsLinearizable: leaves out Swap, Has, and CompareAndSwap that changes type or adds options, which the code does not make atomic.
- ShardMachine.CountersExact: plain entries only; with limits a read clears dead entries outside the gate, and the counters are then not exact during a rebuild. The stores of key bytes, value bytes and needsCleanup that follow are left out of the machine.
- ShardMachine.RebuildIsExact: has no expired entries to filter; MapShard.Shard.ResizeAt has them, without other threads.
- MapShard.Shard.ResizeAt: value bytes and the statistics of removals and resizes are not counted.
- MapShard.Shard.CleanupNow: with inexact counters a skipped cleanup may leave entries without a box in the table.
- ShardMachine.CtrlLookupIsExact: claims nothing while an insert stands between its slot and its control word, because lookups stop at a control word of 0.
- MapShard.RunShard: Range is not among the operations; it is in MapRun.RunCalls, which says nothing of the counters. In both each operation reads the clock once; values are stored as given, so custom cloners and value bytes are left out; boxes are values of the entry, so whether a store reused the box is not visible.
- TypedShard.RunShard: each operation reads the clock once, and the probe loop that the source repeats in every writer is one method.
- MapShard.Shard.RangeShard: one clock reading for the whole scan; key bytes after a scan that rebuilt the shard are not stated.
- RangePipeline.PipelineIsPlain: a worker collects one pair per step from its shards' pairs, and nobody else uses the map; that the scans of the shard objects give these pairs is RangeMap.Collect, one worker at a time.
- Sizing.SlotsHoldEntries: the load factor is a real number; rounding in floating point is not modelled.
- Interface words and the split of typed values into pointers and scalars: a value is opaque, with a type word where the code compares types.
- Value equality: any predicate; nothing is claimed about the built-in cases for Go maps, MapEqualer or panics in comparisons.
- Fairness: threads are shown to end when they run alone, not against others that never pause. Spin counters, prefetching, padding, pools and preallocated chunks.
- The background cleaner and Close, beyond the CleanupNow step they run.
- RangePar, whose number of visits after a stop is documented as inexact; Snapshot, Stats, key accessors, StringSet, builder and options; Range of TypedMap, a plain scan.
