# RadixOx, modelled and verified in Dafny

RadixOx is a single-threaded, Redis-like store. This project models its five
cores and proves what they promise for every input, every run and every
interleaving of cooperative tasks.

- **The radix tree** (`Basics`, `FreeList`, `SlotVec`, `ChildTiers`, `Forest`,
  `Heap`, `Art`, `Scan`, `OxidArt`): an index-based heap of nodes with path
  compression, three child tiers and lazy expiry. `Forest` is the shape of the
  tree, with a ghost label per node (the key bytes down to its radix); `Heap` is
  the slab with its overflow arena; `Art` and `Scan` are the operations. The
  stored back-pointers are not part of the invariant, because splits and merges do
  not maintain them; parents come from the traversal.
- **Interleavings** (`Executor`, `History`, `AsyncScan`, `AmidScan`, `MissedKey`): any
  sequence of commands with any number of `deln_async` calls suspended between chunks,
  and every answer read off the commands before it; a
  `getn_async` suspended while others write, or while they do anything at all; and a
  run in which it misses a key.
- **Laws of the tree** (`RoundTrip`, `Determined`, `Reachability`, `Roots`, `Lookups`,
  `RegexScan`): undoing a split, one store per heap, no leaks, invisible expiry, the
  exact conditions under which commands on the empty key and prefix are right and
  what callers see otherwise, and automaton-guided scans.
- **Pub/sub** (`GenArena`, `PubSub`, `PubSubRuns`, `PubSubProgress`, `PubSubLaws`,
  `Registry`): the generational arena, the double-buffer write protocol as a transition
  system whose steps are the code between two awaits, its main theorems, its progress,
  what each event means for every socket and channel, and the registry object.
- **Sorted sets and the wire format** (`ZSet`, `Resp`, `RespDecoder`, `Tokenizer`).

The tree's internals are methods that take the heap by value and return it, as the
owner of the Rust structure does; the class `OxidArt` is the mutable object around
them. `GenArena` and `SubRegistry` are classes too. Ghost companions (`Trunk`,
`Layout`, `Thread`, `Ledger`) are what the invariants speak about. They cannot
drift from the data: any two readings of one heap agree on the store
(`Determined.StoreDetermined`). The invariants hold of the empty store and the
empty server, and every operation keeps them but for the breaking commands listed
below, so every other reachable state meets the preconditions that name them.

Results that are false as first hoped are stated with their exact condition:

- `del("")` and an expired `get("")` break the tree exactly when the root has one
  inline child and no overflow slot; `deln("")`, in both forms, exactly when the root
  has an overflow slot. Each failure has a run from a new store (`Roots`). After such a
  `del("")`, lookups answer as on the store with the bytes that the root has absorbed
  cut off every key (`Lookups`).
- Pub/sub delivery is in order exactly as long as no write task starts with two
  differently ordered filled buffers; a concrete run overtakes (`PubSubRuns`).
- At rest, a healthy connection has unsent frames exactly when a publisher failed
  before its flush loop, left it laden, and nobody has taken its writer since; a
  concrete run strands a message (`PubSub`, `PubSubRuns`).
- A stale arena key resolves again exactly when its slot was removed a multiple of
  2^32 times and is occupied; such a run exists from every state
  in which the key resolves (`GenArena`).
- `ZRANGE` is the Python-style slice except when the stop lies before the first
  element and the start is the first element (`ZSet`).
- A decoder that ends lines at the first CR LF recovers a frame exactly when no simple
  string or error inside it contains a CR LF (`RespDecoder`); one that does can pass
  for two frames (`Resp`).
- Reading a request aborts exactly when, after well-formed bulk strings, a length is
  announced whose end exceeds a machine word (`Tokenizer`).
- A `getn_async` interleaved with deletions skips every frame on its stack whose node
  is gone when its turn comes. As long as no frame names a node that is severed but not
  yet freed, or an index that was handed out again, a match that is live throughout is
  missed if and only if a skipped frame leads to it (`AmidScan`). Removing leaves and
  cutting subtrees loses nothing that way; a recompression loses exactly the keys at or
  below the absorbed child, if that child is on the stack. One run from a new store
  misses a key; another, if the slab hands out a freed index again, reports one that was
  never stored (`MissedKey`).

Where the code and its documentation differ the code is followed: `del` returns and
`deln` counts values that have already expired, and `get_ttl` reports a valueless
inner node whose leftover expiry word has not passed.

`dafny verify dfyconfig.toml` checks the whole project.

## Model

| member | source | states |
|---|---|---|
| `FreeList.Walk` | oxidart/src/node_childs.rs:285-311 | following the free list visits every free slot exactly once and stops |
| `SlotVec.Alloc` | oxidart/src/node_childs.rs:285-302 | a slot that was unused becomes occupied; the free list still threads exactly the rest and the count is right |
| `SlotVec.Free` | oxidart/src/node_childs.rs:304-311 | the slot leaves the contents and joins the free list; nothing else changes |
| `ChildTiers.InsertLists` | oxidart/src/node_childs.rs:53-60 | adding an edge anywhere in a list is a map update, with radixes still distinct |
| `ChildTiers.SwapRemoveLists` | oxidart/src/node_childs.rs:61-70 | swap-removal inside one tier is removal from the joint map |
| `ChildTiers.FindInSlot` | oxidart/src/node_childs.rs:178-189 | lookup in light and huge tiers is lookup in the slot's one table |
| `ChildTiers.PushToSlot` | oxidart/src/node_childs.rs:190-207 | a push is a table update in whichever tier has room; a huge table appears only when the light tier is full, and holds the one new edge |
| `ChildTiers.RemoveFromSlot` | oxidart/src/node_childs.rs:208-230 | removal is table removal; an emptied huge table is given back |
| `ChildTiers.IterSlot` | oxidart/src/node_childs.rs:236-252 | iteration lists every entry of the table once |
| `ChildTiers.HugeRoom` | oxidart/src/node_childs.rs:122-137 | the huge tier holds fewer than 121 radixes while the slot holds fewer than 131 and its ten light places are taken |
| `ChildTiers.TableRoom` | oxidart/src/node_childs.rs:6-10 | a node lacking some nonzero ASCII radix has at most 126 children, which is below what the capacity bound of `PushToSlot` asks |
| `Heap.Find` | oxidart/src/lib.rs:281-290 | the three tiers of a node answer as one finite map |
| `Heap.IterChildren` | oxidart/src/lib.rs:652-671 | all children are listed, each once |
| `Heap.PushChild` | oxidart/src/lib.rs:1213-1233 | pushing adds one entry to one node's map, whatever tier it lands in, and keeps slot ownership |
| `Heap.RemoveChild` | oxidart/src/lib.rs:1189-1211 | removing drops one entry of one node and frees an emptied slot |
| `Heap.TryRecompress` | oxidart/src/lib.rs:1134-1186 | a valueless node with one inline child and no slot absorbs it; otherwise nothing changes |
| `Forest.OnePath` | oxidart/src/lib.rs:439-460 | a node whose label is a prefix of another node's key is that node or its ancestor |
| `Forest.SplitTree` | oxidart/src/lib.rs:770-851 | splitting any node inside its compression keeps the tree and every entry |
| `Forest.MergeTree` | oxidart/src/lib.rs:1134-1186 | recompressing any non-root node keeps the tree and every entry |
| `Forest.MergeUndoesSplit` | oxidart/src/lib.rs:770-851 | recompressing right after a split restores the very same grove |
| `Forest.StumpStore` | oxidart/src/lib.rs:997-1060 | cutting at the covering node removes exactly the keys with the prefix |
| `Forest.ValuedCount` | oxidart/src/lib.rs:1090-1131 | as many nodes hold values as keys are stored |
| `Art.CompareMeans` | oxidart/src/lib.rs:1321-1348 | the comparison tells equality, proper prefix, and the maximal common length |
| `Art.Descend` | oxidart/src/lib.rs:439-460 | every descent stops at the node spelling the key, inside a compression, or at a node lacking the next child |
| `Art.MissIsAbsent` | oxidart/src/lib.rs:322-361 | a descent that does not land exactly proves the key is not stored |
| `Art.SplitNode` | oxidart/src/lib.rs:770-851 | making a node for a key that diverges inside a compression is one map update if a value is stored and none otherwise; the resulting slab is given exactly |
| `Art.EnsureKey` | oxidart/src/lib.rs:462-501 | the node of any key, made without a value if there is none; the store does not change |
| `Art.CreateLeaf` | oxidart/src/lib.rs:853-889 | hanging a leaf is one map update if it holds a value and none otherwise |
| `Art.SetInternal` | oxidart/src/lib.rs:733-768 | storing any key is one map update; no node disappears and no label changes |
| `Art.DeleteNode` | oxidart/src/lib.rs:510-526 | deleting a node removes its key only; the slab is given exactly for every node with children and for a leaf whose edge is inline |
| `Art.GetIdx` | oxidart/src/lib.rs:334-361 | finds exactly the unexpired node of a non-empty key, deleting an expired one |
| `Art.Get` | oxidart/src/lib.rs:334-361 | returns the unexpired value of a non-empty key; removes only that key, and only if expired |
| `Art.Del` | oxidart/src/lib.rs:924-967 | removes one non-empty key and returns its stored value |
| `Art.FindAndCut` | oxidart/src/async_command.rs:165-201 | for a non-empty prefix, after the cut the store is what lies outside the prefix; the severed nodes hold as many values as keys matched |
| `Art.FreeChunk` | oxidart/src/async_command.rs:203-236 | frees up to the budget of severed nodes, counts their values and leaves the rest pending |
| `Art.Recompress` | oxidart/src/async_command.rs:305-314 | recompressing a saved index is harmless whether it is gone, in the tree, or severed by another task |
| `Art.Deln` | oxidart/src/lib.rs:1014-1065 | removes and counts exactly the stored keys with a non-empty prefix |
| `Scan.Getn` | oxidart/src/lib.rs:554-605 | reports exactly the live entries with the prefix, each once |
| `Scan.LiveMeans` | oxidart/src/lib.rs:1405-1407 | an entry lives up to and including the second of its expiry word, and for ever with the all-ones word |
| `Scan.ListedMeans` | oxidart/src/lib.rs:554-605 | a pair is in a listing if and only if it is stored, has the prefix and lives in these numbers; no key comes twice |
| `Scan.CollectAll` | oxidart/src/lib.rs:628-649 | reports exactly the live entries of a subtree, each once |
| `Scan.FindPrefixNode` | oxidart/src/async_command.rs:45-84 | finds the node covering the prefix, or proves that no stored key and no node has it |
| `Scan.StartScan` | oxidart/src/async_command.rs:90-107 | the first phase reports the covering node and leaves every other live match, and every other node with the prefix, waiting on the stack |
| `Scan.CollectChunk` | oxidart/src/async_command.rs:113-142 | the loop computes `Chunk` on any stack, skipping frames whose node is gone; the next rows say what that achieves |
| `Scan.ChunkGaps` | oxidart/src/async_command.rs:113-142 | a chunk reports only live keys, never twice, and owes afterwards exactly what it owed before, but for what the vanished frames it skipped lead to |
| `Scan.ChunkGood` | oxidart/src/async_command.rs:113-142 | with all nodes on the stack in the tree a chunk loses nothing and makes progress |
| `Scan.ChunkCounts` | oxidart/src/async_command.rs:113-142 | on a stack of tree nodes a chunk takes each node it visits off those ahead, and visits at least one |
| `Scan.ChunkVisits` | oxidart/src/async_command.rs:113-142 | a chunk that leaves work has used its whole budget, and reports no more keys than it visits nodes |
| `AsyncScan.ScanSurvives` | oxidart/src/async_command.rs:273-281 | a write by another task, splits included, never disturbs a suspended scan |
| `AsyncScan.GetnAsync` | oxidart/src/async_command.rs:259-284 | interleaved with any stores and clock changes: every match live throughout is reported exactly once, every reported key was live when it was visited; the scan is suspended after every 256 nodes while nodes are left, keys of chunk b are visited in the state after b suspensions, and the nodes visited that way are, when only the clock moves, all nodes with the prefix but the covering one, and otherwise no fewer; undisturbed it is `getn` |
| `AmidScan.GetnAmid` | oxidart/src/async_command.rs:259-284 | whatever other tasks do, as long as every frame names its tree node or a node that is gone: a match live in all scenes is reported, once, if and only if no frame that leads to it was skipped; every reported key was live when visited; with no node gone nothing is skipped, and each chunk that leaves work takes exactly 256 nodes off those ahead |
| `AmidScan.FinishScan` | oxidart/src/async_command.rs:271-281 | the rest of a scan after any such disturbance misses exactly the keys it owes that a vanished frame leads to |
| `AmidScan.RecompressedScan` | oxidart/src/lib.rs:1134-1186 | after a recompression the rest of the scan is right if and only if the absorbed child is off the stack or no key that is owed lies at or below it |
| `AmidScan.LeafLosesNothing` | oxidart/src/lib.rs:953-967 | after a leaf is removed no stored key lies below its frame |
| `AmidScan.CutLosesNothing` | oxidart/src/lib.rs:1050-1055 | after a cut no stored key lies below the frame of any node of the cut subtree |
| `MissedKey.MissAKey` | oxidart/src/async_command.rs:259-284 | a run from a new store: 257 keys set, one chunk of `getn_async`, one `del`, the next chunk; the scan ends without a key that was live all the time |
| `MissedKey.ReportAGhost` | oxidart/src/async_command.rs:259-284 | the same run with one more `set`: if the slab hands out a freed index of the stack again, the scan reports a key that was never stored |
| `Executor.StepTask` | oxidart/src/async_command.rs:296-317 | one poll of a pending deletion leaves the store and all other tasks alone, frees 256 severed nodes if that many are left, and otherwise finishes with the promised count |
| `Executor.Finish` | oxidart/src/async_command.rs:305-314 | the final recompress keeps every invariant whatever became of the saved parent |
| `Executor.Apply` | oxidart/src/lib.rs:310-361 | each command, on any key or prefix the state survives, answers as the plain map does and leaves pending deletions alone; a `deln_async` leaves what exceeds 256 of the nodes with the prefix; a poll answers exactly when at most 256 severed nodes are left |
| `Executor.Execute` | oxidart/src/async_command.rs:286-317 | every run from a new store, pending `deln_async` calls interleaved at will, gives the plain map's answers while each poll does its work; it ends early only at an expiry beyond 56 bits, or at a command on the empty key or prefix, in the stated state of the root, that leaves no tree; so it never ends early without such commands; with all deletions finished nothing severed is left |
| `Executor.DeletionAnswers` | oxidart/src/async_command.rs:296-317 | in every run a pending deletion has returned exactly its promised count after one poll for every 256 severed nodes it had left |
| `History.RunAnswers` | oxidart/src/lib.rs:310-361 | in every run each answer is what the commands before it spell: a `get` gives the value last stored under its key and not deleted since, if its time has not passed; `del`, `getn`, `deln` and `deln_async` likewise |
| `History.PollAnswers` | oxidart/src/async_command.rs:286-317 | a later poll frees 256 nodes or the rest, and answers exactly in the second case, with the number of keys the commands before the call had left under the prefix |
| `RoundTrip.InsideOrNot` | oxidart/src/lib.rs:733-768 | the descent stops inside a compression exactly when some node leads towards the key and then away from it |
| `RoundTrip.SetThenDel` | oxidart/src/lib.rs:915-968 | storing a key that splits a node and deleting it again restores slab and arena exactly |
| `Determined.StoreDetermined` | oxidart/src/lib.rs:115-122 | what a heap stores and which nodes hang from its root are functions of the heap alone |
| `Reachability.NoNodeLeaks` | oxidart/src/lib.rs:1090-1131 | live nodes are exactly those reachable from the root, each by one path |
| `Reachability.NoSlotLeaks` | oxidart/src/lib.rs:1189-1233 | every occupied overflow slot has exactly one owner and every link leads to an occupied slot |
| `Reachability.NoHugeLeaks` | oxidart/src/node_childs.rs:254-268 | every huge table backs exactly one slot |
| `Reachability.GetTtl` | oxidart/src/lib.rs:370-388 | the remaining time of a live key, with no underflow; expired and absent keys do not exist, valueless inner nodes excepted exactly |
| `Reachability.GetInvisible` | oxidart/src/lib.rs:322-361 | whatever a `get` of any key tears down, the same keys are live now and at every later time, except for the breaking lookup of an expired empty key |
| `Roots.GetRoot` | oxidart/src/lib.rs:325-331 | right answer; the tree survives unless the root is expired and has one inline child and no slot |
| `Roots.DelRoot` | oxidart/src/lib.rs:918-922 | right answer; the tree survives if and only if the root has not exactly one inline child without a slot |
| `Roots.LoseOneKey` | oxidart/src/lib.rs:918-922 | with a single stored key, deleting the absent empty key makes it unreachable |
| `Roots.LoseByLookup` | oxidart/src/lib.rs:325-331 | with a single stored key, looking up an expired empty key breaks the tree |
| `Lookups.FoundIsStored` | oxidart/src/lib.rs:334-361 | lookup as a function of the slab alone answers as the store, for every key |
| `Lookups.DelRootShifts` | oxidart/src/lib.rs:918-922 | after the breaking `del("")` every lookup, the empty key's included, answers as on the store with the absorbed bytes cut off the front of every key |
| `Roots.DelnRoot` | oxidart/src/lib.rs:1001-1012 | right count; the tree is emptied properly if and only if the root has no overflow slot |
| `Roots.LoseSevenKeys` | oxidart/src/lib.rs:1001-1012 | seven one-byte keys in a new store, then `deln("")`: the count is seven and the tree is broken |
| `Roots.LoseSevenKeysAsync` | oxidart/src/async_command.rs:153-162 | the same seven keys, then `deln_async("")` |
| `Roots.CutRoot` | oxidart/src/async_command.rs:153-162 | without an overflow slot at the root, the cut of `deln_async("")` severs everything below the root, keeps the root's value and counts it if unexpired |
| `Roots.DelnAsyncRoot` | oxidart/src/async_command.rs:153-162 | with nothing interleaved: the root's value stays and is counted if unexpired; the rest is emptied properly if and only if the root has no overflow slot |
| `Roots.GetAny` | oxidart/src/lib.rs:310-361 | `get` of any key: right answer; the tree survives unless the empty key is expired and the root has one inline child and no slot |
| `Roots.DelAny` | oxidart/src/lib.rs:915-968 | `del` of any key: right answer; the tree survives unless the key is empty and the root has one inline child and no slot |
| `Roots.DelnAny` | oxidart/src/lib.rs:997-1065 | `deln` of any prefix: right count; the tree survives unless the prefix is empty and the root has an overflow slot |
| `RegexScan.DeadPrefix` | oxidart/src/regex.rs:90-99 | an automaton dead on a prefix accepts no extension |
| `RegexScan.CollectRegex` | oxidart/src/regex.rs:76-120 | the pruned traversal terminates with exactly the live entries whose key is accepted, each once |
| `RegexScan.CollectedMeans` | oxidart/src/regex.rs:76-120 | a pair is listed if and only if it is stored, lives in numbers, and the state after the last byte of its key matches at the end of input |
| `OxidArt.OxidArt.constructor` | oxidart/src/lib.rs:141-153 | a new store is empty |
| `OxidArt.OxidArt.SetNow` | oxidart/src/lib.rs:156-158 | moving the clock changes no entry |
| `OxidArt.OxidArt.Set` | oxidart/src/lib.rs:698-700 | one map update without expiry |
| `OxidArt.OxidArt.SetTtl` | oxidart/src/lib.rs:728-731 | one map update expiring at now plus the duration |
| `OxidArt.OxidArt.Get` | oxidart/src/lib.rs:310-314 | the value of any key stored and not past its expiry word; at most the expired key itself disappears, or the object breaks, exactly as `Roots.GetAny` says |
| `OxidArt.OxidArt.GetTtl` | oxidart/src/lib.rs:370-388 | the remaining time of a live key; an expired one does not exist, nor does an absent one unless a valueless node spells it whose leftover expiry word has not passed |
| `OxidArt.OxidArt.Getn` | oxidart/src/lib.rs:554-605 | exactly the live entries with the prefix |
| `OxidArt.OxidArt.Del` | oxidart/src/lib.rs:915-968 | removes any one key, or breaks exactly as `Roots.DelAny` says |
| `OxidArt.OxidArt.Deln` | oxidart/src/lib.rs:997-1065 | removes and counts the keys with any prefix, or breaks exactly as `Roots.DelnAny` says |
| `OxidArt.OxidArt.EnsureKey` | oxidart/src/lib.rs:462-501 | making the node of a key changes no entry |
| `OxidArt.StoredFor` | oxidart/src/lib.rs:728-731 | a key stored at a time for a number of seconds is found, listed and has the remaining time left up to and including the last second, and never after; the all-ones sum is for ever |
| `OxidArt.StoredForEver` | oxidart/src/lib.rs:698-700 | a key stored without a duration is found and listed at every time, without a remaining time |
| `OxidArt.SetTtlThenGet` | oxidart/src/lib.rs:728-731 | the same law on the object: `set_ttl`, then the clock moves, then `get_ttl` and `get` |
| `OxidArt.SetThenGet` | oxidart/src/lib.rs:698-700 | on the object, a key set without a duration is there at every time |
| `GenArena.SlotLife` | radixox-lib/src/gen_arena.rs:49-85 | over any run a slot is removed as often as the run removed it, and keeps its own value until then |
| `GenArena.KeyLife` | radixox-lib/src/gen_arena.rs:101-109 | a key resolves later if and only if its slot is occupied and was removed a multiple of 2^32 times |
| `GenArena.KeySafety` | radixox-lib/src/gen_arena.rs:49-127 | below 2^32 removals a key resolves until its removal, to its own value, and never afterwards |
| `GenArena.StaleKeyReturns` | radixox-lib/src/gen_arena.rs:63-75 | the bound is sharp: from any state a run of 2^32 reuses makes a stale key resolve to a later owner's value |
| `GenArena.GenArena.GrowTo` | radixox-lib/src/gen_arena.rs:112-127 | new slots are free, never removed, and linked in front of the free list |
| `GenArena.GenArena.Insert` | radixox-lib/src/gen_arena.rs:49-60 | an empty slot takes the value, the head of the free list if there is one and a new slot otherwise; the returned key resolves to it |
| `GenArena.GenArena.Remove` | radixox-lib/src/gen_arena.rs:63-75 | only a resolving key removes, only its own slot, and gives the value back |
| `GenArena.GenArena.Update` | radixox-lib/src/gen_arena.rs:83-85 | writing through a key changes that key's value only |
| `GenArena.GenArena.Get` | radixox-lib/src/gen_arena.rs:78-80 | answers exactly the resolving keys with their values |
| `GenArena.GenArena.FreeListComplete` | radixox-lib/src/gen_arena.rs:49-127 | the free list is acyclic and covers exactly the empty slots |
| `PubSub.LocalStep` | radixox/src/bin/utils/mod.rs:41-59 | a step on one connection, socket and writer keeps the invariant of all others |
| `PubSub.SendPubOk` | radixox/src/bin/utils/mod.rs:350-368 | however a subscriber's frame goes out, the books balance and nobody is left without a wake-up |
| `PubSub.WrittenOk` | radixox/src/bin/utils/mod.rs:373-388 | after a write the writer goes on if more arrived, else returns home; the restitution assertion holds |
| `PubSub.BeginOk` | radixox/src/bin/utils/mod.rs:393-401 | the second swap keeps the books, and the order unless it overtakes |
| `PubSub.FlushAllOk` | radixox/src/bin/utils/mod.rs:292-299 | the flush loop wakes every listed connection that has its writer home |
| `PubSub.NextOk` | radixox/src/bin/utils/mod.rs:268-421 | every step of every task keeps the invariant |
| `PubSub.OvertakingReorders` | radixox/src/bin/utils/mod.rs:393-401 | a start that overtakes does lose the order |
| `PubSub.Conservation` | radixox/src/bin/utils/mod.rs:41-77 | in every reachable state frames appended are frames written, in flight and buffered; write half and swap buffer are both home or both with one task |
| `PubSub.NoLostWakeup` | radixox/src/bin/utils/mod.rs:367-421 | with no writer in flight and no publisher before its flush loop, a connection whose write has not failed has something left to write if and only if it is stranded; otherwise it received what was appended for it |
| `PubSub.OnlyFailuresStrand` | radixox/src/bin/resp_cmd/pub_sub.rs:38-49 | only a publisher whose reply cannot be written, or who is gone, strands a connection, and only one it should have woken |
| `PubSub.TriggerHelps` | radixox/src/bin/utils/mod.rs:292-299 | the next trigger takes a connection off the stranded ones |
| `PubSubRuns.InOrderDelivery` | radixox/src/bin/utils/mod.rs:393-421 | without overtaking, what was written is a prefix of what was appended |
| `PubSubRuns.EverythingDelivered` | radixox/src/bin/resp_cmd/pub_sub.rs:38-49 | after a run without failures and with all tasks done, every subscriber got exactly what was recorded as appended for it |
| `PubSubProgress.StepsRest` | radixox/src/bin/utils/mod.rs:393-421 | every step of a suspended task, failed or not, lowers the number of steps the tasks can still take |
| `PubSubProgress.SettlingEnds` | radixox/src/bin/utils/mod.rs:393-421 | without new events the write tasks end in boundedly many steps, respawns included |
| `PubSubProgress.ComesToRest` | radixox/src/bin/resp_cmd/pub_sub.rs:38-49 | every run without failures can be carried on by its own tasks until none is left and every subscriber has everything |
| `PubSubLaws.Appends` | radixox/src/bin/utils/mod.rs:268-421 | one event appends exactly the frames it addresses to a socket, byte for byte what the protocol says, and a finished write writes exactly its buffer: a publication goes to each connected subscriber once per subscription, then the count to the publisher |
| `PubSubLaws.LedgerMeans` | radixox/src/bin/utils/mod.rs:268-421 | over a run, what is recorded as appended and written is what the events address and write |
| `PubSubLaws.AddressedIsConserved` | radixox/src/bin/utils/mod.rs:41-77 | in every run, what was addressed to a healthy subscriber is what was written, what is in flight and what is buffered |
| `PubSubLaws.AddressedIsDelivered` | radixox/src/bin/resp_cmd/pub_sub.rs:38-49 | after a run without failed writes or absent publishers and with all tasks done, every subscriber got exactly what was addressed to it |
| `PubSubLaws.AddressedInOrder` | radixox/src/bin/utils/mod.rs:393-421 | as long as no write task starts with two buffers whose order matters, what was written is a prefix of what was addressed |
| `PubSubLaws.TableMeans` | radixox/src/bin/utils/mod.rs:161-264 | over a run, a session is listed for a channel exactly as often as it joined it since it last left it or was cleaned up |
| `PubSubLaws.PublishReaches` | radixox/src/bin/utils/mod.rs:268-289 | a publication reaches every connected session once for each of those subscriptions, and the reply counts all of them |
| `PubSubLaws.Joins` | radixox/src/bin/utils/mod.rs:161-199 | the first subscription makes the session a connection under a fresh id, on its own socket, with count one |
| `PubSubLaws.Leaves` | radixox/src/bin/utils/mod.rs:203-264 | an unsubscription lowers the count, not below zero; with none left and the writer home the session is back in normal mode with its unsent frames, and otherwise it stays |
| `PubSubLaws.CleansUp` | radixox/src/bin/utils/mod.rs:302-308 | a cleaned-up connection is gone, and nothing else |
| `PubSubLaws.FarewellMeans` | radixox/src/bin/utils/mod.rs:203-264 | the replies to an unsubscription name the channels in order and count down to what is left |
| `PubSubLaws.CountMeans` | radixox/src/bin/utils/mod.rs:179-246 | over a run, the count kept with a connection is the one that the events give |
| `PubSubRuns.MessageOvertaken` | radixox/src/bin/utils/mod.rs:292-299 | a run in which a later message is written before an earlier one |
| `PubSubRuns.StuckMessage` | radixox/src/bin/resp_cmd/pub_sub.rs:38-49 | a run in which a failed reply leaves a message in a healthy connection's buffer with nobody to write it |
| `Registry.SubRegistry.PublishEncode` | radixox/src/bin/utils/mod.rs:268-289 | the argument error, or the message appended to the buffer of every existing connection once for each of its subscriptions, those to wake, and the count of subscriptions as the reply |
| `Registry.SubRegistry.TriggerWrite` | radixox/src/bin/utils/mod.rs:292-299 | takes the writer and the filled buffer into a new write task, unless the writer is out |
| `Registry.SubRegistry.Flush` | radixox/src/bin/resp_cmd/pub_sub.rs:45-47 | triggers every listed connection in order |
| `Registry.SubRegistry.HandlePubsubWrite` | radixox/src/bin/utils/mod.rs:350-368 | appends, then writes inline with everything buffered, or leaves the frame to the holder of the writer |
| `Registry.SubRegistry.Publish` | radixox/src/bin/resp_cmd/pub_sub.rs:38-49 | append, reply, flush: one step of the transition system, invariant kept, appending exactly the frames that `PubSubLaws.Appends` spells out |
| `Registry.SubRegistry.Subscribe` | radixox/src/bin/utils/mod.rs:161-199 | the session is added at the end of the channel's list, becomes a connection with its pending buffer and is sent its confirmation with count one |
| `Registry.SubRegistry.SubscribeMore` | radixox/src/bin/utils/mod.rs:179-199 | a subscriber is added at the end of a further channel's list and is sent its confirmation with the new count |
| `Registry.SubRegistry.Accept` | radixox/src/bin/utils/mod.rs:312-319 | a new client starts in normal mode with nothing buffered |
| `Registry.SubRegistry.Send` | radixox/src/bin/utils/mod.rs:325-348 | any other reply goes out through the session's mode |
| `Registry.SubRegistry.Unsubscribe` | radixox/src/bin/utils/mod.rs:203-264 | the session is taken off the named channels, or all, and nobody else is; the count falls accordingly, the replies are given, and with none left and the writer home the session is back in normal mode with its unsent frames |
| `Registry.SubRegistry.Cleanup` | radixox/src/bin/utils/mod.rs:302-308 | the connection is taken off every channel and out of the arena, and nobody else is |
| `Registry.SubRegistry.StartTask` | radixox/src/bin/utils/mod.rs:393-401 | a write task swaps buffers once more and writes what the connection has buffered, or ends if the connection is gone |
| `Registry.SubRegistry.WriteDone` | radixox/src/bin/utils/mod.rs:411-420 | respawns when more arrived, else restitutes the writer |
| `Registry.SubRegistry.FinishOk` | radixox/src/bin/utils/mod.rs:367-388 | a completed write of a task or session, with the publisher's flush loop after it |
| `Registry.SubRegistry.FinishFailed` | radixox/src/bin/utils/mod.rs:403-409 | a failed write cancels the connection, ends the task and drops the publisher's flush |
| `ZSet.ListingUnique` | oxidart/src/zset_inner.rs:16-19 | a score table has exactly one strictly ascending listing |
| `ZSet.OrderMeans` | oxidart/src/zset_inner.rs:16-19 | in every listing scores do not fall as real numbers, infinities and NaN in their places, and at equal scores the members first differ at a smaller byte or the earlier is a proper prefix |
| `ZSet.InsertLarge` | oxidart/src/zset_inner.rs:32-51 | both indexes describe the same updated table; true exactly for a new member |
| `ZSet.Promote` | oxidart/src/zcommand.rs:76-87 | promotion moves exactly the pairs of the vector and the new one into both indexes |
| `ZSet.Insert` | oxidart/src/zcommand.rs:60-102 | insert-or-update of the member's score in either representation; true exactly for a new member; promotion exactly when a seventeenth member comes |
| `ZSet.Remove` | oxidart/src/zcommand.rs:104-116 | removes the member only; true exactly if it was there |
| `ZSet.ScoreOf` | oxidart/src/zcommand.rs:119-127 | the member's score in either representation |
| `ZSet.IterDetermined` | oxidart/src/zcommand.rs:142-149 | iteration is the ascending listing, the same from either representation and any history |
| `ZSet.Replay` | oxidart/src/zcommand.rs:60-116 | any history of inserts and removes across the promotion leaves the table it spells |
| `ZSet.Zrange` | oxidart/src/zcommand.rs:231-272 | the Python-style rank slice in order, with the one exceptional case stated exactly and no overflow |
| `ZSet.SliceMeans` | oxidart/src/zcommand.rs:246-262 | the slice holds exactly the ranks from start to stop, a negative index counting from the end |
| `ZSet.ReportMeans` | oxidart/src/zcommand.rs:263-272 | the reply lists the members in order, each followed by its score if scores are asked for |
| `ZSet.StopBeforeStartDiffers` | oxidart/src/zcommand.rs:254-262 | in the exceptional case the reply always differs from the slice |
| `Resp.WriteUsize` | radixox-lib/src/shared_frame.rs:192-205 | appends the decimal digits; the 20-byte buffer never underflows |
| `Resp.WriteI64` | radixox-lib/src/shared_frame.rs:208-215 | appends the signed decimal digits of any i64 |
| `Resp.ArgU64` | radixox-lib/src/cmd.rs:268-280 | accepts exactly the non-empty digit strings below 2^64, with their value |
| `Resp.ArgI64` | radixox-lib/src/cmd.rs:282-302 | accepts exactly the signed digit strings within plus or minus 2^63 - 1, with their value |
| `Resp.NumberStep` | radixox-lib/src/cmd.rs:268-280 | what a digit string stands for, one more ASCII digit at a time |
| `Resp.PrintThenReadU64` | radixox-lib/src/cmd.rs:268-280 | every printed u64 is read back |
| `Resp.PrintThenReadI64` | radixox-lib/src/cmd.rs:282-302 | every printed i64 is read back except the most negative one, which is rejected |
| `Resp.EncodeFrame` | radixox-lib/src/shared_frame.rs:217-254 | appends the encoding of any nested frame |
| `Resp.DecimalShape` | radixox-lib/src/shared_frame.rs:192-205 | printed numbers are ASCII digits without leading zeros |
| `Resp.WireShape` | radixox-lib/src/shared_frame.rs:217-254 | every encoding begins with the byte of its kind and ends with CR LF, in numbers |
| `Resp.WireExample` | radixox-lib/src/shared_frame.rs:217-254 | a reply with a bulk string, a negative integer, a simple string and a null, byte for byte |
| `Resp.EncodeLenExact` | radixox-lib/src/shared_frame.rs:43-56 | the computed length of any nested frame is the length of its encoding |
| `Resp.PrefixFree` | radixox-lib/src/shared_frame.rs:217-254 | on frames without CR LF in simple strings and errors, the first frame and the rest are determined |
| `Resp.PipelineUnique` | radixox-lib/src/shared_frame.rs:217-254 | a concatenation of such frames decodes to one list only |
| `Resp.LineBreakForges` | radixox-lib/src/shared_frame.rs:219-223 | a CR LF inside a simple string makes it equal to two frames |
| `RespDecoder.DecodesIff` | radixox-lib/src/shared_frame.rs:217-254 | a first-CR LF decoder recovers a frame and what follows it if and only if no simple string or error inside contains a CR LF |
| `RespDecoder.PipelineDecodesIff` | radixox-lib/src/shared_frame.rs:217-254 | the same for a pipelined list |
| `RespDecoder.LineBreakShortens` | radixox-lib/src/shared_frame.rs:219-223 | every simple string with a CR LF begins with the encoding of a shorter, clean one |
| `Tokenizer.ParseUint` | radixox-lib/src/cmd.rs:244-257 | reads the digits before the first other byte if that is a CR, as their number modulo the word size |
| `Tokenizer.FromSlice` | radixox-lib/src/cmd.rs:574-598 | the tokenizing loop computes `Request`, malformed input included; the rows below say what that is |
| `Tokenizer.RequestExact` | radixox-lib/src/cmd.rs:574-601 | exactly the requests, in any spelling of their lengths and with anything after them, are accepted, with exactly their arguments |
| `Tokenizer.AbortsIff` | radixox-lib/src/cmd.rs:587-596 | reading aborts if and only if, after a good count and some good bulk strings, a length is announced whose end exceeds a machine word |
| `Tokenizer.AbortingRequest` | radixox-lib/src/cmd.rs:587-596 | one request that aborts |
| `Tokenizer.RequestRoundTrip` | radixox-lib/src/cmd.rs:574-601 | tokenizing the encoding of any non-empty list of byte strings, any bytes following, gives the list back |
| `Tokenizer.PingExample` | radixox-lib/src/cmd.rs:574-601 | the bytes of a one-word request give that word, whatever follows |

## Left out

- In-place update of the tree's slab, of sorted sets and of reply buffers: they are modelled on owned values, so aliasing inside them is not captured; the class `OxidArt` captures the object's own state change.
- Eviction (`evict_expired`) and the stored back-pointers it uses: they depend on a random choice and are not maintained by splits and merges.
- Slab capacity and index width: indices are unbounded, and the slab may pick any free index.
- `OxidArt.OxidArt.SetTtl`: an expiry that does not fit in 56 bits is refused by an assertion in the code and is a precondition here.
- `GenArena.GenArena.Insert`: an arena of 2^32 - 1 occupied slots cannot grow; this is a precondition.
- `AmidScan.GetnAmid`: scans that meet a severed but unfreed node or a reused index are outside its condition; `MissedKey.ReportAGhost` shows what a reused index can do.
- `Roots.DelnAsyncRoot`: the case of a root with an overflow slot is stated for a deletion that nothing interrupts; the other case runs interleaved in `Executor`.
- Keys with NUL or non-ASCII bytes, which the tree does not accept.
- `expire` and `persist`, the typed getters, and the hash, set and counter commands: they would only add easier refinements.
- Raw-memory representations of values and strings: values are abstract, compressions are sequences.
- `Registry.SubRegistry.Unsubscribe`: the order in which a hash table lists the channels of a session is a parameter.
- Cancellation futures: a failed write marks the connection, and its cleanup is a later step.
- Socket bytes: buffers hold whole frames, and `Resp.PipelineUnique` says that their bytes determine the frames.
- Connection ids in `PubSub` are never reused, which `GenArena.KeySafety` gives below 2^32 removals per slot.
- `Tokenizer.FromSlice`: arithmetic wraps as in a release build; the dispatch of the tokens to commands is a finite case analysis and not modelled.
- `ZSet.Zrange`: the lookup of the key in the tree and the text form of scores are not modelled; the two floating-point zeros are one score.
- The ordered index of large sorted sets is the standard library's; it is modelled by its in-order listing.
- The regular-expression compiler: the automaton is given, with absorbing non-matching dead states.
- Sockets, runtime, tickers and command handlers.
