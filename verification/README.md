# Verified models of the FastRPC user-space data structures

FastRPC lets a process on the application processor call into a DSP. Its
user-space library keeps its state in a handful of small, dense data structures
and lock-free protocols. This project models them in Dafny and proves what they
promise: what every step of a protocol keeps, what whole runs end in, and that
the in-place code computes a simple abstract function.

Code that updates memory is modelled by classes and methods over the same
fields, each method proved against a pure function of the old state, and the
promises are lemmas about those functions. The concurrent protocols are state
machines in which the loads, compare-and-exchanges and exchanges of the source
are steps of their own, but for the merges named under "Left out", and a trace
may interleave any number of threads in any order.

| file | models |
|---|---|
| QList.dfy | the circular list of inc/AEEQList.h, its branch-free moves and its deletion-safe iteration |
| HashBuckets.dfy, Bits.dfy | the bucket half of inc/uthash.h: chains, counters, growth and its heuristics |
| StableSort.dfy, HashSort.dfy | the application-order list of inc/uthash.h and its bottom-up merge sort |
| HashTable.dfy, TableRun.dfy | both halves together: find, add, delete, sort, the self-check, and whole runs |
| DomainTable.dfy | the table of nodes per domain in inc/fastrpc_hash_table.h |
| Pls.dfy | process-local storage in inc/pls.h |
| PlsCalls.dfy | what its calls come back with, and that they do |
| HandleCache.dfy | the lazily opened handle in src/adsp_current_process_stub.c |
| Sbuf.dfy, ListenerBuf.dfy | the serialization window of inc/sbuf.h and the message packing of inc/listener_buf.h |
| SbufParser.dfy | the parser combinators of inc/sbuf_parser.h |
| RemoteScalars.dfy, ListenerStub.dfy | the scalar word of inc/remote.h and the marshalling of src/adsp_listener_stub.c |
| BufBound.dfy | the counting bounded buffer of src/BufBound.c |
| PlatformLibs.dfy | the reference-counted libraries of src/platform_libs.c |
| PlatformConditions.dfy | for which libraries its promises hold, whatever their constructors return |
| Ints.dfy, Wrappers.dfy | machine integers, options, sequences without repetition |

## How the models are set up

- **Hash table.** An element and its handle are one object: `next`/`prev` are the
  element pointers of the application order, `hhNext`/`hhPrev` the handle
  pointers of the bucket chain. The hash function is any function of the key.
  `HashTable.Valid` is the invariant the source's own self-check walks for
  (inc/uthash.h:267-317), plus the growth policy; `Fsck` is that check and is
  proved to pass on every valid table. Adding does not look for an equal key,
  so uniqueness is a separate predicate that find-then-add keeps. A sort
  argument is any comparison that is a total preorder on the elements.
- **Concurrent code.** `Pls.Next` and `HandleCache.Next` are the programs, one
  step at a time. In `Pls`, the record of pushes, destructors, frees and
  answers is never read by a step, and an address may be used again after it is freed. A key is
  used either with `pls_add` (set `plain`) or with `pls_add_lookup_singleton`, as
  the source asks of callers (inc/pls.h:148).
- **Serialization.** A message is a sequence of cells, a byte or a skipped
  padding position. `Overlay(cells, k, m)` is memory `m` after the cells are
  written with `m[0]` standing at position `k`: measuring, one-shot packing and
  packing through windows are three uses of it.
- **Parsers.** A consumer is a `Grammar`; `&&` and `||` of consumers are `And`
  and `Or`. `Parse` computes, the methods of `ParseBuf` move the cursor, and
  `Comes` says, as a relation in which a loop is a sequence of cursors, what a
  consumer means.
- **Libraries.** What a library's constructor returns is an arbitrary function,
  so failures can happen anywhere. A constructor takes its dependencies in
  order and runs its own code. When something fails, a library with `all` gives
  back all its dependencies, as src/fastrpc_apps_user.c:3919-3973 and the pattern
  in inc/platform_libs.h:112-126 do; any other gives back what it took. `lost`
  records the references that were given back without having been taken.

## What turned out not to hold

Each of these is proved: the exact condition, and a run or input that shows the
failure.

- `pls_ctor` stores its pointer-sized thread number in 32 bits (inc/pls.h:30,
  76-79). Every block is destroyed once all threads are done exactly when the
  number fits (`Pls.AllDestroyedIff`, `Pls.LeakRun`). The list is never drained
  while a reference is held, the one `pls_ctor` takes for the thread it names
  included, exactly when no other thread has the truncated number
  (`Pls.NoEarlyDrainIff`, `Pls.AliasRun`). One node per singleton key, no use
  after free, and a zero count that is never revived hold with or without such a
  thread: it plays the part of the named one (`Pls.Unaliased`). The only call in
  the repository passes 1 (src/gpls.c:14), so this concerns other users of the
  header.
- A handle that opens successfully with the value that means "none" is never
  closed, and its caller is told that the call failed
  (`HandleCache.AllClosedIff`, `HandleCache.LeakRun`).
- A library that gives back all its dependencies when its constructor fails is
  harmless with at most one dependency. Call libraries tidy when all that do so
  have at most one. Whatever constructors return, in every balanced run, uRefs is
  the outstanding direct references plus the live dependents exactly for tidy
  libraries (`PlatformConditions.ExplainedIff`), and constructors and destructors
  run in order, none being torn down under a live dependent, exactly for tidy
  libraries (`PlatformConditions.OrderIff`).
  `PlatformConditions.DestroyedUnderDependent` is a run of two calls in which a
  library is destroyed under one that needs it; src/fastrpc_apps_user.c:3837-3973,
  with three dependencies, has that shape. When no constructor fails nothing is
  lost, tidy or not (`PlatformConditions.SucceedingConserves`).
- `pl_init` stops at the first failure without giving back, and `pl_deinit`
  gives back every entry. That restores the counters exactly when every entry
  before the last comes up, for tidy libraries and only for them
  (`PlatformLibs.RestoresIffTidy`, `PlatformConditions.RestoresAlwaysIff`).
  Otherwise a library that nobody took ends below zero and is not constructed
  when it is next asked for (`PlatformLibs.StopsEarly`).
- `sbuf_many` does not give back what its last, failing turn consumed: it stops at
  the longest repeated prefix, on all data, exactly for the consumers that never
  consume when they fail (`SbufParsers.ManyLongestIff`). A string consumer is not
  one of them (`SbufParsers.ManyOfStringOvershoots`).
- The length a bounded buffer reports is the total of the moves asked for,
  saturated once, exactly as long as no move turns back from beyond an end
  (`BufBounds.ReportsTotalIff`); stepping back from the start and stepping
  forward at INT_MAX are lost (`BufBounds.TurnsBackAtStart`,
  `BufBounds.TurnsBackAtEnd`).
- `unpack_in_bufs` compares a length word as an int: a slot that is given a
  pointer stays inside the memory exactly when its word is below 2^31 and the
  memory does not begin after it, which it never does at offset 0
  (`ListenerBufs.InsideIff`, `ListenerBufs.PointsOutside`).

## Model

| member | source | states |
|---|---|---|
| QLists.InsPrev | inc/AEEQList.h:30-38 | a node outside a ring is linked in before `me`: the ring read from `me` gains it at the end |
| QLists.InsNext | inc/AEEQList.h:41-49 | a node outside a ring is linked in right after `me` |
| QLists.Dequeue | inc/AEEQList.h:53-60 | the rest of the ring stays a ring, and the node keeps its own pointers |
| QLists.DequeueZ | inc/AEEQList.h:62-78 | a queued node leaves its ring and is zeroed, one not queued is left alone |
| QLists.RingDetermined | inc/AEEQList.h:30-60 | the pointers determine the sequence: no ring stands for two lists |
| QLists.RingRotate | inc/AEEQList.h:30-60 | a ring read from any other of its nodes is a ring |
| QLists.RingJoin | inc/AEEQList.h:135-149 | two linked runs with crossing ends form one ring |
| QLists.QList.Zero | inc/AEEQList.h:85-94 | the list is empty, whatever it was |
| QLists.QList.IsEmpty | inc/AEEQList.h:97-100 | holds exactly for the empty sequence |
| QLists.QList.AppendNode | inc/AEEQList.h:108-111 | the sequence gains the node at the end, and nothing but four pointers changes |
| QLists.QList.PrependNode | inc/AEEQList.h:114-117 | the sequence gains the node at the front |
| QLists.Splice | inc/AEEQList.h:135-147 | the four pointer moves, without a branch, join the two lists in every case |
| QLists.QList.CtorFrom | inc/AEEQList.h:120-131 | the target becomes the source's sequence and the source becomes empty, empty or not |
| QLists.QList.AppendList | inc/AEEQList.h:135-149 | concatenation, the source becomes empty, in all four cases of empty and non-empty lists |
| QLists.QList.GetFirst | inc/AEEQList.h:178-183 | the first element, or null exactly when empty |
| QLists.QList.GetLast | inc/AEEQList.h:185-190 | the last element, or null exactly when empty |
| QLists.QList.Pop | inc/AEEQList.h:192-201 | removes and returns the first element; an empty list stays a valid empty list |
| QLists.QList.PopZ | inc/AEEQList.h:203-210 | as Pop, with the removed node zeroed |
| QLists.QList.PopLast | inc/AEEQList.h:212-221 | removes and returns the last element; an empty list stays a valid empty list |
| QLists.QList.PopLastZ | inc/AEEQList.h:223-230 | as PopLast, with the removed node zeroed |
| QLists.QList.Remove | inc/AEEQList.h:72-78 | dequeuing any member removes exactly it from the sequence |
| QLists.NextSafeForAll | inc/AEEQList.h:173-176 | visits every original node once, in order, while any subset is dequeued, and leaves the others in order and the dequeued zeroed |
| QLists.ForAll | inc/AEEQList.h:152-155 | visits the whole sequence in order |
| QLists.RevForAll | inc/AEEQList.h:162-165 | visits the whole sequence backwards |
| HashBuckets.Table.constructor | inc/uthash.h:138-155 | 32 empty buckets, and no expansion on record |
| HashBuckets.LinkFront | inc/uthash.h:598-609 | the element becomes the head of its chain, and every other chain stays |
| HashBuckets.DelInBkt | inc/uthash.h:612-622 | the chain loses exactly the element, counts stay chain lengths, multipliers stay |
| HashBuckets.Place | inc/uthash.h:673-684 | moving one element to its new bucket keeps count, multiplier and non-ideal total exact |
| HashBuckets.MoveChain | inc/uthash.h:670-686 | emptying one old chain pushes all its elements onto the chains of their hashes |
| HashBuckets.Redistribute | inc/uthash.h:668-687 | the new chains are those of the doubled mask, with exact statistics |
| HashBuckets.PushAllAt | inc/uthash.h:668-687 | a new chain is what was there, preceded by the elements with that hash, last first |
| HashBuckets.PickedMember | inc/uthash.h:668-687 | an element lands in chain b exactly when its hash selects b |
| HashBuckets.RedistributedComplete | inc/uthash.h:653-699 | if every element was on the chain of its hash, every one is on exactly the chain of its hash under the doubled mask |
| HashBuckets.ModHalf | inc/uthash.h:185-188 | the bucket under the doubled mask is the old one or the old one plus the old size |
| HashBuckets.Table.SetIdeal | inc/uthash.h:664-666 | the shift-and-mask formula is what is stored, and is positive |
| HashBuckets.IdealIsCeil | inc/uthash.h:640-666 | the shift-and-mask formula is the least number of elements a fullest bucket must hold, ceil(n/b) |
| HashBuckets.Table.Rehash | inc/uthash.h:653-687 | fresh buckets hold the redistribution, the non-ideal total is the excess over all chains |
| HashBuckets.Table.Install | inc/uthash.h:688-697 | buckets double with their logarithm, the expansion goes on record with its judgement, and noexpand is set exactly when two in a row were ineffective |
| HashBuckets.Table.Expand | inc/uthash.h:653-699 | the whole doubling: redistribution, ideal length, statistics and policy |
| HashBuckets.Table.AddToBkt | inc/uthash.h:598-609 | the element joins its chain, and the table doubles exactly when the chain reaches its threshold and growth is not off |
| HashBuckets.InhibitedIff | inc/uthash.h:692-697 | in a table that followed the policy, noexpand is set exactly when the last two expansions were ineffective |
| HashBuckets.PolicyStep | inc/uthash.h:692-697 | one more expansion extends the run of ineffective ones or ends it |
| Bits.AndMask | inc/uthash.h:185-188 | masking with a power of two minus one is the remainder |
| Bits.CeilDiv | inc/uthash.h:640-666 | shift plus one-if-masked is ceil(n/b) |
| HashSort.Append | inc/uthash.h:163-174 | the application order gains the element at the end |
| HashSort.Remove | inc/uthash.h:213-229 | the application order loses exactly the element, head and tail follow |
| HashSort.SplitRun | inc/uthash.h:722-730 | stepping over a run stops after insize elements or at the end |
| HashSort.MergeRuns | inc/uthash.h:732-770 | two runs are spliced in place into their stable merge |
| HashSort.PassStep | inc/uthash.h:720-772 | one turn of a pass merges one pair of sorted blocks |
| HashSort.Pass | inc/uthash.h:715-773 | a pass turns sorted blocks of k into sorted blocks of 2k and counts its merges |
| HashSort.RunsHalve | inc/uthash.h:715-780 | each pass halves the number of runs, rounding up |
| HashSort.SortList | inc/uthash.h:706-783 | the sort ends, for up to UINT_MAX elements, with the list relinked as the sorted sequence |
| StableSort.MergeSorted | inc/uthash.h:732-770 | merging two stably sorted parts is stably sorting the whole |
| StableSort.MergeStep | inc/uthash.h:715-773 | merging neighbouring blocks of k gives blocks of 2k |
| StableSort.SortIsStable | inc/uthash.h:706-783 | a permutation, ordered, with tied elements in their original order |
| StableSort.StableUnique | inc/uthash.h:706-783 | there is only one such sequence |
| HashTables.FindInBkt | inc/uthash.h:584-595 | returns a chain member with the key, or null exactly when there is none |
| HashTables.HashTable.Find | inc/uthash.h:92-103 | agrees with lookup in the abstract map |
| HashTables.HashTable.Add | inc/uthash.h:160-183 | order gains the element at the end, the two-list invariant holds, and the table expands exactly when the chain of the element reaches its threshold and noexpand is off |
| HashTables.AddHashed | inc/uthash.h:175-179 | the bucket half of an add: chains, counts, and expansion exactly when due, on record |
| HashTables.DeleteHashed | inc/uthash.h:230-232 | the bucket half of a delete keeps chains and counts, and nothing about growth changes |
| HashTables.HashTable.Delete | inc/uthash.h:202-235 | order loses exactly the element, deleting the only one frees the table, otherwise nothing about growth changes |
| HashTables.HashTable.Sort | inc/uthash.h:706-783 | the order is stably sorted, chains, elements, growth and the invariant are unchanged |
| HashTables.ViewMember | inc/uthash.h:92-103 | a key is in the map exactly when an element of the order carries it |
| HashTables.ViewAdd | inc/uthash.h:160-183 | adding a new key extends the map; the keys stay unique exactly when it was absent |
| HashTables.ViewWithout | inc/uthash.h:202-235 | deleting an element removes exactly its key |
| HashTables.TotalIs | inc/uthash.h:267-317 | the chains hold every element once, so their lengths add up to their number |
| HashTables.Fsck | inc/uthash.h:267-317 | the source's self-check succeeds on every valid table |
| TableRuns.Step | inc/uthash.h:92-235 | one find, find-then-add, find-then-delete or sort acts on the key sequence and on the map: a delete takes the key away, an add puts it in, a find succeeds exactly when the key is there; and expands the table exactly when due |
| TableRuns.Perform | inc/uthash.h:92-783 | over any run, order is insertion order minus deletions, sorted where it was; keys stay unique; every find sees exactly the keys present then; while a table lives its record of expansions only grows, and noexpand is set, and growth over, exactly after two ineffective ones in a row |
| TableRuns.SortedKeys | inc/uthash.h:706-783 | sorting the elements by key sorts the key sequence |
| TableRuns.GrowsLives | inc/uthash.h:598-609 | an add only extends the record of expansions, and leaves growth alone once noexpand is set |
| TableRuns.SortKeepsMap | inc/uthash.h:706-783 | a stable sort changes neither uniqueness nor the map |
| DomainTables.KeyInjective | inc/fastrpc_hash_table.h:10-12 | different domains have different key bytes |
| DomainTables.KeyWeights | inc/fastrpc_hash_table.h:10-12 | the key is the id's bytes, the least significant first |
| DomainTables.DomainTable.GetNode | inc/fastrpc_hash_table.h:43-48 | the domain's node, or null exactly when it has none |
| DomainTables.DomainTable.AllocAndAdd | inc/fastrpc_hash_table.h:51-66 | the existing node, or a fresh one when memory is there; otherwise nothing changes |
| DomainTables.DomainTable.Serve | inc/fastrpc_hash_table.h:42-66 | over any run, a request is answered with a node exactly when the domain had one or it was registered with memory at hand before, and ever after it is that node |
| DomainTables.OneNodePerDomain | inc/fastrpc_hash_table.h:51-66 | two nodes are the same exactly when their domains are |
| DomainTables.DomainTable.Cleanup | inc/fastrpc_hash_table.h:29-40 | deleting while iterating frees every node once, in order, reads and deletes only nodes not yet freed, and ends with a null table |
| DomainTables.DomainTable.FreeFirst | inc/fastrpc_hash_table.h:34-37 | one turn: the first node leaves the table and is freed, the rest stays allocated |
| Pls.StepInv | inc/pls.h:57-210 | every step of every thread keeps the invariant on list, heap, threads, references, keys and order, unless another thread has the truncated number |
| Pls.RunInv | inc/pls.h:57-210 | and so does every interleaving |
| Pls.ReachableInv | inc/pls.h:57-210 | the invariant holds in every reachable state |
| Pls.NoAba | inc/pls.h:165-177 | when the compare succeeds the list is the one that was scanned, even though addresses are used again |
| Pls.Unaliased | inc/pls.h:57-79 | every run in which one has is, but for a record no step reads, a run of the same program without one |
| Pls.SingletonTheorem | inc/pls.h:144-186 | in every run, the list holds one node per singleton key, and all callers ever served for it got the same data |
| Pls.NoUseAfterFree | inc/pls.h:81-97 | in every run, no thread reads or frees a freed block |
| Pls.ZeroStays | inc/pls.h:61-70 | in every run, a zero reference count is never revived |
| Pls.NoEarlyDrainIff | inc/pls.h:57-97 | no drain while a thread holds a reference, in every run, exactly when no other thread has the truncated number of the primary one |
| Pls.AliasRun | inc/pls.h:57-79 | a thread with that number leads to an early drain |
| Pls.AllDestroyedIff | inc/pls.h:76-97 | in every finished run all blocks are destroyed, exactly when the primary number fits 32 bits |
| Pls.FinishedDestroyed | inc/pls.h:81-97 | then each block is freed once, its destructor ran once if it has one, and the drain is the reverse of insertion |
| Pls.LeakRun | inc/pls.h:57-79 | a number that does not fit leads to a finished run that leaks a block |
| Pls.LetIn | inc/pls.h:57-71 | in every run, a thread is refused only when the count has come down to zero, and one that was let in finds it above zero |
| PlsCalls.StepKept | inc/pls.h:57-210 | while a thread holds a reference, no step of another touches its block, the blocks already listed, or what it was answered |
| PlsCalls.CallTheorem | inc/pls.h:99-210 | in every interleaving, a call that is back has the answer promised: a lookup the newest block for the key at a moment during the call, or none; an add a new block of its own that is on the list; a singleton add the newest block at such a moment or, when there was none, one that is on the list and handed out for the key; and a failed add 0, exactly when it failed |
| PlsCalls.SoloReturns | inc/pls.h:57-210 | from every state of every run, a thread that runs alone comes to the end of its call |
| PlsCalls.SoloCall | inc/pls.h:99-210 | a thread that was let in can begin any call at any time, and alone comes back with that answer |
| PlsCalls.FailedCall | inc/pls.h:117-139 | an add that fails comes back with 0 and leaves all else as it was |
| HandleCache.StepInv | src/adsp_current_process_stub.c:516-531 | every step keeps the ledger of opened, installed and closed handles |
| HandleCache.RunInv | src/adsp_current_process_stub.c:516-531 | over every interleaving, and an installed handle is never replaced |
| HandleCache.OneHandle | src/adsp_current_process_stub.c:516-531 | all calls that return a handle, ever, return the one installed handle |
| HandleCache.ReturnsHandle | src/adsp_current_process_stub.c:516-531 | a call whose open did not fail returns the installed handle, and not -1, when no open reported success with -1 |
| HandleCache.RefusedTheorem | src/adsp_current_process_stub.c:516-531 | over every run, -1 for want of a handle is returned to exactly the callers whose open failed |
| HandleCache.HitPath | src/adsp_current_process_stub.c:518-519 | a call that finds a handle returns it in two steps, and opens and closes nothing |
| HandleCache.OpenPath | src/adsp_current_process_stub.c:521-525 | a call that finds none opens, and takes what open reports |
| HandleCache.InstallPath | src/adsp_current_process_stub.c:526-529 | an undisturbed caller installs what it opened and returns it |
| HandleCache.LosePath | src/adsp_current_process_stub.c:526-529 | a caller that finds another handle installed, by test or by exchange, closes its own and returns the installed one |
| HandleCache.LeakRun | src/adsp_current_process_stub.c:516-531 | a run in which one did: the handle stays open and its caller gets -1 |
| HandleCache.AllClosedIff | src/adsp_current_process_stub.c:457-472 | when all calls are done, every opened handle is the installed one or closed exactly once, exactly when no open reported success with -1 |
| Sbufs.Sbuf.constructor | inc/sbuf.h:56-60 | the memory is the window at the offset of the stream, the cursor at its start |
| Sbufs.Sbuf.Advance | inc/sbuf.h:63-65 | the cursor moves by len, nothing else does |
| Sbufs.Sbuf.Needed | inc/sbuf.h:71-73 | the position on the stream, in any mode |
| Sbufs.Sbuf.Left | inc/sbuf.h:78-82 | the distance to the end of the memory, negative past it |
| Sbufs.Sbuf.Align8 | inc/sbuf.h:95-98 | the least padding to a multiple of eight of the stream position, not of the address |
| Sbufs.AlignUp8 | inc/sbuf.h:95 | the mask formula rounds up to the next multiple of eight |
| Sbufs.Sbuf.Write | inc/sbuf.h:107-123 | exactly the part of the bytes inside the memory is written, the cursor moves past all of them |
| Sbufs.Sbuf.Read | inc/sbuf.h:133-149 | exactly the part inside the memory is read, the destination keeps the rest |
| Sbufs.OverlayConcat | inc/sbuf.h:107-123 | writing in two steps is writing once |
| ListenerBufs.PackInBufs | inc/listener_buf.h:11-23 | memory shows the items of all buffers, for any window, and the cursor ends past them |
| ListenerBufs.PackOutLens | inc/listener_buf.h:25-33 | the same for the length words |
| ListenerBufs.PackMessage | inc/listener_buf.h:11-33 | a whole message through one window: nothing else is written and the size reported does not depend on the window |
| ListenerBufs.PackWindows | inc/sbuf.h:49-123 | packing through the windows of any partition writes, together, the bytes of the one-shot pack, and every pass reports the same size |
| ListenerBufs.AnyPartition | inc/sbuf.h:49-123 | cells laid over memory cut into windows are the cells laid over all of it |
| ListenerBufs.ItemAt | inc/listener_buf.h:11-23 | where the length word and the bytes of buffer k stand |
| ListenerBufs.BodiesApart | inc/listener_buf.h:64-79 | regions are 8-aligned on the stream, disjoint from each other and from all length words, and inside the message |
| ListenerBufs.UnpackInBufs | inc/listener_buf.h:35-50 | each slot gets the length read and, when its comparison of ints says so, the address of the bytes |
| ListenerBufs.InsideIff | inc/listener_buf.h:44-46 | a slot given an address stays inside the memory exactly when its length word is below 2^31 and the memory does not begin after it |
| ListenerBufs.PointsOutside | inc/listener_buf.h:40-47 | a word above it: the slot is given an address, and the cursor moves backwards |
| ListenerBufs.UnpackInBuf | inc/listener_buf.h:39-48 | one turn: the slot gets the length, and the place of the bytes when its comparison of ints says so, else keeps its pointer; the cursor goes past both |
| ListenerBufs.RoomWhenPacked | inc/listener_buf.h:11-50 | unpacking what was packed never moves the cursor off the stream |
| ListenerBufs.UnpackOutLens | inc/listener_buf.h:52-60 | each slot gets the next length word |
| ListenerBufs.LenRoundTrip | inc/listener_buf.h:16-17 | a length word reads back |
| ListenerBufs.LenWeights | inc/listener_buf.h:16-17 | a length word's least significant byte comes first |
| ListenerBufs.InBufRoundTrip | inc/listener_buf.h:11-50 | after packing, each slot has the length, and points at bytes equal to the buffer |
| ListenerBufs.LensRoundTrip | inc/listener_buf.h:25-60 | after packing, each output length reads back |
| ListenerBufs.MessageRoundTrip | inc/listener_buf.h:11-60 | unpacking a packed message recovers everything and ends where packing ended |
| ListenerBufs.PackOutBufs | inc/listener_buf.h:64-79 | length words are written, and each buffer that fits is given its region |
| ListenerBufs.UnpackOutBufs | inc/listener_buf.h:82-96 | succeeds exactly when every length word matches, and fetches each region; else it stops behind the first word that differs, with the buffers before it fetched and the others untouched |
| ListenerBufs.RegionsAreFree | inc/listener_buf.h:64-79 | writing anything into the regions leaves every length word in place |
| ListenerBufs.OutBufRoundTrip | inc/listener_buf.h:82-96 | where the length words are in place, the words match and the bytes fetched are those in the regions |
| ListenerBufs.ReverseOutBufs | inc/listener_buf.h:64-96 | hand out the regions, fill each through its pointer with any bytes, and unpack: that succeeds and delivers exactly those bytes |
| SbufParsers.ParseBuf.ConsumeChars | inc/sbuf_parser.h:96-109 | one character of the set, or no move |
| SbufParsers.ParseBuf.ConsumeNotChars | inc/sbuf_parser.h:112-125 | one character outside the set, or no move |
| SbufParsers.ParseBuf.ConsumeRange | inc/sbuf_parser.h:156-169 | one character in a pair's range, or no move |
| SbufParsers.ParseBuf.ConsumeString | inc/sbuf_parser.h:176-184 | reads the longest common prefix of the string and the data, and succeeds exactly when that is the string |
| SbufParsers.StringMatches | inc/sbuf_parser.h:176-184 | succeeds exactly when the string is next, and else stops at the first difference |
| SbufParsers.Parse | inc/sbuf_parser.h:82-239 | the cursor never moves backwards nor past the end, and a productive consumer that succeeds moves it |
| SbufParsers.ComesIff | inc/sbuf_parser.h:82-239 | every consumer comes to exactly one result, the one it computes: characters, prefixes, repetitions as sequences of cursors, sequence, choice and backtracking, each read off the relation `Comes` |
| SbufParsers.RangeOfPairs | inc/sbuf_parser.h:146-169 | a range contains a character exactly when one of its whole pairs does; a character left over counts for nothing |
| SbufParsers.ParseBuf.Consume | inc/sbuf_parser.h:82-239 | every consumer, run on the buffer, ends and does what Parse says |
| SbufParsers.ParseBuf.ConsumeMany | inc/sbuf_parser.h:189-197 | the loop ends with what Parse says |
| SbufParsers.HaltsIff | inc/sbuf_parser.h:195-222 | a loop whose turns only move forwards ends exactly when no turn it gets to stalls |
| SbufParsers.LoopsTerminate | inc/sbuf_parser.h:189-224 | when sbuf_many and sbuf_until end, and that they always do for a productive consumer |
| SbufParsers.ManyLongest | inc/sbuf_parser.h:189-197 | the loop takes the greatest number of turns, then keeps where the failing turn left the cursor |
| SbufParsers.ManyLongestIff | inc/sbuf_parser.h:189-197 | a consumer ends at the longest repeated prefix, on all data from every position, exactly when it never consumes on failure |
| SbufParsers.ManyOfClean | inc/sbuf_parser.h:189-197 | which can be read off many consumers |
| SbufParsers.ManyOfStringOvershoots | inc/sbuf_parser.h:176-197 | a string consumer as a counterexample |
| SbufParsers.UntilFirst | inc/sbuf_parser.h:214-224 | sbuf_until succeeds exactly when stop matches at the first turn where it can, and ends where that match ends; else it fails where consume fails |
| SbufParsers.ParseBuf.ConsumeTry | inc/sbuf_parser.h:230-239 | run on a buffer of the rest only, the parser does what it would here, and the cursor takes its whole move or none |
| SbufParsers.ParseRest | inc/sbuf_parser.h:230-239 | no consumer looks behind the cursor: on the rest of the data alone it does the same |
| RemoteScalars.FieldsOfMake | inc/remote.h:85-109 | every field comes back, cut to its width |
| RemoteScalars.MakeOfFields | inc/remote.h:85-109 | every 32-bit word is made of its fields |
| RemoteScalars.Weights | inc/remote.h:103-109 | the word is attr * 2^29 + method * 2^24 + nIn * 2^16 + nOut * 2^8 + noIn * 2^4 + noOut, each cut to its width |
| RemoteScalars.FieldWeights | inc/remote.h:85-101 | each field is the word divided by its weight, cut to its width |
| RemoteScalars.Counts | inc/remote.h:91-117 | counts up to 255 come back, LENGTH is their sum, and the method comes back exactly when it is below 32 |
| ListenerStubs.Allocator.constructor | src/adsp_listener_stub.c:240-245 | the block list is empty and the stack full |
| ListenerStubs.Allocator.Alloc | src/adsp_listener_stub.c:190-225 | sign, zero, stack and heap cases, and the block list owns exactly the blocks taken |
| ListenerStubs.Allocator.Deinit | src/adsp_listener_stub.c:228-237 | every block of the list is freed, once |
| ListenerStubs.PackSequence | src/adsp_listener_stub.c:666-678 | the length array, its slot and one slot per buffer, each written for the first time |
| ListenerStubs.Laid | src/adsp_listener_stub.c:648-684 | all the stores together make inputs then outputs in declared order |
| ListenerStubs.FillArgs | src/adsp_listener_stub.c:650-684 | every slot of the argument array is filled exactly once |
| ListenerStubs.Marshal | src/adsp_listener_stub.c:647-687 | what is passed to the invocation marshals the call |
| ListenerStubs.StubMethod | src/adsp_listener_stub.c:600-702 | too many buffers are refused, the answer is passed on, and every heap block is freed on every exit |
| ListenerStubs.Announced | src/adsp_listener_stub.c:687 | the scalar word announces exactly the slots, inputs first |
| ListenerStubs.PlaceByPlace | src/adsp_listener_stub.c:648-687 | every word and every slot that is passed, by its place |
| ListenerStubs.UnmarshalMarshal | src/adsp_listener_stub.c:600-702 | every argument can be read back from what is sent |
| BufBounds.BufBound.constructor | src/BufBound.c:120-127 | an empty tape over a buffer of the given size, or of none when it is negative |
| BufBounds.BufBound.ValidateWrite | src/BufBound.c:58-83 | how much fits, and a head saturated at INT_MAX |
| BufBounds.BufBound.Write | src/BufBound.c:85-94 | the bytes from the head on that are inside the buffer are there, every other byte is as it was, and the head moves by the length, up to INT_MAX; so the buffer shows the tape after the bytes are put on it |
| BufBounds.BufBound.Putnc | src/BufBound.c:96-105 | the same for copies of a character |
| BufBounds.BufBound.Putc | src/BufBound.c:129-136 | the same for one character |
| BufBounds.BufBound.Puts | src/BufBound.c:153-156 | the same for a string, with the length converted to int |
| BufBounds.BufBound.Advance | src/BufBound.c:107-118 | the 32-bit wrap computes the clamp of the head to 0 and INT_MAX |
| BufBounds.BufBound.ForceNullTerm | src/BufBound.c:138-151 | a NUL at the head, or at the last byte of a full buffer, and every other byte as it was |
| BufBounds.BufBound.Left | src/BufBound.c:163-166 | the room left, negative past the end |
| BufBounds.BufBound.ReallyWrote | src/BufBound.c:168-171 | the head, at most the size |
| BufBounds.BufBound.Wrote | src/BufBound.c:173-176 | the position on the tape |
| BufBounds.Perform | src/BufBound.c:58-176 | any sequence of calls keeps buffer and tape together |
| BufBounds.CountingPass | src/BufBound.c:58-176 | a pass without a buffer reports what a pass with any buffer reports |
| BufBounds.ReportsTotalIff | src/BufBound.c:58-176 | the report is the total, saturated once, after every call exactly when no move turns back from beyond an end |
| BufBounds.WroteIsTotal | src/BufBound.c:58-176 | so it is whenever no call steps back |
| BufBounds.TurnsBackAtStart | src/BufBound.c:107-118 | stepping back at the start is lost |
| BufBounds.TurnsBackAtEnd | src/BufBound.c:107-136 | stepping forward at INT_MAX is lost |
| BufBounds.PutConcat | src/BufBound.c:85-94 | writing in pieces is writing once, as far as a buffer can show, saturation included |
| PlatformLibs.Libraries.PlLibInit | src/platform_libs.c:15-30 | the first reference constructs, every reference reports the stored result |
| PlatformLibs.Libraries.PlLibDeinit | src/platform_libs.c:32-40 | the last reference destroys what was constructed |
| PlatformLibs.Libraries.PlInit | src/platform_libs.c:42-59 | entries come up in turn; the result is 0 exactly when all do, else what the first that does not came up with, and the state is the one at that point |
| PlatformLibs.Libraries.PlDeinit | src/platform_libs.c:61-75 | all entries, last first |
| PlatformLibs.ResultStored | src/platform_libs.c:15-30 | the result is what is stored, of this call or of the one that constructed |
| PlatformLibs.Constructed | src/platform_libs.c:18-25 | the first reference runs the constructor, whose result is stored and returned |
| PlatformLibs.ConstructResult | inc/platform_libs.h:112-126 | a constructor returns what its first failing dependency came up with, else what its own part returns, and keeps what it took only when that is 0 |
| PlatformConditions.PlInitSucceeds | src/platform_libs.c:42-59 | pl_init returns 0, with all entries up, whenever constructors succeed |
| PlatformLibs.InitMoves | src/platform_libs.c:15-30 | whatever fails below and however it cleans up, the references not explained by live dependents grow by the one taken, counting what is lost |
| PlatformLibs.DeinitMoves | src/platform_libs.c:32-40 | and shrink by the one given back |
| PlatformLibs.RunAccounts | src/platform_libs.c:15-40 | over every run, balanced or not, uRefs is outstanding direct references plus live dependents, short of what was lost |
| PlatformLibs.TidyStep | src/platform_libs.c:15-40 | for tidy libraries, every call keeps the counters explained, constructs only what has all its dependencies, and destroys only what has no live dependent |
| PlatformLibs.RunLosesNothing | src/platform_libs.c:15-40 | tidy libraries lose nothing |
| PlatformLibs.RunConserves | src/platform_libs.c:15-40 | so over every balanced run of theirs uRefs is outstanding direct references plus live dependents, and constructors and destructors alternate in order |
| PlatformConditions.SucceedingConserves | src/platform_libs.c:15-40 | the same of any libraries whose constructors do not fail |
| PlatformConditions.ExplainedIff | src/platform_libs.c:15-40 | the counters are explained over every balanced run, whatever constructors return, exactly for tidy libraries |
| PlatformConditions.OrderIff | src/platform_libs.c:15-40 | constructors and destructors run in order over every balanced run, whatever constructors return, exactly for tidy libraries |
| PlatformConditions.Disorder | src/fastrpc_apps_user.c:3837-3973 | for any library that is not, results of the constructors and a balanced run that destroys a library under a live dependent |
| PlatformConditions.DestroyedUnderDependent | src/fastrpc_apps_user.c:3837-3973 | such a run of two calls |
| PlatformLibs.NothingLeft | src/platform_libs.c:15-40 | when all direct references are given back, every counter is zero and nothing is constructed |
| PlatformLibs.InitUndone | src/platform_libs.c:15-40 | giving a reference back undoes taking it, failing or not, unless something was lost, and mirrors its constructors |
| PlatformLibs.InitDeinit | src/platform_libs.c:42-75 | after a successful pl_init, pl_deinit restores all counters and runs the destructors in the opposite order |
| PlatformLibs.RestoresIffTidy | src/platform_libs.c:42-75 | for tidy libraries, from any state, pl_deinit after pl_init restores all counters exactly when every entry before the last returned 0 |
| PlatformConditions.RestoresAlwaysIff | src/platform_libs.c:42-75 | and that holds of all lists and results exactly for tidy libraries |
| PlatformLibs.StopsEarly | src/platform_libs.c:42-75 | a failing entry before the last: a library ends below zero and is refused later |
| PlatformLibs.GivesBackAll | src/fastrpc_apps_user.c:3919-3973 | a constructor that gives back all when its first dependency fails does the same to the second |

## Left out

- inc/uthash.h: HASH_SELECT, the Bloom filter (not enabled), key emission, the mixing functions and the out-of-memory exits; counters are unbounded, so a table of 2^31 buckets does not wrap.
- inc/uthash.h: a key cannot change while its element exists; the source asks the same of its callers.
- inc/uthash.h: `HashTable.Delete` names the position of the element as a ghost argument; deleting an element of another table is excluded as it is undefined in the source.
- inc/pls.h: weak memory orderings and the wrap-around of pointers; the steps are sequentially consistent.
- inc/pls.h: some accesses are one step. calloc, the constructor callback and the reload of uRefs before them; in `pls_lookup`, the loop condition with the comparison and the advance, which read uRefs and fields of a published block, and those never change before the drain; in the drain, the read of next, the destructor and the free; the write of next with the load of lst it stores.
- inc/pls.h: uRefs is unbounded upwards, 2^32 concurrent references are not modelled.
- Sbufs.Sbuf.constructor: a window that lies entirely before the start of the stream is excluded, and so are streams of 2^31 bytes, where the int distances of the source overflow.
- inc/sbuf.h: alignments other than eight, which is the only one its users ask for.
- ListenerBufs.UnpackInBufs: excludes length words that move the cursor off the stream, where the distances of the source no longer fit an int.
- ListenerBufs.PackOutBufs: like `UnpackOutBufs`, for totals below 2^31.
- inc/listener_buf.h: length words are little-endian, as on the processors the library is built for.
- inc/sbuf_parser.h: consumers that call each other recursively; characters are compared as unsigned bytes.
- src/adsp_listener_stub.c: the unpack loops move a pointer nobody reads; the other stubs repeat the same layout with fewer arguments. AEE_EUNSUPPORTED has the value of the application processor.
- ListenerStubs.StubMethod: sequences of 2^31 - 2 buffers or more, where the int counter of the source overflows, are excluded.
- src/platform_libs.c: calls from several threads at once; uRefs is an unbounded integer, where a negative value stands for a wrapped counter.
- src/platform_libs.c: what the libraries' own constructors do beside taking dependencies, which is reduced to what they return.
- src/BufBound.c: pointer wrap-around; addresses are integers.
- dspqueue, the message ring of src/adspmsgd.c, kernel and device calls, configuration files, logging: they are I/O, or their counterpart is not in the repository.
