# OSIRIS verification

This project models the parts of the OSIRIS recovery framework that are hardest to get right, and proves what they
promise. Each module models one component.

- `ControlFlow`, `Execution`, `StoreElimination`, `HeapStoreCheck`, `StoreChains`: the checkpointing passes that drop
  store hooks. Functions are control flow graphs with loops, checkpoints and typed values, dominance is defined by walks,
  values hold bits, and soundness is about the addresses that every execution writes to and what the log holds of them
  since the last checkpoint.
- `WriteLog`: the undo log that the hooks write, and the restart that puts memory back.
- `HookedExecutions`: the two together. An execution with only the hooks that the pass leaves is put back by a restart.
- `BlockCloning`, `FlagSwitching`, `BlockNumbering`: the EDFI fault injector. Blocks are cloned into Header, Correct and
  Corrupted blocks; the enable flag is saved and restored around calls; blocks are numbered by passes and tools alike.
- `FunctionCloning`: BBClone, which turns functions into flag dispatchers over two copies.
- `StringSearch`, `MergeSort`, `LinkedLists`, `UtList`, `UtHash`: the uthash family. Nodes are heap objects, sorting
  and rehashing relink them in place, and every method is proved against a function on sequences.
- `MapFormat`, `MapFile`, `MapParse`, `MapPipeline`: the map file, its writer and its reader, and the way from the
  injector through the file to the report.
- `RecoveryWindow`, `RecoveryDispatcher`, `PeriodicCrash`: the recovery window, what happens after a crash, and
  periodic crash injection.
- `WindowProfiler`, `ProfiledRuns`: the window profiling hook, and what it counts by the events of a run.
- `CallStacks`, `ActualCallers`: call stack enumeration over the inverse call graph.
- `Hypermem`: the command protocol of the hypermem client.
- `Options`: the option type they share.

Clocks, the network, the hypervisor, the kernel and library calls are parameters: the answers of the message and signal
calls are the fields of `System` in `RecoveryDispatcher` and `PeriodicCrash`, the value of the clone flag at each read
is a function in `FunctionCloning`, the meaning of instructions is a parameter of `BlockCloning` and `FunctionCloning`,
the hash function is a parameter of `UtHash`, and comparison functions are arbitrary. Conversions to and from floating
point (`conv` in `Execution`) and shifts that C leaves undefined (`Far` in `MapFormat`) may give anything.

`dafny verify dfyconfig.toml` checks the project.

## What turned out false of the code

- Dropping a double store (`EliminationSoundIff`, `CastsSoundIff`, `HeapPassSoundIff`): the recursive walk follows every
  cast, also one that narrows a pointer to a small integer and widens it again, so a hook can be dropped whose address
  nothing else logs (`ByteTableUnsound`). For a pointer that is not itself made by casts the bits are kept exactly when no
  cast on the way is narrower than a pointer or a floating point conversion (`RootKeptIff`).
- Dropping a double store across a checkpoint (`EliminationSoundIff`, `ScanSoundIff`): a checkpoint empties the log, and
  neither pass looks for one between two stores, so that in "store, checkpoint, store" through one pointer the second
  store is not logged (`CheckpointLoses`, `GlobalLost`). The elimination is sound for a function exactly when every store
  that justifies dropping a hook has the same bits in its pointer and runs again after every checkpoint on the way.
- The write log (`MemcpyCoveredIff`, `StoreCoveredIff`): the hook for blocks rounds its start down to four bytes but
  saves eight at a time, so it misses the last region of a block that starts in the upper half of a region and ends in
  the lower half of another; the hook for stores saves one region only.
- The map file (`RoundTripIff`): the writer accepts names with a NUL, where the reader ends the string. Lines from 2^31 on
  come back, but by a shift into the sign of an `int` (`ShiftsDefinedIff`).
- The enable flag (`AllRightIff`): the version counter comes round after 2^32 starts and stops. Functions in the section
  of the EDFI library get the switch without having their exits unified, and it is restored in the last block only, so
  that leaving by another exit keeps the function's own value (`EarlyExitKeepsValue`).
- BBClone (`SignatureSafeIff`): variable arguments are not handed on.
- The recovery window (`RunSafeIff`): with the message flag changed behind the hook's back, the window can be open after a
  fail-stop site.
- The profiler (`StaysOrderedIff`): when it is switched off around an odd number of changes of the message flag, the
  policies disagree from then on, until the hook sees the flag change again.
- Hypermem (`RoundTripIff`): string lengths are truncated to 32 bits.

Where code and documentation disagree the model follows the code: BBClone's option text says that the first clone runs
when the flag equals the value, the code runs it when the flag differs (llvm/passes/bbclone/BBClone.cpp:217-219); the
request-specific hook sets the idempotent bit (llvm/static/ltckpt/ltckpt_recover.c:332-340); a pessimistic window
closing is charged to the function's optimistic closings (llvm/static/ltckpt/ltckpt_aop.c:254).

## Model

| member | source | states |
|---|---|---|
| `ControlFlow.DominatesTransitive` | llvm/passes/ltckpt/ltCkptPassBasic.cpp:291 | dominance, defined by walks of the control flow graph with loops, is transitive |
| `ControlFlow.RunsAfter` | llvm/passes/ltckpt/ltCkptPassBasic.cpp:286-303 | on every walk, between a definition and a later visit of a store, a dominating store that is itself dominated by the definition runs: loops cannot skip it |
| `ControlFlow.RanSinceDefined` | llvm/passes/ltckpt/ltCkptPassBasic.cpp:286-303 | on every walk, a dominating store ran since a value it can use was last defined |
| `ControlFlow.RanSinceCheckpoint` | llvm/passes/ltckpt/ltCkptPassBasic.cpp:286-303 | on every walk, a dominating store that runs again after every checkpoint ran since the last checkpoint, and since its pointer was last defined |
| `Execution.StillHolds` | llvm/passes/ltckpt/ltCkptPassBasic.cpp:286-303 | on every execution, where a value can be used its operand still holds what the value was made from: loops do not separate them |
| `Execution.HeldBits` | llvm/passes/ltckpt/ltCkptPassBasic.cpp:295-300 | on every execution, at every point where a value can be used, it holds exactly the bits of other values that its chain of casts shows, whatever the floating point conversions do |
| `StoreElimination.MarkedSameAddress` | llvm/passes/ltckpt/ltCkptPassBasic.cpp:286-303 | on every execution, a dominating store whose pointer has the same bits and which runs again after every checkpoint ran before with the same address, with no checkpoint since |
| `StoreElimination.SoundLater` | llvm/static/ltckpt/mechanisms/ltckpt_writelog.c:181-209 | what was logged before an earlier store stays logged for a later one to the same address, until the next checkpoint empties the log |
| `StoreElimination.DroppingSoundAt` | llvm/passes/ltckpt/ltCkptPassBasic.cpp:305-346 | chains of dropped hooks end in a retained hook: every candidate that runs is hooked, or a retained hook has logged the address it writes to since the last checkpoint |
| `StoreElimination.DroppingSound` | llvm/passes/ltckpt/ltCkptPassBasic.cpp:305-346 | the elimination loses no address, for every candidate set, every execution and every time, in every function whose justifying stores keep the bits of the pointer and run again after every checkpoint |
| `StoreElimination.OtherBitsUnsound` | llvm/passes/ltckpt/ltCkptPassBasic.cpp:286-346 | for every function and every justified drop of a reachable store whose pointer has other bits: an execution on which its address is not logged |
| `StoreElimination.NotAgainUnsound` | llvm/passes/ltckpt/ltCkptPassBasic.cpp:286-346 | for every function and every justified drop with a walk on which the justifying store does not run again after a checkpoint: an execution on which the address is not logged |
| `StoreElimination.LossyCastUnsound` | llvm/passes/ltckpt/ltCkptPassBasic.cpp:299 | for every set of values with a walked pointer that does not have the bits of the pointer it is made from: a function without checkpoints that stores through both loses the second address |
| `StoreElimination.EliminationSoundIff` | llvm/passes/ltckpt/ltCkptPassBasic.cpp:286-346 | for every function, checkpoints and loops included: the elimination loses no address on any execution and for any candidates, if and only if every justifying store of a reachable store has the same bits in its pointer and runs again after every checkpoint on the way |
| `StoreElimination.CastsSoundIff` | llvm/passes/ltckpt/ltCkptPassBasic.cpp:295-346 | for every set of typed values: the elimination loses no address in any function over it whose justifying stores run again after checkpoints, if and only if every pointer that the walk reaches from a stripped pointer has the same bits |
| `StoreElimination.CheckpointLoses` | llvm/passes/ltckpt/ltCkptPassBasic.cpp:160-164 | for every pointer that is its own stripped form: the function that stores through it, checkpoints and stores through it again loses an address |
| `StoreElimination.GlobalLost` | llvm/static/ltckpt/mechanisms/ltckpt_writelog.c:181-209 | a global without any cast, stored before and after a checkpoint: the casts keep its address and the elimination still loses it |
| `StoreElimination.RootKeptIff` | llvm/passes/ltckpt/ltCkptPassBasic.cpp:295-300 | for a pointer that is not made by casts: a walked pointer has its bits if and only if no cast on the way is narrower than a pointer or converts to or from floating point |
| `StoreElimination.WideCastsSound` | llvm/passes/ltckpt/ltCkptPassBasic.cpp:286-346 | whenever no walk crosses such a cast, full-width round trips through integers included, the elimination is sound in every function whose justifying stores run again after checkpoints |
| `StoreElimination.ByteTableUnsound` | llvm/passes/ltckpt/ltCkptPassBasic.cpp:295-300 | a pointer narrowed to a byte and made a pointer again, with 32-bit pointers: the elimination is unsound |
| `StoreElimination.StripIff` | llvm/passes/ltckpt/ltCkptPassBasic.cpp:292 | stripping a pointer ends at the value from which casts between pointers and all-zero GEPs lead to it, and which is not itself made by one |
| `StoreElimination.JustifiesIff` | llvm/passes/ltckpt/ltCkptPassBasic.cpp:286-346 | for every function: a store justifies dropping the hook of another if and only if it dominates it, and casts lead from what its pointer strips to, to an operand of the other that strips to the same value as the pointer of the other |
| `StoreElimination.SameRootDoubles` | llvm/passes/ltckpt/ltCkptPassBasic.cpp:286-346 | every store through a root pointer, or through casts between pointers of it, is a double of every dominating such store |
| `StoreElimination.RetainedIff` | llvm/passes/ltckpt/ltCkptPassBasic.cpp:305-346 | a candidate is retained if and only if it is a double of no candidate |
| `StoreElimination.DoubleStorePass.WalkByUsers` | llvm/passes/ltckpt/ltCkptPassBasic.cpp:288-302 | the marks of the recursive walk are the marks made through the users of a value |
| `StoreElimination.DoubleStorePass.RecUserCheck` | llvm/passes/ltckpt/ltCkptPassBasic.cpp:286-303 | adds exactly the stores that the walk marks, and nothing else |
| `StoreElimination.DoubleStorePass.MarkDoubles` | llvm/passes/ltckpt/ltCkptPassBasic.cpp:314-337 | collects exactly the stores that some candidate justifies dropping |
| `StoreElimination.DoubleStorePass.Erase` | llvm/passes/ltckpt/ltCkptPassBasic.cpp:339-344 | erases exactly what was collected |
| `StoreElimination.DoubleStorePass.EliminateDoubleStores` | llvm/passes/ltckpt/ltCkptPassBasic.cpp:305-346 | leaves exactly the candidates that are doubles of no candidate, by dominance and chains of cast instructions; in particular the hook of every store is dropped that a candidate through the same root pointer dominates |
| `HeapStoreCheck.DoubleCheckStore` | llvm/passes/ltckpt/ltCkptPassHeap.cpp:13-63 | false if and only if a store with the same pointer stands in a dominating block, or earlier in the same block |
| `HeapStoreCheck.HitDominates` | llvm/passes/ltckpt/ltCkptPassHeap.cpp:24-60 | a store that the scan finds dominates the store examined |
| `HeapStoreCheck.DominatorHit` | llvm/passes/ltckpt/ltCkptPassHeap.cpp:24-60 | a dominating store with the same pointer is found by the scan |
| `HeapStoreCheck.ScanIsDominance` | llvm/passes/ltckpt/ltCkptPassHeap.cpp:13-63 | for every reachable store: the block scan finds a double if and only if a store with the same pointer dominates it |
| `HeapStoreCheck.ScannedAt` | llvm/passes/ltckpt/ltCkptPassHeap.cpp:155-165 | when the stores that the scan finds run again after checkpoints: for every escaping store that runs, a candidate wrote to the same address before with no checkpoint since, or it is one itself |
| `HeapStoreCheck.DominatedBetween` | llvm/passes/ltckpt/ltCkptPassHeap.cpp:24-60 | a position on a walk, after which a dominator of the end does not run again, is dominated by it too |
| `HeapStoreCheck.ScanSoundIff` | llvm/passes/ltckpt/ltCkptPassHeap.cpp:13-63 | for every function: the scan alone loses no address on any execution and for any escaping pointers, if and only if every store that it finds runs again after every checkpoint on the way |
| `HeapStoreCheck.HeapPassSound` | llvm/passes/ltckpt/ltCkptPassHeap.cpp:155-165 | the scan and the elimination together lose no address, in every function where the stores that justify either keep the bits of the pointer and run again after every checkpoint |
| `HeapStoreCheck.HeapPassNeedsScans` | llvm/passes/ltckpt/ltCkptPassHeap.cpp:155-165 | if the heap pass loses no address in a function, every store that its scan finds runs again after every checkpoint on the way |
| `HeapStoreCheck.HeapPassSoundIff` | llvm/passes/ltckpt/ltCkptPassHeap.cpp:155-165 | for every set of typed values: the heap pass loses no address in any function whose justifying stores run again after checkpoints, for any escaping pointers, if and only if walked casts keep addresses |
| `StoreChains.DominationMap.AddStore` | llvm/passes/ltckpt/ltCkptPassBasic.cpp:52-83 | the first store of every chain dominates the others; the store joins the first chain whose leader it is comparable with, behind a leader that dominates it and else in front, or starts one when there is none; all other chains stay |
| `StoreChains.DominationMap.Join` | llvm/passes/ltckpt/ltCkptPassBasic.cpp:67-82 | the same for the chains of one value, and every chain keeps a leader that dominates it |
| `StoreChains.DominationMap.LeaderReplaced` | llvm/passes/ltckpt/ltCkptPassBasic.cpp:75-78 | a store that dominates the leader of a chain dominates the whole chain |
| `WriteLog.RolledBackByte` | llvm/static/ltckpt/mechanisms/ltckpt_writelog.c:336-379 | for every log: a byte goes back to what the first entry of its region holds, and stays if its region was never saved or is passed over |
| `WriteLog.RollbackForgets` | llvm/static/ltckpt/mechanisms/ltckpt_writelog.c:336-379 | what the saved regions hold now does not matter to a restart |
| `WriteLog.StepUndoes` | llvm/static/ltckpt/mechanisms/ltckpt_writelog.c:115-179 | every hook, and every write to saved regions, keeps what the log undoes to |
| `WriteLog.CoveredRunUndone` | llvm/static/ltckpt/mechanisms/ltckpt_writelog.c:115-379 | every run that writes only what hooks have saved is undone completely, however hooks and writes are ordered and repeated |
| `WriteLog.RestartUndoes` | llvm/static/ltckpt/mechanisms/ltckpt_writelog.c:336-379 | after such a run and a restart, every byte holds what it held at the checkpoint, except in the regions that the restart passes over |
| `WriteLog.RestartedByte` | llvm/static/ltckpt/mechanisms/ltckpt_writelog.c:277-379 | for every log and restart: a byte of a saved region goes back to what the first entry of the region holds if the region is not at address zero, not above the data, and shares no byte with the log and its variables; every other byte stays |
| `WriteLog.RestartPutsBack` | llvm/static/ltckpt/mechanisms/ltckpt_writelog.c:277-379 | after a run whose writes are covered and a restart: a byte of a region that restarts put back holds what it held at the checkpoint, and any other what the run left |
| `WriteLog.RunRoom` | llvm/static/ltckpt/mechanisms/ltckpt_writelog.c:145-157 | in every run from a checkpoint the log never holds more entries than fit, and the window is open as long as there is room for another |
| `WriteLog.StoreCoveredIff` | llvm/static/ltckpt/mechanisms/ltckpt_writelog.c:163-167 | with the window open, the hook for a store covers it if and only if the store does not cross a boundary of eight bytes |
| `WriteLog.MemcpyCoveredIff` | llvm/static/ltckpt/mechanisms/ltckpt_writelog.c:169-179 | the hook for a block covers it if and only if it is empty, starts in the lower half of a region, or does not end in the lower half of one |
| `WriteLog.OwnHooksCover` | llvm/static/ltckpt/mechanisms/ltckpt_writelog.c:115-179 | in every run whose writes each follow their own hook, and fit it as the two conditions above say, with the window open at the end, every write is covered |
| `WriteLog.OwnHooksUndone` | llvm/static/ltckpt/mechanisms/ltckpt_writelog.c:115-379 | every such run from an empty log is put back by a restart, in the regions that restarts put back |
| `WriteLog.MemcpyTailLost` | llvm/static/ltckpt/mechanisms/ltckpt_writelog.c:173-178 | a concrete block whose last bytes are not saved |
| `WriteLog.OverlapsIff` | llvm/static/ltckpt/mechanisms/ltckpt_writelog.c:271-275 | the overlap test holds if and only if the ranges share a byte |
| `WriteLog.Logger.WriteWl` | llvm/static/ltckpt/mechanisms/ltckpt_writelog.c:115-161 | saves the region of an address while the window is open; a full log closes the window and sets the fail-stop bit |
| `WriteLog.Logger.HookStore` | llvm/static/ltckpt/mechanisms/ltckpt_writelog.c:163-167 | saves the region of the stored address when the log is enabled |
| `WriteLog.Logger.HookMemcpy` | llvm/static/ltckpt/mechanisms/ltckpt_writelog.c:169-179 | saves every eighth address of a block from its start rounded down to four |
| `WriteLog.Logger.TopOfTheLoop` | llvm/static/ltckpt/mechanisms/ltckpt_writelog.c:181-209 | empties and enables the log at every checkpoint interval, and only counts otherwise |
| `WriteLog.Logger.RestartHook` | llvm/static/ltckpt/mechanisms/ltckpt_writelog.c:284-399 | every byte of a saved region goes back to what the first entry of the region holds, unless the region is at address zero, above the data, or shares a byte with the log and its variables; every other byte stays; the log ends empty and disabled |
| `HookedExecutions.StretchUndone` | llvm/static/ltckpt/mechanisms/ltckpt_writelog.c:115-379 | for every execution and every stretch of it between checkpoints in which each store is hooked or logged, crosses no boundary of eight bytes and the window stays open: a restart puts back every byte of the regions that restarts put back |
| `HookedExecutions.RetainedHooksUndone` | llvm/passes/ltckpt/ltCkptPassBasic.cpp:305-346 | the hooks that the elimination leaves are enough for the log: the same holds of every execution with the retained hooks only, for every function in which the elimination is sound and every candidate set that has the stores of the stretch |
| `StringSearch.LongestSpec` | llvm/include/common/ut/utstring.h:162-198 | the specification of a failure entry is a maximum: the longest border of the wanted kind, or -1 if there is none |
| `StringSearch.NextEntry` | llvm/include/common/ut/utstring.h:178-194 | the strong failure entry of the next position, from the longest border |
| `StringSearch.BuildTable` | llvm/include/common/ut/utstring.h:162-198 | fills the table with the strong failure function: the longest border whose next character differs, else -1 |
| `StringSearch.BuildTableR` | llvm/include/common/ut/utstring.h:202-238 | fills the table with the mirror image of the strong failure function |
| `StringSearch.Shift` | llvm/include/common/ut/utstring.h:256-259 | falling back by the strong table skips no occurrence |
| `StringSearch.Exhausted` | llvm/include/common/ut/utstring.h:254 | the early exit on the remaining length misses no occurrence |
| `StringSearch.Find` | llvm/include/common/ut/utstring.h:242-271 | terminates and returns the first occurrence, or -1 if and only if there is none, in the part of the text that the int cast lets it see |
| `StringSearch.OccursReversed` | llvm/include/common/ut/utstring.h:275-305 | occurrences in reversed strings are the mirrored occurrences |
| `StringSearch.FirstIsLast` | llvm/include/common/ut/utstring.h:275-305 | the first occurrence in the reversed text is the last occurrence in the text |
| `StringSearch.FindR` | llvm/include/common/ut/utstring.h:275-305 | terminates and returns the last occurrence, or -1 if and only if there is none |
| `StringSearch.FindFrom` | llvm/include/common/ut/utstring.h:309-351 | the first occurrence from the start position on, counted from the beginning of the string; -1 for an empty needle, a start behind the string, or without memory |
| `StringSearch.FindBackFrom` | llvm/include/common/ut/utstring.h:355-393 | the last occurrence that ends by the start position; -1 for an empty needle, a start before the string, or without memory |
| `MergeSort.SortPermutes` | llvm/include/common/ut/utlist.h:168-225 | for every comparison function, even an inconsistent one, the sort yields a permutation |
| `MergeSort.MergeSorted` | llvm/include/common/ut/utlist.h:193-214 | merging two sorted runs yields a sorted run |
| `MergeSort.MergeStable` | llvm/include/common/ut/utlist.h:200 | merging keeps equivalent elements in order, those of the left run first |
| `MergeSort.PassSorted` | llvm/include/common/ut/utlist.h:178-218 | a pass over sorted runs of length k yields sorted runs of length 2k |
| `MergeSort.PassStable` | llvm/include/common/ut/utlist.h:178-218 | a pass keeps equivalent elements in order |
| `MergeSort.SortCorrect` | llvm/include/common/ut/utlist.h:168-225 | the result is a permutation always, and sorted and stable for every total preorder |
| `LinkedLists.RunEnd` | llvm/include/common/ut/utlist.h:250-262 | walks to the end of a run: its length and the node behind it, in a circular list too |
| `LinkedLists.MergeRuns` | llvm/include/common/ut/utlist.h:193-214 | relinks two runs in place into their merge, behind what was linked before, and leaves the rest of the list untouched |
| `LinkedLists.MergeNext` | llvm/include/common/ut/utlist.h:183-216 | merges the next two runs of a pass, and counts the merge |
| `LinkedLists.MergePass` | llvm/include/common/ut/utlist.h:178-218 | one pass over the list: the links spell the pass of the specification, and the merges are counted exactly |
| `UtList.SortRound` | llvm/include/common/ut/utlist.h:178-222 | one round, for each kind of list: the list is the specified pass, with correct prev, next and tail links, and the loop ends exactly when one run is left |
| `UtList.SortList` | llvm/include/common/ut/utlist.h:168-225 | the loop of the three sort macros terminates with correct links, in the order of the specified sort |
| `UtList.SortAny` | llvm/include/common/ut/utlist.h:105-301 | singly linked, doubly linked and circular lists, empty ones included, end up in the order of the specified sort, with correct next, prev, tail and closing links |
| `UtList.ForEach` | llvm/include/common/ut/utlist.h:419-663 | following the links of a singly linked, doubly linked or circular list visits every element once, in order |
| `UtList.DList.Append` | llvm/include/common/ut/utlist.h:510-522 | the list is the old list and the element; all prev and next links and the tail link are right |
| `UtList.DList.Prepend` | llvm/include/common/ut/utlist.h:495-505 | the list is the element and the old list; all links are right |
| `UtList.DList.Delete` | llvm/include/common/ut/utlist.h:545-561 | the list without the element; all links are right |
| `UtList.DList.Concat` | llvm/include/common/ut/utlist.h:527-540 | the one list after the other; all links are right |
| `UtList.DList.ReplaceElem` | llvm/include/common/ut/utlist.h:583-607 | the new element stands in the place of the old; all links are right |
| `UtList.DList.Sort` | llvm/include/common/ut/utlist.h:168-225 | the same nodes in the order of the specified sort; all links are right |
| `UtHash.MaskIsRemainder` | llvm/include/common/ut/uthash.h:198-201 | masking a hash with a power of two less one is taking the remainder |
| `UtHash.CeilShiftSpec` | llvm/include/common/ut/uthash.h:677-679 | the ideal chain length is the rounded-up quotient of items and buckets, and positive when there are items |
| `UtHash.MakeTable` | llvm/include/common/ut/uthash.h:141-158 | a new table satisfies the invariant with 32 empty buckets |
| `UtHash.PushBucket` | llvm/include/common/ut/uthash.h:611-617 | an item goes to the front of its chain; every chain keeps its links and its count |
| `UtHash.DeleteInBucket` | llvm/include/common/ut/uthash.h:625-635 | the item leaves its chain; every chain keeps its links and its count |
| `UtHash.MoveItem` | llvm/include/common/ut/uthash.h:684-699 | an item moves to the front of its chain in the new buckets, with the count and expansion multiplier of the code |
| `UtHash.Rehash` | llvm/include/common/ut/uthash.h:666-700 | every item is rehashed into twice as many buckets, each once, in the bucket of its hash |
| `UtHash.ExpandBuckets` | llvm/include/common/ut/uthash.h:666-712 | doubling keeps the whole invariant; the nonideal items are exactly those beyond the rounded-up ideal chain length, and two ineffective expansions in a row stop further ones |
| `UtHash.AddItem` | llvm/include/common/ut/uthash.h:188-193 | adding keeps the whole invariant, and doubles the buckets exactly when the item's bucket becomes overfull |
| `UtHash.FindInBucket` | llvm/include/common/ut/uthash.h:597-608 | finds an item with the key if the chain has one, and nothing otherwise |
| `UtHash.InOwnBucket` | llvm/include/common/ut/uthash.h:198-201 | every item sits in the bucket of its masked hash |
| `UtHash.FindItem` | llvm/include/common/ut/uthash.h:94-105 | searching one bucket is searching the whole table |
| `UtHash.AppendApp` | llvm/include/common/ut/uthash.h:184-186 | the application order list grows at its tail, with correct links |
| `UtHash.DeleteApp` | llvm/include/common/ut/uthash.h:226-242 | the application order list loses one item, with correct links, head and tail |
| `UtHash.DeleteItem` | llvm/include/common/ut/uthash.h:243-245 | deleting keeps the bucket invariant for the remaining items |
| `UtHash.HashAdd` | llvm/include/common/ut/uthash.h:173-196 | the table with the item appended satisfies the whole invariant |
| `UtHash.HashDelete` | llvm/include/common/ut/uthash.h:215-248 | the table without the item satisfies the whole invariant, and the order of the others stays |
| `UtHash.HashSort` | llvm/include/common/ut/uthash.h:719-796 | the application order becomes the specified sort, and every bucket chain stays as it is |
| `UtHash.FsckCounts` | llvm/include/common/ut/uthash.h:278-328 | the bucket counts add up to the number of items, and the number of buckets is the power of two recorded |
| `UtHash.ChainsPermute` | llvm/include/common/ut/uthash.h:719-796 | the bucket invariant does not depend on the application order |
| `UtHash.ContentsAdd` | llvm/include/common/ut/uthash.h:173-196 | adding an item updates the mathematical map of the table at its key |
| `UtHash.ContentsDelete` | llvm/include/common/ut/uthash.h:215-248 | deleting an item of a table with unique keys removes its key from the map |
| `UtHash.ContentsPermute` | llvm/include/common/ut/uthash.h:719-796 | the map of a table with unique keys does not depend on the application order |
| `UtHash.FoundIsContents` | llvm/include/common/ut/uthash.h:94-105 | with unique keys, what a search finds is what the map holds |
| `UtHash.HashTable.constructor` | llvm/include/common/ut/uthash.h:141-158 | an empty table is valid |
| `UtHash.HashTable.Add` | llvm/include/common/ut/uthash.h:173-196 | the invariant is kept over doublings, which happen exactly when the bucket of the item reaches ten items, times its multiplier plus one, and expanding is not inhibited; application order is insertion order, and with a new key the map of the table is updated at it |
| `UtHash.HashTable.Find` | llvm/include/common/ut/uthash.h:94-105 | agrees with the mathematical map of the table |
| `UtHash.HashTable.Iterate` | llvm/include/common/ut/uthash.h:859-870 | visits every item once in the order of the application, and counts them |
| `UtHash.HashTable.Delete` | llvm/include/common/ut/uthash.h:215-248 | the invariant is kept, exactly the item is gone, and with unique keys the map of the table loses its key |
| `UtHash.HashTable.Sort` | llvm/include/common/ut/uthash.h:719-796 | the order is the specified sort of the order before; every bucket chain, the table except its tail, and the map of the table stay |
| `BlockCloning.CloneBlocks` | llvm/passes/edfi/FaultInjector.cpp:555-572 | the loop that appends to the list it walks terminates, and clones each original block exactly once, in order |
| `BlockCloning.RemapHeaders` | llvm/passes/edfi/FaultInjector.cpp:574-581 | exactly the clones are remapped: their jumps and phi nodes name clones |
| `BlockCloning.AddIncoming` | llvm/passes/edfi/FaultInjector.cpp:673-691 | the phi nodes of all successors get an entry for the Correct clone with the value of the Corrupted one, once, however often a successor repeats |
| `BlockCloning.SplitHeader` | llvm/passes/edfi/FaultInjector.cpp:645-725 | one turn: the header keeps the phi nodes and decides, two blocks hold its body, and exactly the phi nodes of the successors change |
| `BlockCloning.StageNext` | llvm/passes/edfi/FaultInjector.cpp:643-727 | one turn keeps the invariant of the loop over the headers, for blocks that come before and after, and for self loops |
| `BlockCloning.SplitHeaders` | llvm/passes/edfi/FaultInjector.cpp:643-727 | after the loop every header is split and every phi node names the clones of all its predecessors |
| `BlockCloning.AllSplit` | llvm/passes/edfi/FaultInjector.cpp:638-728 | the loop's final invariant is the specification of a cloned function |
| `BlockCloning.CloneFunction` | llvm/passes/edfi/FaultInjector.cpp:551-728 | the three loops together produce, for every well-formed function, its original blocks unchanged and for each a header, a Correct and an equal Corrupted clone |
| `BlockCloning.MovesAgree` | llvm/passes/edfi/FaultInjector.cpp:673-691 | a header moves the values that the original block moves, coming from either clone of the predecessor |
| `BlockCloning.StepSimulates` | llvm/passes/edfi/FaultInjector.cpp:643-727 | one block of the original is simulated by a header and a clone that no fault has changed |
| `BlockCloning.RunSimulates` | llvm/passes/edfi/FaultInjector.cpp:551-728 | every run of the original is simulated, for every length and every meaning of the instructions, as long as no decision picks a Corrupted clone with a fault in it |
| `BlockCloning.FaultsKeepCloned` | llvm/passes/edfi/FaultInjector.cpp:770-930 | rewriting Corrupted clones in any way keeps everything that the simulation needs |
| `BlockCloning.OriginalRuns` | llvm/passes/edfi/FaultInjector.cpp:585-593 | entered at the original first block, the instrumented function runs as before |
| `BlockCloning.FunctionRuns` | llvm/passes/edfi/FaultInjector.cpp:551-728 | for every run: the original entry runs unchanged, and the cloned entry does the same moves and instructions in the same order and states, as long as no decision picks a Corrupted clone with a fault in it, whatever faults there are |
| `BlockCloning.UnfaultedRuns` | llvm/passes/edfi/FaultInjector.cpp:551-728 | before faults are placed the instrumented function does what the original does, whatever the decisions |
| `FlagSwitching.VersionCounts` | llvm/static/edfi/df/edfi_df.c:219-238 | the version on return is the version on entry plus the starts and stops, modulo 2^32 |
| `FlagSwitching.FlagOnReturn` | llvm/passes/edfi/FaultInjector.cpp:1241-1269 | for every tree of calls with fresh versions, and without early exits that switch nothing, the flag on return is the value of the last start or stop, or the entry value if there was none |
| `FlagSwitching.FlagOnReturnIff` | llvm/passes/edfi/FaultInjector.cpp:1241-1269 | the flag on return is right for every entry value if and only if the number of starts and stops during the call is zero or not a multiple of 2^32, and for a call that leaves by an exit that does not restore: is not zero |
| `FlagSwitching.AllRightIff` | llvm/passes/edfi/FaultInjector.cpp:1241-1269 | for every tree of calls: every call in it returns with the right flag, whatever it is entered with, if and only if no instrumented call starts and stops a positive multiple of 2^32 times, or leaves by an exit that does not restore without starting or stopping |
| `FlagSwitching.EarlyExitKeepsValue` | llvm/passes/edfi/FaultInjector.cpp:505-508 | a call of a function whose exits are not unified, that leaves by another exit than the last block: the flag is the switch value of the function |
| `FlagSwitching.VersionComesRound` | llvm/static/edfi/df/edfi_df.c:219-238 | with 2^32 stops during a call, the saved flag is wrongly restored |
| `FunctionCloning.ListFunctions` | llvm/passes/bbclone/BBClone.cpp:160-167 | lists exactly the functions that are not skipped |
| `FunctionCloning.CloneFunctions` | llvm/passes/bbclone/BBClone.cpp:151-296 | exactly the defined, unskipped candidates become a dispatcher and two copies; every other function stays; which copy runs is in `FlagChooses` and `InvokeHooks` |
| `FunctionCloning.Dispatched` | llvm/passes/bbclone/BBClone.cpp:196-265 | a call of a dispatcher runs the old code in the old frame, whatever the flag says |
| `FunctionCloning.FlagChooses` | llvm/passes/bbclone/BBClone.cpp:215-265 | for every cloned function, machine and world: a call reads the flag once; if it differs from the value, hook 1 runs and the call goes to clone 1, if it is equal, hook 2 and clone 2 |
| `FunctionCloning.CopyRuns` | llvm/passes/bbclone/BBClone.cpp:248-265 | either copy runs its own hook again and then the code of the function |
| `FunctionCloning.InvokeHooks` | llvm/passes/bbclone/BBClone.cpp:196-265 | for every call that returns, nested calls included: the hooks that ran are, for each read of the flag in order, the hook of the copy it chose, twice, and no others |
| `FunctionCloning.InvokePreserved` | llvm/passes/bbclone/BBClone.cpp:151-296 | a call that returns in the original program returns in the transformed one, with the same result, memory and effects apart from hooks |
| `FunctionCloning.InvokeReflected` | llvm/passes/bbclone/BBClone.cpp:151-296 | a call that returns in the transformed program returns in the original one, with the same result, memory and effects apart from hooks |
| `FunctionCloning.CloningPreservesMeaning` | llvm/passes/bbclone/BBClone.cpp:151-296 | for every program with mutual recursion, indirect calls and no variadic clone, every machine and every two flag histories: a call returns in one program if and only if in the other, and the outcomes agree |
| `FunctionCloning.SignatureSafeIff` | llvm/passes/bbclone/BBClone.cpp:224-265 | for every signature: cloning a function of it changes no result, memory or effect, whatever the program, its code, the settings, the machine and the flag, if and only if it is not variadic |
| `FunctionCloning.VarargLosesArguments` | llvm/passes/bbclone/BBClone.cpp:224-229 | for every number of fixed parameters, all hooks and all flags: a variadic function that counts its arguments counts fewer once it is cloned |
| `MapFormat.IntComesBack` | llvm/tools/mapprint/mapparse.c:93-111 | every 32-bit integer is read back from its encoding, with the bytes after it left over, whatever undefined shifts give |
| `MapFormat.ShiftsDefinedIff` | llvm/tools/mapprint/mapparse.c:93-111 | reading back a line number stays within the shifts that C defines if and only if it is below 2^31 |
| `MapFormat.StringComesBack` | llvm/tools/mapprint/mapparse.c:55-91 | a string without NUL is read back, with the bytes after it left over |
| `MapFormat.InternAllInverse` | llvm/passes/edfi/MapFile.cpp:24-33 | the writer's intern map stays the inverse of the reader's string vector |
| `MapFormat.StringsAreAdded` | llvm/tools/mapprint/mapparse.c:131-137 | the reader takes in the string records in front of a record |
| `MapFormat.BoundaryToBoundary` | llvm/tools/mapprint/mapparse.c:231-279 | from one record boundary to the next the reader invokes the record that was written, and the intern map is again the inverse of the string vector |
| `MapFormat.RecordsComeBack` | llvm/tools/mapprint/mapparse.c:231-279 | from every record boundary on, the reader invokes exactly the records still written, with the same strings and lines, and ends without error |
| `MapFormat.ReadsRepresentable` | llvm/tools/mapprint/mapparse.c:139-222 | whatever bytes are parsed, the strings have no NUL |
| `MapFormat.RoundTripIff` | llvm/tools/mapprint/mapparse.c:231-279 | for every sequence of records: parsing what was written gives the same records, with every line number, if and only if all strings are free of NULs |
| `MapFormat.NulDerails` | llvm/passes/edfi/MapFile.cpp:29-30 | a concrete name with a NUL that does not come back |
| `MapFormat.TruncatedFile` | llvm/tools/mapprint/mapparse.c:231-279 | for all bytes: the callbacks for a file cut short are the first of the callbacks for the whole file |
| `MapFormat.DamagedFile` | llvm/tools/mapprint/mapparse.c:231-279 | for every file that is damaged after some records: the reader invokes exactly these records, and reports an unknown type, a string or number without an end, or a reference to a string that was not written |
| `MapFormat.RecordLayout` | llvm/passes/edfi/MapFile.cpp:3-99 | the bytes of every record type but functions, with the type numbers; a string goes before the first record that needs it, and is referred to by the number of strings before it |
| `MapFormat.FunctionLayout` | llvm/passes/edfi/MapFile.cpp:87-94 | the bytes of a function record with a new name and a known path: the name before the path |
| `MapFormat.NumberLayout` | llvm/passes/edfi/MapFile.cpp:35-46 | numbers of up to 21 bits, byte by byte: groups of seven bits, the low ones first |
| `MapFile.RecordAppended` | llvm/passes/edfi/MapFile.cpp:48-99 | what is written for a longer sequence of records extends what was written before |
| `MapFile.MapFile.constructor` | llvm/passes/edfi/MapFile.cpp:12-17 | a new file holds the module name record |
| `MapFile.MapFile.GetStringRef` | llvm/passes/edfi/MapFile.cpp:24-33 | writes a string record only for a new string, and returns its number |
| `MapFile.MapFile.WriteInt` | llvm/passes/edfi/MapFile.cpp:35-46 | appends the unsigned LEB128 form of the value |
| `MapFile.MapFile.WriteModuleName` | llvm/passes/edfi/MapFile.cpp:48-53 | the file is what the records so far and a module name record amount to |
| `MapFile.MapFile.WriteBasicBlock` | llvm/passes/edfi/MapFile.cpp:60-63 | the file is what the records so far and a basic block record amount to |
| `MapFile.MapFile.WriteDInstruction` | llvm/passes/edfi/MapFile.cpp:65-71 | the file is what the records so far and an instruction record with its source line amount to |
| `MapFile.MapFile.WriteFaultCandidate` | llvm/passes/edfi/MapFile.cpp:73-78 | the file is what the records so far and a fault candidate record amount to |
| `MapFile.MapFile.WriteFaultInjected` | llvm/passes/edfi/MapFile.cpp:80-85 | the file is what the records so far and an injected fault record amount to |
| `MapFile.MapFile.WriteFunction` | llvm/passes/edfi/MapFile.cpp:87-94 | the file is what the records so far and a function record, whose two strings may be equal, amount to |
| `MapFile.MapFile.WriteInstruction` | llvm/passes/edfi/MapFile.cpp:96-99 | the file is what the records so far and an instruction record amount to |
| `MapFile.MapFile.ParsesBack` | llvm/passes/edfi/MapFile.cpp:12-99 | at every moment the file parses back to the records written so far, if and only if their strings are free of NULs |
| `MapParse.IntRead` | llvm/tools/mapprint/mapparse.c:93-111 | reads the specified integer, or fails on a file that ends |
| `MapParse.StringRead` | llvm/tools/mapprint/mapparse.c:55-91 | reads the specified string, or fails on a file that ends |
| `MapParse.RefRead` | llvm/tools/mapprint/mapparse.c:113-129 | reads a reference and looks it up, or fails when there is no such string |
| `MapParse.RecordRead` | llvm/tools/mapprint/mapparse.c:139-222 | reads the specified record of a type, or fails as specified |
| `MapParse.ParseFile` | llvm/tools/mapprint/mapparse.c:231-279 | for every file: invokes the specified callbacks and ends with the specified error, or none |
| `BlockNumbering.InstrumentModule` | llvm/passes/edfi/FaultInjector.cpp:496-932 | decision points and loggers get the numbers 1 to N in order, N the block count taken up front, and the next number is N + 1; the records are those of the blocks |
| `BlockNumbering.InstrumentFunction` | llvm/passes/edfi/FaultInjector.cpp:642-929 | the headers and the corrupted clones of a function get the same numbers |
| `BlockNumbering.BlockShown` | llvm/tools/mapprint/mapprint.c:80-105 | a block adds one row, with the next number, its counts, and the number of its different source lines |
| `BlockNumbering.ModuleShown` | llvm/tools/mapprint/mapprint.c:107-130 | the rows of a module are the rows of its instrumented blocks in order, under their function's name |
| `BlockNumbering.ReportDescribesBlocks` | llvm/tools/mapprint/mapprint.c:237-260 | from the injector through the bytes of the file and the parser to the report: the rows are exactly those of the instrumented blocks |
| `BlockNumbering.RowsNumbered` | llvm/passes/edfi/FaultInjector.cpp:327-335 | there are as many rows as blocks counted up front, and the k-th row has number k, describes the k-th block and names the function it is in |
| `BlockNumbering.Printer.ShowLastBb` | llvm/tools/mapprint/mapprint.c:80-105 | prints the pending block once and starts the next number |
| `BlockNumbering.Printer.CountLine` | llvm/tools/mapprint/mapprint.c:146-169 | records a source line once, up to 4096 lines |
| `BlockNumbering.Printer.Callback` | llvm/tools/mapprint/mapprint.c:107-230 | each callback changes the context as specified for its record |
| `BlockNumbering.Printer.Print` | llvm/tools/mapprint/mapprint.c:231-260 | the report of a file is the specified report of its records |
| `MapPipeline.WriteFile` | llvm/passes/edfi/MapFile.cpp:12-99 | the writer leaves the specified bytes for every sequence of records |
| `MapPipeline.InstrumentAndReport` | llvm/passes/edfi/FaultInjector.cpp:496-932 | injector, writer, parser and report in sequence: the k-th row is about the k-th instrumented block of the module, in its function, and its number is the one in the block's decision point and fault logger |
| `RecoveryWindow.Library.DetectStartOfWindowHook` | llvm/static/ltckpt/ltckpt_recover.c:122-150 | opens the window and clears mask, sites and counter on the rising message flag, closes it on the falling one |
| `RecoveryWindow.Library.CloseRWindow` | llvm/static/ltckpt/ltckpt_recover.c:152-169 | closes an open window while a message is handled, and says whether it did |
| `RecoveryWindow.Library.SetIdempotentRecovery` | llvm/static/ltckpt/ltckpt_recover.c:322-330 | sets its bit outside the trusted compute base, and changes nothing else |
| `RecoveryWindow.Library.SetRequestSpecificRecovery` | llvm/static/ltckpt/ltckpt_recover.c:332-340 | sets the idempotent bit, as the code does |
| `RecoveryWindow.Library.SetProcessLocalRecovery` | llvm/static/ltckpt/ltckpt_recover.c:342-350 | sets the process-specific bit outside the trusted compute base, and changes nothing else |
| `RecoveryWindow.Library.AddSiteId` | llvm/static/ltckpt/ltckpt_recover.c:352-362 | records a new site while there is room |
| `RecoveryWindow.Library.SetFailStopRecovery` | llvm/static/ltckpt/ltckpt_recover.c:364-375 | closes the window, sets the bit, records the site and counts it, outside the trusted compute base |
| `RecoveryWindow.Library.LogOverflow` | llvm/static/ltckpt/mechanisms/ltckpt_writelog.c:147-157 | closes the window whatever the message flag, and sets the fail-stop bit; sites and counter stay |
| `RecoveryWindow.Library.ActivateReqRehandling` | llvm/static/ltckpt/ltckpt_recover.c:696-701 | sets the rehandling bit, and changes nothing else |
| `RecoveryWindow.Library.DeactivateReqRehandling` | llvm/static/ltckpt/ltckpt_recover.c:703-708 | clears the rehandling bit, and changes nothing else |
| `RecoveryWindow.WithSiteKeepsFirst` | llvm/static/ltckpt/ltckpt_recover.c:352-362 | the recorded sites stay the first 64 different ones |
| `RecoveryWindow.RunsRecord` | llvm/static/ltckpt/ltckpt_recover.c:122-375 | after every run the whole state is what the events say: the flags have their last values; the window is open since the hook saw the message flag rise and nothing has closed it; since that moment, the process-specific bit is set if and only if a process-local site was passed outside the trusted compute base, the fail-stop bit if and only if a fail-stop site was or the write log filled up; the list is the first 64 different fail-stop sites, and the counter their number |
| `RecoveryWindow.StepBreaksWindowIff` | llvm/static/ltckpt/ltckpt_recover.c:152-169 | a step makes an open window and the fail-stop bit coexist if and only if a fail-stop site is passed with the window open while the message flag is down |
| `RecoveryWindow.RunSafeIff` | llvm/static/ltckpt/ltckpt_recover.c:122-375 | for every run: at no moment is the window open with the fail-stop bit set, if and only if no fail-stop site is passed with the window open while the message flag is down |
| `RecoveryWindow.UnhookedFlagBreaksWindow` | llvm/static/ltckpt/ltckpt_recover.c:152-169 | a concrete run in which the message flag falls without the hook, and the window stays open with the bit set |
| `RecoveryWindow.HookedRunsSafe` | llvm/static/ltckpt/ltckpt_recover.c:122-375 | in every run where the flag changes only with the hook, an open window implies that a message is handled, the bit is clear, no fail-stop site was passed and the log has not filled up |
| `RecoveryWindow.TcbUntouched` | llvm/static/ltckpt/ltckpt_recover.c:322-375 | inside the trusted compute base no policy hook changes anything |
| `RecoveryDispatcher.RecoveryDispatch` | llvm/static/ltckpt/ltckpt_recover.c:463-547 | decides, acts and reports as specified; enters the trusted compute base, and sets the rehandling bit only when it rehandles |
| `RecoveryDispatcher.RecoveryIdempotent` | llvm/static/ltckpt/ltckpt_recover.c:549-601 | sends one error reply, or rehandles the request, or fails, as specified |
| `RecoveryDispatcher.RecoveryProcessSpecific` | llvm/static/ltckpt/ltckpt_recover.c:609-674 | kills the user process or sends one error reply, or fails, as specified |
| `RecoveryDispatcher.IsMessageReplyable` | llvm/static/ltckpt/ltckpt_recover.c:710-733 | -1 without a message; recognises the fault injection requests of the reincarnation server |
| `RecoveryDispatcher.EveryCrashEnds` | llvm/static/ltckpt/ltckpt_recover.c:463-688 | in default mode without rehandling, exactly one of: the early success, an abort, one error reply, the source killed or invalid; a failure ends with an abort |
| `RecoveryDispatcher.AbortIff` | llvm/static/ltckpt/ltckpt_recover.c:463-688 | in default mode the system is spared if and only if the early success applies or the selected action succeeds |
| `RecoveryDispatcher.FailStopOnlyAborts` | llvm/static/ltckpt/ltckpt_recover.c:497-502 | with the fail-stop bit set nobody is answered and nobody killed, in any mode |
| `RecoveryDispatcher.OnlyTheSource` | llvm/static/ltckpt/ltckpt_recover.c:549-674 | at most one reply or kill, to the source of the handled message; the process-specific action kills user processes and answers others |
| `RecoveryDispatcher.CrashEffects` | llvm/static/ltckpt/ltckpt_recover.c:463-688 | for every mask, mode and answer of the system: who is killed, who is answered, what is handled again, when the system is aborted and what is reported, each if and only if |
| `RecoveryDispatcher.NaiveModesSucceed` | llvm/static/ltckpt/ltckpt_recover.c:491-539 | by the mode: never replying does nothing and reports success; always replying acts on every message; every mode but the default reports success, and aborts if and only if the fail-stop bit is set and an action is taken |
| `RecoveryDispatcher.CrashAfterRun` | llvm/static/ltckpt/ltckpt_recover.c:322-688 | for every run of the hooks and every crash after it, from the events since the window opened: after a fail-stop site or a full log nobody is killed or answered; else after a process-local site a user process is killed and another sender answered; else the sender is answered or the request handled again; in default mode the system is aborted exactly when that does not work |
| `RecoveryDispatcher.SomePolicy` | llvm/static/ltckpt/ltckpt_recover.c:515-520 | the dispatcher never runs out of options |
| `PeriodicCrash.BetweenAttempts` | llvm/static/ltckpt/ltckpt_recover.c:288-308 | exactly the k-th period of eligible transits separates consecutive attempts, for every k |
| `PeriodicCrash.PeriodBounds` | llvm/static/ltckpt/ltckpt_recover.c:305-307 | the k-th period lies between 3 (3/2)^(k-1) - 2 and 4 (3/2)^(k-1) - 3 |
| `PeriodicCrash.TotalBounds` | llvm/static/ltckpt/ltckpt_recover.c:305-308 | the transits up to the k-th attempt lie between 6 (3/2)^k - 2k - 6 and 8 (3/2)^k - 3k - 8, so attempts grow logarithmically |
| `PeriodicCrash.RemainderIsModulo` | llvm/static/ltckpt/ltckpt_recover.c:296 | counting down by the period is taking the remainder |
| `PeriodicCrash.DoSuicidePerSite` | llvm/static/ltckpt/ltckpt_recover.c:230-316 | counts a transit of exactly the site, exactly when each of the ten guards passes, and attempts a crash exactly when the count is a multiple of the period |
| `CallStacks.StacksAreGood` | llvm/passes/include/common/dsa_common.h:670-701 | every stack is a path in the caller graph that ends in the function, and respects a positive limit |
| `CallStacks.SimplePathsFound` | llvm/passes/include/common/dsa_common.h:670-701 | every path without repetitions that respects the limit is the end of some stack |
| `CallStacks.MakeSimple` | llvm/passes/include/common/dsa_common.h:670-701 | every path can be shortened to one without repetitions between the same functions |
| `CallStacks.StackFunctionsExact` | llvm/passes/include/common/dsa_common.h:670-727 | the functions on the stacks are exactly the function and its transitive callers, within the limit if there is one |
| `CallStacks.Finder.GetCallStacks` | llvm/passes/include/common/dsa_common.h:670-701 | terminates on cyclic graphs, yields the specified stacks behind what the vector held, and restores the static level and visited set |
| `CallStacks.Finder.GetCallStacksFunctions` | llvm/passes/include/common/dsa_common.h:716-727 | adds to the set exactly the function and its transitive callers, within the limit if there is one |
| `ActualCallers.CallerMaps.AddActualCaller` | llvm/passes/include/common/dsa_common.h:813-829 | both maps hold exactly the recorded sites and their functions, with the new site last |
| `ActualCallers.CallerMaps.FetchActualCallers` | llvm/passes/include/common/dsa_common.h:790-811 | the maps hold exactly the call sites of the module, also when they were fetched before |
| `ActualCallers.CallerMaps.CallersExact` | llvm/passes/include/common/dsa_common.h:659-668 | for all pairs of functions: the one is in the caller set of the other if and only if it has a call that may call it |
| `ActualCallers.CallingFunctions` | llvm/passes/include/common/dsa_common.h:659-727 | over the callers fetched for a module: adds exactly the function and those that call it, directly or through others, by the calls of the module |
| `WindowProfiler.RunsConserve` | llvm/static/ltckpt/ltckpt_aop.c:206-341 | after every run: the four policies' totals are equal, the per-function counters add up to the global ones, and pessimistic closings split into the three kinds |
| `WindowProfiler.SyncedIff` | llvm/static/ltckpt/ltckpt_aop.c:220-291 | for every run: the policies agree if and only if the number of disabled hooks that saw a changed message flag, since an enabled one last saw one, is even |
| `WindowProfiler.StaysOrderedIff` | llvm/static/ltckpt/ltckpt_aop.c:220-317 | for every ordered run that has not run out of slots: its counters stay ordered however it goes on without disabling, if and only if that number is even |
| `WindowProfiler.EnabledRunsOrdered` | llvm/static/ltckpt/ltckpt_aop.c:265-317 | in every run that stays enabled, the data flow counters equal the optimistic ones, and pessimistic in-window counts never exceed them |
| `WindowProfiler.DisabledRunsDiffer` | llvm/static/ltckpt/ltckpt_aop.c:220-224 | a concrete run with profiling switched off in between in which the policies differ |
| `WindowProfiler.FindSlot` | llvm/static/ltckpt/ltckpt_aop.c:124-199 | finds the slot of a function and its callers, or takes the next one, and the hash table keeps finding all slots |
| `WindowProfiler.ClosePessimistic` | llvm/static/ltckpt/ltckpt_aop.c:238-263 | closes the pessimistic window on entry to one of the three functions, by name prefix, and says which |
| `WindowProfiler.TakeEdges` | llvm/static/ltckpt/ltckpt_aop.c:238-291 | the windows as the block sees them, which are those that the events say (`ProfiledRuns.Looked`) |
| `WindowProfiler.CountGlobal` | llvm/static/ltckpt/ltckpt_aop.c:249-327 | adds the block and the closings to the global counters, and nothing else |
| `WindowProfiler.CountFunction` | llvm/static/ltckpt/ltckpt_aop.c:254-318 | adds the block and the closings to the function's counters, pessimistic closings to the optimistic count as the code does |
| `WindowProfiler.Profiler.Wprof` | llvm/static/ltckpt/ltckpt_aop.c:206-341 | one hook is one step of the specification, whose runs count what the events say (`ProfiledRuns.CountersFromEvents`) |
| `ProfiledRuns.Looked` | llvm/static/ltckpt/ltckpt_aop.c:238-291 | from the events: a block sees the pessimistic window open if and only if a message started, has not ended, and no function that sends, notifies or calls the kernel was entered since; and the other windows and the closing as the events say |
| `ProfiledRuns.WindowsFromEvents` | llvm/static/ltckpt/ltckpt_aop.c:206-291 | for every run that stays enabled: all flags and windows of the profiler are what the events say |
| `ProfiledRuns.CountersFromEvents` | llvm/static/ltckpt/ltckpt_aop.c:249-327 | for every such run, event by event: each policy counts a block inside exactly when its window is open by the events, globally and for the function of the block only; closings are counted exactly when they happen, by their kind; nothing else changes a counter |
| `ProfiledRuns.AbortedIff` | llvm/static/ltckpt/ltckpt_aop.c:166-173 | for every run that stays enabled: the profiler runs out of slots if and only if it counted more than 8000 different functions with their callers |
| `Hypermem.UnpackPack` | llvm/tools/hypermemclient/hypermem.c:13-17 | up to four bytes come back from the word they are packed in |
| `Hypermem.PackPads` | llvm/tools/hypermemclient/hypermem.c:15-16 | partial words are padded with zeros |
| `Hypermem.StringLength` | llvm/tools/hypermemclient/hypermem.c:6-21 | a string of n bytes takes 1 + ceil(n/4) words |
| `Hypermem.StringComesBack` | llvm/tools/hypermemclient/hypermem.c:6-21 | a string is read back from its words, with the words after it left over |
| `Hypermem.CommandComesBack` | llvm/tools/hypermemclient/hypermem.c:23-101 | a command is read back from its words by the protocol for its type |
| `Hypermem.DecodedFit` | llvm/tools/hypermemclient/hypermem-api.h:22-97 | whatever words are decoded, string lengths fit in a word |
| `Hypermem.RoundTripIff` | llvm/tools/hypermemclient/hypermem-api.h:4-98 | every list of commands is recovered from its words if and only if all string lengths are below 2^32 |
| `Hypermem.LongTextLost` | llvm/tools/hypermemclient/hypermem.c:11 | a text of 2^32 bytes that does not come back |
| `Hypermem.Identifiers` | llvm/tools/hypermemclient/hypermem-api.h:111-127 | the command identifiers are the magic number with 1 to 15 joined by exclusive or |
| `Hypermem.Session.WriteString` | llvm/tools/hypermemclient/hypermem.c:6-21 | the loop writes the length and the chunks of the specification |
| `Hypermem.Session.Recovered` | llvm/tools/hypermemclient/hypermem-api.h:4-98 | at every moment the hypervisor recovers the commands sent so far, if and only if all their string lengths are below 2^32 |
| `Hypermem.Session.Connect` | llvm/tools/hypermemclient/hypermem-linux.c:50 | the words so far are those of the commands sent, with this one last |
| `Hypermem.Session.Disconnect` | llvm/tools/hypermemclient/hypermem-linux.c:54-55 | the words so far are those of the commands sent, with this one last |
| `Hypermem.Session.EdfiContextSet` | llvm/tools/hypermemclient/hypermem.c:23-29 | the words so far are those of the commands sent, with this one last |
| `Hypermem.Session.EdfiDumpStats` | llvm/tools/hypermemclient/hypermem.c:31-35 | the words so far are those of the commands sent, with this one last |
| `Hypermem.Session.EdfiDumpStatsModule` | llvm/tools/hypermemclient/hypermem.c:37-42 | the words so far are those of the commands sent, with this one last |
| `Hypermem.Session.EdfiFaultIndexGet` | llvm/tools/hypermemclient/hypermem.c:44-49 | the words so far are those of the commands sent, with this one last; returns the answer |
| `Hypermem.Session.Fault` | llvm/tools/hypermemclient/hypermem.c:51-56 | the words so far are those of the commands sent, with this one last |
| `Hypermem.Session.MagicRegister` | llvm/tools/hypermemclient/hypermem.c:58-65 | the words so far are those of the commands sent, with this one last |
| `Hypermem.Session.MagicStModule` | llvm/tools/hypermemclient/hypermem.c:67-72 | the words so far are those of the commands sent, with this one last |
| `Hypermem.Session.MagicSt` | llvm/tools/hypermemclient/hypermem.c:74-76 | the words so far are those of the commands sent, with this one last |
| `Hypermem.Session.Nop` | llvm/tools/hypermemclient/hypermem.c:78-81 | the words so far are those of the commands sent, with this one last; true if and only if the answer is the expected one |
| `Hypermem.Session.PrintText` | llvm/tools/hypermemclient/hypermem.c:83-86 | the words so far are those of the commands sent, with this one last |
| `Hypermem.Session.Quit` | llvm/tools/hypermemclient/hypermem.c:88-90 | the words so far are those of the commands sent, with this one last |
| `Hypermem.Session.ReleaseCr3` | llvm/tools/hypermemclient/hypermem.c:92-96 | the words so far are those of the commands sent, with this one last |
| `Hypermem.Session.SetCr3` | llvm/tools/hypermemclient/hypermem.c:98-101 | the words so far are those of the commands sent, with this one last |

## Left out

- The operations on singly linked and circular lists other than sorting and iterating, searching in lists, and the iteration that allows deleting.
- Hash replace and select, the Bloom filter, the hash functions themselves, and running out of memory.
- Overflow of the machine integers that count list lengths, hash items, buckets, instructions and crash periods.
- UtHash.HashTable.Add: does not bound chain lengths, because the expansion multiplier does not give a bound.
- The range of the aggregated store hooks, the alias and escape analyses that choose candidate stores, and stores that are not instructions of the function.
- HeapStoreCheck.HeapPassSound: takes the choice of escaping pointers as a parameter, because it comes from alias analysis; for a single function its condition is sufficient, and only the part about the scan is shown to be necessary (`HeapPassNeedsScans`), because an escaping pointer makes all its stores candidates, and another one of them may log the address that an unsafe drop loses; over all functions on a set of values the condition is exact (`HeapPassSoundIff`).
- HookedExecutions.RetainedHooksUndone: stores that cross a boundary of eight bytes are left out, because the hook does not save all of them (`StoreCoveredIff`).
- WriteLog.Logger.WriteWl: the panic for an address inside the log is left out, because memory is one array outside the log.
- StringSearch.Find: sees only the text that a 32-bit length can express, because the loop compares with an `int` cast; needles of 2^31 bytes and more are left out for the same reason.
- StringSearch.FindR: needles of 2^31 bytes and more are left out, because the loop compares with an `int` cast.
- StringSearch.FindFrom: start positions before the string, and 2^31 or more behind it, are left out, because the code reads outside the string there.
- StringSearch.FindBackFrom: start positions from the end of the string on are left out, because the code reads outside the string there.
- BlockCloning.CloneFunction: a value has one name in all clones of its block, where the pass renames it and demotes it to the stack, because demotion is an LLVM transformation; loop header switching and the unconditional mode are not modelled either.
- FlagSwitching.FlagOnReturn: does not say which exit a call takes, but takes it as a parameter (`early`), because it depends on the function; exits are unified before the switch is added except in the section of the EDFI library.
- FunctionCloning.CloneFunctions: function attributes, sections and inlining requests are not modelled, because they do not change what is computed.
- The 2014 compatibility level of the map parser.
- MapFormat.IntComesBack: takes the shift into the sign of an `int` as two's complement machines do it, because C leaves it undefined.
- MapFormat.RoundTripIff: files with 2^31 strings and more are left out, because the reader counts strings in an `int`.
- BlockNumbering.ReportDescribesBlocks: the dump and fault list modes and the formatting of source lines are left out, because they only print.
- The choice and the effect of the individual fault types, probabilities and random selection.
- RecoveryWindow.Library.SetFailStopRecovery: the transit counters of the shutter board are not modelled, because no decision depends on them.
- RecoveryWindow.RunsRecord: models the mask as a set of bits, because its constants are different single bits.
- PeriodicCrash.DoSuicidePerSite: sites from 1000 on are left out, because the counter board has only 1000 entries.
- WindowProfiler.Profiler.Wprof: the blame counters, the text summaries and the crash on window close are not modelled, because no counter that is compared depends on them.
- CallStacks.Finder.GetCallStacks: the caller sets are walked in a fixed order, because the order of a set of pointers is not determined.
- The variant for call sites, and the callee analyses behind the call graph, which come from libraries.
- Hypermem.Session.EdfiFaultIndexGet: the answer of the hypervisor is a parameter, because the protocol does not constrain it.
- Opening and closing the memory file behind a hypermem session.
- StoreElimination.DroppingSound: is about the address that a store writes to, and not about how many bytes it writes, because the hooks are given the address only; what they save of it is in `WriteLog`.
- StoreElimination.NotAgainUnsound: takes the places where a checkpoint may happen as instructions, and as emptying the log each time, because which calls reach the top of the loop is not visible in one function; a disabled log and a closed window are in `WriteLog`.
- StoreElimination.EliminationSoundIff: lets floating point conversions give anything, because how they round depends on the types.
- WriteLog.Logger.RestartHook: the copies from the old process always succeed and memory is one array outside the log, because the copies are kernel calls; the sizes are those of the 32-bit MINIX build.
- The other checkpoint mechanisms behind the hooks, the static recovery libraries, memory maps, printing and option parsing.
