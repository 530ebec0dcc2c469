# Verification model of MemMgr

MemMgr is a slab allocator with a small run time around it: a readers/writer
lock, pooled threads with signals, string matching and formatted appending,
configuration files and alarms. This project models the Linux build with the
slab allocator and without debug assertions, and proves what these parts are
for. `dafny verify dfyconfig.toml` checks all of it.

Code that interleaves is a step machine: a program counter per thread names
the statement it executes next, one step is one statement (or one critical
section, where nothing inside can be seen from outside), and the results hold
in every state of every run of any number of threads. Code that edits lists,
arrays and fields in place is a class or a method with loops, proved against a
function of the old state, and the functions carry the theorems.

| files | what they model |
|---|---|
| `RWLock`, `RWLockMode`, `RWLockProgress` | the readers/writer lock and the lock object, its mode field, deadlock and the waiting writer |
| `SlabPool`, `SlabPoolSteps`, `SlabPoolSafety`, `SlabPoolSolo` | the concurrent pool: its steps, the invariant they keep, the safety it means, and what a request does alone |
| `NodeLists`, `SlabLayout`, `SlabRequests`, `MemSlab` | one slab: linked nodes, sequences of requests and their history, and the slab in place with chunks, callbacks and teardown |
| `PoolAlloc` | the scan for a node and the cutting of slabs |
| `Geometry`, `SlabGeometry` | pages, node sizes, and what is unmapped |
| `AppendFormat`, `Heap` | formatted appending; allocation, resizing and freeing of blocks |
| `Glob`, `GlobPieces`, `GlobSound`, `GlobComplete`, `GlobLosses`, `GlobMeaning` | the pattern matcher, what patterns mean, and where the two agree |
| `ConfigText`, `ConfigReading`, `ConfigRoundTrip`, `ConfigMap`, `ConfigLines`, `ConfigStore` | configuration text, parsing and printing, the map it is, what each line does, the file object |
| `SignalSlots`, `SignalQueue`, `SignalCalls` | the signal slots of a thread and their concurrent use |
| `WorkQueue`, `WorkPool`, `WorkJobs`, `WorkStranding` | the queue of scheduled work, the pool of threads, the jobs they run, and items left without a thread |
| `ThreadLinks`, `ThreadHandles`, `ThreadCalls` | the lists of thread handles, their life, and who gets one |
| `Alarms`, `AlarmRuns`, `AlarmLives`, `AlarmScheduler` | a tick, runs of ticks, the life of one alarm, and the list of alarms |
| `Basics`, `Counting` | shared notions: options, reversing, the first zero; counting the elements of a sequence that satisfy a predicate |

Where the code does not do what one would expect, the model follows the code,
and the exact condition under which it does is proved:

- `strpat` is faithful to its patterns only for the family described in
  `GlobMeaning.FaithfulExactlyWhenWellBehaved`.
- `RWMode` can say READ under a writer (`RWLockMode.ModeLiesExactlyWhen`), and a
  failed post whose result is ignored leads to a deadlock
  (`RWLockProgress.DeadlockExactly`).
- A signal of value -1 stops the drain of a handle that goes into the cache
  (`SignalSlots.DrainIsCompleteExactly`), so that its next holder catches a
  signal 0 (`SignalSlots.SignalStack.FirstCatchAfterReuse`), and a successful join keeps a token
  whose signal stays queued (`SignalQueue.StrandedExactly`).
- A chunk cut off the unprepared nodes is labelled free, so its nodes go out
  unprepared (`SlabRequests.ReadyUnlessChunked`).
- A queued item can be left with no worker (`WorkStranding.StrandedExactly`).
- A comment added to an existing section is not marked for saving
  (`ConfigMap.ChangeGoesUnmarkedExactly`), and an unnamed section that does not
  come first does not survive a save
  (`ConfigRoundTrip.SurvivesExactlyWhenCanonical`).
- A shrinking resize that asks for zeros without `actual` clears a negative
  length (`Heap.Store.ResizeInPlace`), and a huge block taken without `actual`
  may leave a page mapped (`SlabGeometry.HugeUnmapsExactly`).
- A private pool's slab may hold fewer nodes than asked for, even none
  (`SlabGeometry.PrivatePoolCarvesExactly`, `SlabGeometry.PrivatePoolOfNone`).
- An alarm without a delay but with an interval is armed for the interval, yet
  fired by any earlier tick (`AlarmRuns.FiresEarlyExactly`).

Comments in the source that the code does not bear out: `_PoolAlloc` is said
always to succeed (slab.c:1737), but retries for ever when no slab can be
mapped; `_NodeFree` is said to ignore a double free (slab.c:740), which holds
for the nodes of slabs only, since the header of a freed huge block is no
longer mapped.

## Model

| member | source | states |
|---|---|---|
| RWLock.EveryRunIsSafe | src/xpl/rwlock.c:66-156 | In every state of every run of any number of threads, failed posts and rollbacks included: a writer inside excludes everyone else, RWMode is READ while a reader is inside, RWReaders is the number of registered readers, and no semaphore exceeds 1 |
| RWLock.StepKeepsToken | src/xpl/rwlock.c:66-156 | The read/write token is conserved by every statement: it is in the semaphore, with a writer, or with the group of readers, and never in two of these places |
| RWLock.StepKeepsInv | src/xpl/rwlock.c:66-156 | Every statement of every thread keeps the inductive invariant behind the safety result |
| RWLock.ReaderCountNeverWraps | src/xpl/rwlock.c:112-137 | A reader about to decrement the unsigned reader count finds it at least 1 |
| RWLockMode.ModeCanLie | src/xpl/rwlock.c:128-134 | For any two threads of any new lock, a run from the initial state after which RWMode says READ while one of them is inside as a writer |
| RWLockMode.ModeLiesExactlyWhen | src/xpl/rwlock.c:112-137 | RWMode can turn to READ under a writer if and only if a releasing reader stands between its post and its write of the mode |
| RWLockProgress.StepLosesTokenExactly | src/xpl/rwlock.c:66-156 | A statement loses the token of the gate or of the reader mutex if and only if it is one of the posts whose result is ignored, and the post fails; the two rollbacks lose nothing |
| RWLockProgress.LiveExactly | src/xpl/rwlock.c:66-156 | After any number of steps of any run all tokens are there if and only if none of the steps was a failed unchecked post |
| RWLockProgress.NoDeadlock | src/xpl/rwlock.c:66-156 | In every state of every run without a failed unchecked post, rollbacks included: whenever some thread is not idle, some thread that is not idle can take its next statement |
| RWLockProgress.DeadlockExactly | src/xpl/rwlock.c:66-156 | The exact condition: from a state of any run, steps without a further failed post can end in a deadlock if and only if an unchecked post has failed before |
| RWLockProgress.WaitingWriterDrainsReaders | src/xpl/rwlock.c:93-137 | Behind a writer that holds the gate every statement of any other thread, whatever posts fail, lowers a well-founded measure, and none passes the gate; only a failed release by the last reader, which keeps that reader inside, raises it, by less than seven |
| RWLockProgress.WriterWaitIsBounded | src/xpl/rwlock.c:93-137 | Every path on which the writer at the token waits, failed posts included, is no longer than that measure and seven steps for each failed release by a last reader |
| RWLockProgress.WriterGetsIn | src/xpl/rwlock.c:93-137 | From every state of a run without a failed unchecked post there is a path on which the others leave and the waiting writer's wait becomes enabled |
| RWLock.XplRWLock.constructor | src/xpl/rwlock.c:38-50 | A new lock is an initial state of the machine |
| RWLock.XplRWLock.Step | src/xpl/rwlock.c:66-156 | Executing one statement on the fields of the lock object is exactly one step of the machine |
| RWLock.XplRWLock.Drive | src/xpl/rwlock.c:66-156 | Any schedule of statements takes the lock object to the state that the machine's steps lead to, those of blocked threads skipped, and that state is safe |
| Glob.StrIChr | src/memmgr/str.c:30-45 | Finds the first character that equals the given one up to case, or says there is none |
| Glob.CasesAreOne | src/memmgr/str.c:30-45 | Folding makes the two cases of each letter one and no other characters, and whitespace is that of the C locale |
| Glob.StrStrN | src/memmgr/str.c:47-76 | Finds the first place at which the first n characters of the needle occur, or says there is none |
| Glob.StrpatR | src/memmgr/str.c:330-409 | The backtracking loop returns 0 exactly when the strict relation accepts, with the depth counted as the source counts it, and terminates on every input |
| Glob.AfterStar | src/memmgr/str.c:373-382 | The search after a star tries every occurrence of the literal text that follows, from the left |
| Glob.AfterPlain | src/memmgr/str.c:349-407 | Any other pattern character advances pattern and string together, or rejects, as the relation does: ? takes any one character, a run of whitespace takes a whole run |
| Glob.Strpat | src/memmgr/str.c:492-497 | strpat and stripat accept exactly the strings that the relation accepts from depth 1 |
| Glob.Strpatn | src/memmgr/str.c:499-504 | strpatn and stripatn do so for the first n characters of the pattern |
| GlobSound.AcceptedMatches | src/memmgr/str.c:330-409 | Soundness on all inputs: whatever is accepted matches the pattern's declarative meaning |
| GlobMeaning.FaithfulExactlyWhenWellBehaved | src/memmgr/str.c:330-409 | For every pattern: the matcher accepts exactly the strings that match if and only if the pattern has four syntactic properties (wildcard runs with a star end in it, no whitespace in literal text after a star, no ? between whitespace and a wildcard run that follows it, at most 14 star-then-literal groups) |
| GlobSound.StripOnlyLoses | src/memmgr/str.c:383-388 | Dropping the stars that precede a ? only takes matches away |
| GlobSound.StrictMatchesStripped | src/memmgr/str.c:330-409 | Strict acceptance is a match of the pattern with those stars dropped |
| GlobComplete.SafeIsComplete | src/memmgr/str.c:330-409 | For patterns whose whitespace is placed safely every match is found, however greedily the search runs |
| GlobLosses.ExactTextLoses | src/memmgr/str.c:373-382 | A pattern with whitespace in text after a star has a string that matches and is rejected |
| GlobLosses.GreedyLoses | src/memmgr/str.c:391-398 | A pattern with a ? right after whitespace has a string that matches and is rejected, because whitespace is taken greedily |
| GlobLosses.DroppedStarRejects | src/memmgr/str.c:371-388 | A pattern with a star right before a ? has a string that matches and is rejected |
| GlobLosses.UnsafeLoses | src/memmgr/str.c:330-409 | Every pattern outside the safe family has a string that matches and is rejected |
| SlabPoolSafety.EveryRunIsSafe | src/memmgr/slab.c:415-670 | Over every interleaving of any number of threads allocating, freeing, discarding and growing: each node is in exactly one place; an unlocked list is linked, acyclic, counted and disowned exactly; a node that is out carries its slab's address and a pool; no thread follows a bad link; every unlocked scan is on a finished slab from which the links lead to the end; at most one thread grows the pool |
| SlabPoolSteps.StepKeepsInv | src/memmgr/slab.c:483-670 | Every statement of every thread keeps the invariant |
| SlabPoolSafety.InvIsSafe | src/memmgr/slab.c:415-670 | The invariant implies the safety properties |
| SlabPoolSteps.HeldIsOut | src/memmgr/slab.c:483-505 | A node that a caller holds is held once, tagged with its slab and owned by the pool |
| SlabPoolSafety.NodeInOnePlace | src/memmgr/slab.c:483-670 | A node is on one list, with one caller, or in the hands of one thread, and in one of these only |
| SlabPoolSafety.SettledWhenUnlocked | src/memmgr/slab.c:483-670 | With a list's lock free the counter is the list's length and none of its nodes is tagged or owned |
| SlabPoolSteps.FreshSlab | src/memmgr/slab.c:437-468 | A slab that has just been carved satisfies the invariant with all nodes on one list |
| SlabPoolSteps.GrowAlone | src/memmgr/slab.c:584-601 | While one thread is in the growth section no other thread is |
| SlabPoolSolo.GetAlone | src/memmgr/slab.c:534-583 | From every reachable pool at rest, a request run to its end by one thread hands out the head of the free list of the newest slab that offers a node, or of its unprepared list if that has no free one, which then goes by way of prepareCB; only that list, its counter and the node change |
| SlabPoolSolo.GetAloneGrows | src/memmgr/slab.c:584-603 | If no slab offers a node, it cuts exactly one slab, links it first, and hands out its first node |
| SlabPoolSolo.PutAlone | src/memmgr/slab.c:636-670 | A node freed or discarded in a pool at rest comes to the head of the free list, or of the unprepared list, of its slab, counted and disowned |
| SlabLayout.FreshConserves | src/memmgr/slab.c:437-468 | Carving puts every node on exactly one list |
| SlabLayout.PopConserves | src/memmgr/slab.c:490-505 | Taking the head of a list keeps every node in exactly one place, tagged if it is out |
| SlabLayout.PushConserves | src/memmgr/slab.c:636-670 | Putting a node in front of a list does so too |
| SlabLayout.CutConserves | src/memmgr/slab.c:506-529 | So does cutting a chunk off a list |
| SlabLayout.JoinConserves | src/memmgr/slab.c:1188-1221 | So does splicing the rest of a chunk back |
| SlabLayout.NodeOccursOnce | src/memmgr/slab.c:316-357 | Counting over all lists and chunks, every node occurs exactly once or is out |
| MemSlabs.TagTells | src/memmgr/slab.c:327-351 | The word shared by the link and the slab address tells the nodes that are out from the listed ones |
| MemSlabs.TeardownExactlyOnce | src/memmgr/slab.c:316-357 | At teardown each outstanding node gets freeCB once, each outstanding or free-listed node gets destroyCB once, and unprepared nodes get neither |
| MemSlabs.TeardownOrder | src/memmgr/slab.c:321-355 | Of any two callbacks of a teardown, which comes first: no freeCB after a destroyCB, outstanding nodes freed in address order and destroyed in the opposite one, free nodes destroyed in the order of their list |
| MemSlabs.TeardownStep | src/memmgr/slab.c:323-351 | One pass of the teardown loop pushes exactly the outstanding node at hand |
| MemSlabs.MemSlab.constructor | src/memmgr/slab.c:437-468 | The carving loop links all nodes in address order onto one list and counts them |
| MemSlabs.MemSlab.GetNode | src/memmgr/slab.c:483-505 | Takes the head of a list, moves its counter by one and tags the node |
| MemSlabs.MemSlab.Get | src/memmgr/slab.c:538-583 | The new state of layout, counters, chunks and history: free nodes go first, and an unprepared one runs through prepareCB on the way out. In a pool that prepares nodes, the node handed out has been prepared since it left the unprepared list if and only if it did not leave it in a chunk |
| MemSlabs.MemSlab.CutChunk | src/memmgr/slab.c:506-529 | Chunk mode cuts off one node fewer than it counts: the last one stays on the list, and counters never exceed lengths |
| MemSlabs.MemSlab.TakeChunk | src/memmgr/slab.c:506-529 | The new state of layout, counters, chunks and history after a chunk is cut off either list |
| MemSlabs.MemSlab.GetChunk | src/memmgr/slab.c:2106-2122 | The new state: a chunk comes from the free nodes if there are any, else from the unprepared ones, and is labelled free in both cases; no callback runs |
| MemSlabs.MemSlab.PoolFree | src/memmgr/slab.c:636-655 | The new state: freeCB, then the node is first on the free list and counted |
| MemSlabs.MemSlab.PoolDiscard | src/memmgr/slab.c:658-670 | The new state: the node is first on the unprepared list and counted, no callback is made, and the node has to be prepared again |
| MemSlabs.MemSlab.NextOfChunk | src/memmgr/slab.c:2124-2148 | The new state: the next node of a chunk gets the slab's address and goes out; it has been prepared exactly under the condition of Get |
| MemSlabs.MemSlab.FreeChunk | src/memmgr/slab.c:1188-1221 | The new state: what is left of a chunk goes back to the list of its label, in order and counted |
| MemSlabs.MemSlab.FreeSlab | src/memmgr/slab.c:316-357 | Adds exactly the teardown callbacks to the log: freeCB for the outstanding nodes in address order, then destroyCB for these from the last to the first and for the free ones in list order, each as often as it is owed, and none of any other kind |
| MemSlabs.MemSlab.Serve | src/memmgr/slab.c:483-670 | The state after any sequence of get, free, discard, chunk-get, chunk hand-out and chunk free is the fold of the requests over the state before |
| SlabRequests.RequestsConserve | src/memmgr/slab.c:483-670 | After any sequence of requests to any well-formed slab: no node is lost, added or on two lists, a node is out if and only if it is tagged, the counters do not exceed the lists, and every chunk is labelled free |
| SlabRequests.ReadyExactly | src/memmgr/slab.c:568-575 | What it means that a node is ready: prepareCB has run for it and it has not gone back on the unprepared list since |
| SlabRequests.ReadyUnlessChunked | src/memmgr/slab.c:483-670 | After any sequence of requests in a pool that prepares nodes: a node off the unprepared list has been prepared since it left that list if and only if it did not leave it in a chunk |
| SlabRequests.ChunkGoesOutUnprepared | src/memmgr/slab.c:564-575 | For every slab of such a pool: taking a chunk and a node of it first hands out a node for which no callback has run, since the chunk is labelled free |
| PoolAlloc.Pool.Scan | src/memmgr/slab.c:540-582 | One scan takes a node from the first slab that offers one, which takes a counter that is not zero and a list that is not empty. The node was in front of the free list, or of the unprepared list if no free node is offered, and is prepared then; it is off that list and its counter is one less, and the other list and all other slabs are as before |
| PoolAlloc.Pool.PoolAlloc | src/memmgr/slab.c:534-603 | One pass suffices if a slab offers a node, which is taken off as by the scan; otherwise exactly one slab is cut, by the first growth that succeeds, and the next pass takes its first node off it: two passes if that is the first attempt |
| PoolAlloc.AllocateOnce | src/memmgr/slab.c:534-603 | An allocation takes its node, and no other, off the lists, and a slab that is cut brings each of its nodes once |
| PoolAlloc.NoNodeTwice | src/memmgr/slab.c:534-603 | Over any number of allocations with nothing given back in between no node is handed out twice |
| Geometry.MaskIsMod | src/memmgr/slab.c:242-250 | Masking with a power of two less one is the remainder |
| Geometry.ComplementTakesAway | src/memmgr/slab.c:248 | Masking with the complement takes away exactly what the mask selects |
| Geometry.RoundUpIsLeast | src/memmgr/slab.c:242-250 | Rounding up gives the least multiple of the page size that is not less than the size |
| Geometry.PageFit | src/memmgr/slab.c:242-250 | The bit operations of _PageFit round up, modulo the word size |
| SlabGeometry.PoolInit | src/memmgr/slab.c:692-706 | Node size and data size for a given size, and for a given number of nodes rounded down to 32 bytes by a mask |
| SlabGeometry.NodesAreDisjointAndInside | src/memmgr/slab.c:437-468 | Carved nodes do not overlap, start past the slab header and end inside the mapping |
| SlabGeometry.CarvesAsConfigured | src/memmgr/slab.c:437-440 | With a computed node size that is not rounded down to nothing at least the configured number of nodes is carved |
| SlabGeometry.PrivatePoolCarvesExactly | src/memmgr/slab.c:2066-2068 | A private pool's slab holds the nodes asked for if and only if they leave room for the slab header in their last page |
| SlabGeometry.PrivatePoolOfNone | src/memmgr/slab.c:2066-2068 | For every build: some size of node makes the slab of a private pool of one node hold none, if and only if the slab header takes more than one byte |
| SlabGeometry.TagNeverMistaken | src/memmgr/slab.c:499-503 | No node of any slab has the address of a slab |
| SlabGeometry.SlabUnmapsExactly | src/memmgr/slab.c:281-285 | Freeing a slab unmaps exactly what was mapped for it |
| SlabGeometry.HugeUnmapsExactly | src/memmgr/slab.c:1703-1718 | A huge block is unmapped exactly if and only if it was taken with `actual` or its size leaves room for the node header in its last page; never more is unmapped than was mapped |
| Heap.FindClass | src/memmgr/slab.c:1693-1702 | The unrolled search over any nondecreasing table of 16 sizes gives the least class that fits, and goes huge exactly when none does |
| Heap.Store.Alloc | src/memmgr/slab.c:1674-1751 | Which block a request gets, when it fails and when it aborts; nothing else changes |
| Heap.Store.ResizeInPlace | src/memmgr/slab.c:1767-1791 | The node is resized where it is; the length to clear is negative exactly when a shrinking node is to be cleared without `actual` |
| Heap.Store.Move | src/memmgr/slab.c:1807-1828 | The old contents and a nonzero key go to the new block, and the old one is freed |
| Heap.Store.AllocAnew | src/memmgr/slab.c:1800-1841 | A move takes a block of the least class that fits, keeps the contents and frees the old block; it fails only for a negative size or when a huge mapping is refused |
| Heap.Store.AllocEx | src/memmgr/slab.c:1754-1841 | On every path (in place, larger class, to huge, from huge): the first min(old, new) bytes are kept, the grown part is zero if asked for, every other block is untouched, sizes stay within their class, a request that fits its node stays at its address, and it fails only when the system does; it overruns exactly in the case above |
| Heap.Store.Free | src/memmgr/slab.c:715-762 | The block is gone and its node is back with its class; a second free of such a node changes nothing; a huge block strands what its header size does not cover |
| Heap.Store.Size | src/memmgr/slab.c:1843-1860 | The block of a sized pool now has all of its node, contents unchanged |
| Heap.Store.GrowAndAppend | src/memmgr/slab.c:2011-2024 | After one regrowth to the size needed the text fits, in a block of the least class for it; it fails only if that size is refused, and then nothing has changed |
| Heap.Store.StartString | src/memmgr/slab.c:1996-2010 | The string to append to: the given one with all the room of its block, or a new empty one in a block for 64 bytes, which is missing only if that is refused |
| Heap.Store.StrCat | src/memmgr/slab.c:1989-2027 | MMStrcatv on NULL or on the string S of a sized block ends with S followed by the text, at the old address if it fits and else at that of a block for the size needed; it regrows once if and only if the text does not fit; it fails only if the one regrowth or the first block is refused, and then the string is S as before; other blocks are untouched |
| Heap.ResizedKeepsText | src/memmgr/slab.c:2011-2024 | Resizing to no less keeps a terminated string |
| AppendFormat.VStrCatF | src/memmgr/str.c:529-587 | The exact buffer, return value and size reported, for a terminated buffer, one without NUL, and none |
| AppendFormat.AppendsAllOrNothing | src/memmgr/str.c:529-587 | Either all of the text is appended or the string is as before |
| ConfigRoundTrip.NormalForm | src/xpl/cfgfile.c:235-385 | For every text whose lines fit the line buffer: what is parsed is well formed, its print fits again, and parsing the print gives the same sections and items in order, up to an empty unnamed section |
| ConfigRoundTrip.SurvivesExactlyWhenCanonical | src/xpl/cfgfile.c:235-385 | A configuration that prints within the buffer survives printing and parsing if and only if it is canonical |
| ConfigReading.CanonicalReadsBack | src/xpl/cfgfile.c:235-385 | Parsing the print of a canonical configuration returns it |
| ConfigRoundTrip.ParseFromKeepsParsed | src/xpl/cfgfile.c:272-343 | Every line read keeps names trimmed, separators out, names unique up to case, and only the first section unnamed |
| ConfigRoundTrip.FullLastLineSplits | src/xpl/cfgfile.c:272-277 | The bound on lines is needed: a last line that just fills the buffer is printed with a newline and read back as two |
| ConfigLines.CleanedTrims | src/xpl/cfgfile.c:96-111 | Cleaning a line is exactly taking away the spaces and tabs it starts with and the spaces, tabs and line ends it ends with |
| ConfigLines.HeaderLine | src/xpl/cfgfile.c:279-301 | A name in brackets opens a section, unless there is one of that name up to case, which leaves everything and the section at hand as they were |
| ConfigLines.BadHeaderLine | src/xpl/cfgfile.c:280-292 | A bracket that is not closed, or closed at once, changes nothing |
| ConfigLines.ItemLine | src/xpl/cfgfile.c:321-341 | A line with an equals sign adds an item to the section at hand, name and value trimmed, unless the name is empty or taken up to case, which changes nothing |
| ConfigLines.NoItemLine | src/xpl/cfgfile.c:321-327 | A line without an equals sign adds nothing |
| ConfigLines.CommentLine | src/xpl/cfgfile.c:310-320 | Comments keep their text and blank lines are kept, behind the items of the section at hand |
| ConfigLines.LookupAfterLine | src/xpl/cfgfile.c:275-342 | What any line does to a lookup: a key that is found keeps its value, and one that is not has afterwards exactly the value that the line gives it |
| ConfigLines.FirstValueWins | src/xpl/cfgfile.c:333-339 | The first value of a key counts, whatever text is read after it |
| ConfigMap.SetThenGet | src/xpl/cfgfile.c:429-504 | After a successful named set the key has the new value and every other key has its old one; every other call changes no lookup |
| ConfigMap.SetSucceedsExactly | src/xpl/cfgfile.c:459-504 | A call returns 0 unless it has a name and no value, else -1; a comment or blank line goes behind the items of its section, and all other sections stay as they are |
| ConfigMap.RunRefinesMap | src/xpl/cfgfile.c:429-504 | Over any run of calls the configuration answers as a map with case-insensitive keys |
| ConfigMap.OpenedFileRefinesMap | src/xpl/cfgfile.c:235-504 | So does any opened text followed by any run of calls |
| ConfigMap.ReachableIsUnique | src/xpl/cfgfile.c:113-222 | Whatever text is opened and whatever calls follow, no two sections, and no two items of a section, share a name |
| ConfigMap.ChangeGoesUnmarkedExactly | src/xpl/cfgfile.c:459-504 | A change is left unmarked, and so not flushed, if and only if it adds a comment or blank line to a section that exists |
| ConfigMap.SavedRunReadsBack | src/xpl/cfgfile.c:235-504 | Open, change by well-formed requests, flush and reopen what the flush left on disk: every key has the value the run left, changes that went unmarked included |
| ConfigMap.RunIsMarkedExactly | src/xpl/cfgfile.c:459-504 | A run is marked as a change if and only if a call of it sets a named item or names a section that was missing when the run began |
| ConfigMap.UnmarkedRunChangesExactly | src/xpl/cfgfile.c:459-504 | A run without a mark changes nothing if and only if every call of it has a name |
| ConfigMap.RunIsSavedExactly | src/xpl/cfgfile.c:353-504 | Sections, comments and order as well come back from disk, up to an empty unnamed section, if and only if a call sets a named item or names a section the file does not have, or every call has a name |
| ConfigMap.LateUnnamedPrintsInto | src/xpl/cfgfile.c:353-372 | An unnamed section after any other prints exactly as its items added to the section before it |
| ConfigMap.LateUnnamedIsAbsorbed | src/xpl/cfgfile.c:353-372 | A run after which an unnamed section created late is absorbed into the section before it when the file is read back |
| ConfigStore.Clean | src/xpl/cfgfile.c:96-111 | The two trimming loops compute the trimmed text |
| ConfigStore.CFGFile.constructor | src/xpl/cfgfile.c:235-346 | The reading loop over fgets parses the whole text |
| ConfigStore.CFGFile.ParseLineInto | src/xpl/cfgfile.c:275-342 | One pass of the loop does with a line what the grammar says, malformed and duplicate lines included |
| ConfigStore.CFGFile.FindSectionAt | src/xpl/cfgfile.c:113-134 | The search returns the first section of that name up to case, NULL matching only the unnamed one |
| ConfigStore.CFGFile.FindItemAt | src/xpl/cfgfile.c:166-181 | The search returns the first item of that name up to case, skipping comments and blanks |
| ConfigStore.CFGFile.Flush | src/xpl/cfgfile.c:353-385 | The file becomes the print of the configuration if it was changed and can be written; the mark is cleared in any case |
| ConfigStore.CFGFile.GetValue | src/xpl/cfgfile.c:429-445 | Returns the value of the key, or nothing |
| ConfigStore.CFGFile.Set | src/xpl/cfgfile.c:459-504 | The whole new state and the result: a missing section is added even when a name without a value is refused |
| SignalSlots.PushAppends | src/memmgr/thread.c:1500-1510 | Filling the first empty slot appends to the queue; with all slots taken nothing changes |
| SignalSlots.PopDropsHead | src/memmgr/thread.c:1558-1576 | Shifting the slots down drops the head of the queue and keeps the filled slots in front |
| SignalSlots.DrainIsCompleteExactly | src/memmgr/thread.c:1369-1376 | The drain before caching leaves no token if and only if none of the signals before the last token's is -1 |
| SignalSlots.SignalStack.FirstCatchAfterReuse | src/memmgr/thread.c:1369-1376 | After the drain the next holder's first catch returns -1 exactly under that condition, and else signal 0, from a token left over |
| SignalSlots.SignalStack.Signal | src/memmgr/thread.c:1465-1514 | The signal is queued last with a token, or rejected without change when it is 0 or all slots are taken |
| SignalSlots.SignalStack.GetSignal | src/memmgr/thread.c:1558-1576 | Returns the head of the queue with its context, or 0 when the slots are empty |
| SignalSlots.SignalStack.Catch | src/memmgr/thread.c:1628-1671 | A catch without waiting takes a token and the head of the queue, or returns -1 when there is no token |
| SignalSlots.SignalStack.DrainAndClear | src/memmgr/thread.c:1369-1376 | Slots are empty afterwards; tokens are gone exactly under the condition above |
| SignalQueue.EveryRunIsSafe | src/memmgr/thread.c:1465-1671 | Over every interleaving of signal, catch and join: filled slots form a prefix; queued signals equal tokens, tokens in hand, posts owed, and those kept by joins or lost; what was accepted is what was delivered, in order, followed by what is queued; no catch sees signal 0 |
| SignalQueue.DeliveredInOrder | src/memmgr/thread.c:1465-1671 | Delivery is first in, first out |
| SignalQueue.FullQueueRejects | src/memmgr/thread.c:1499-1513 | A signal to a full queue changes nothing, any other is queued last |
| SignalQueue.StrandedExactly | src/memmgr/thread.c:1596-1625 | With no call under way exactly as many queued signals are out of reach as joins have returned and posts have failed |
| SignalCalls.AcceptsTheCall | src/memmgr/thread.c:1465-1514 | Over whole runs a step queues a signal if and only if it is the scan of a signalling call that finds an empty slot, and then the signal and context are those of the call |
| SignalCalls.JoinReturnsExactly | src/memmgr/thread.c:1596-1625 | Over whole runs a join returns only from a thread that has stopped; one that tests returns if and only if the thread has stopped by then, and else gives the token back |
| WorkQueue.Queue.Enqueue | src/memmgr/thread.c:962-967 | The tail link refines a first-in, first-out queue, and the number pending is its length |
| WorkQueue.Queue.Dequeue | src/memmgr/thread.c:784-793 | Takes the oldest item and resets the tail of an emptied queue; an empty queue gives nothing |
| WorkPool.EveryRunIsSafe | src/memmgr/thread.c:778-992 | Over every interleaving with any number of clients and threads created: queue length equals tokens, woken workers and posts owed, so a woken worker finds work; idle, active and total count the threads they are meant to; total plus wrapped equals idle plus active; peak is at least active; jobs are taken in order |
| WorkPool.PeakIsMaximum | src/memmgr/thread.c:803-808 | peak is the largest number of active threads there has been |
| WorkJobs.EveryJobOnce | src/memmgr/thread.c:778-992 | In every state of every run: the jobs that clients have scheduled are, in order, those taken and those queued; each is queued, with one thread that has yet to run it, or has been run, as often in all as it was scheduled; and so for the jobs that get a thread of their own |
| WorkJobs.CreatesExactly | src/memmgr/thread.c:962-992 | Scheduling creates a pooled thread if and only if no more threads are idle than jobs were queued, the new one included |
| WorkStranding.StrandedExactly | src/memmgr/thread.c:824-838 | With all schedulers returned, in every state of every run: an item is queued with no pooled thread alive if and only if the last one retired although a token was posted or about to be, and none has been created since |
| WorkStranding.BecomesUnattendedExactly | src/memmgr/thread.c:824-838 | That retirement is the only statement that leaves a posted token without a pooled thread |
| WorkStranding.NeverStrandedByIdleRetiring | src/memmgr/thread.c:824-835 | A run in which every thread that retires leaves an empty queue never strands an item |
| WorkStranding.SomeWorkerCanMove | src/memmgr/thread.c:778-838 | In such a run, while an item is queued that has been posted for, some pooled thread can take its next step |
| WorkStranding.StrandingRun | src/memmgr/thread.c:784-838 | A run from the initial state that leaves an item queued, its token posted and no pooled thread alive |
| ThreadHandles.EveryRunIsSafe | src/memmgr/thread.c:653-1392 | Over every interleaving of starting, wrapping, running and freeing: cached handles have no reference left and are linked nowhere, each handle enters the cache once per life, the counters equal the list lengths, and no search for what is to be unlinked fails |
| ThreadHandles.TakenHandleIsUnreferenced | src/memmgr/thread.c:1194-1200 | A handle taken out of the cache has no reference from its previous life |
| ThreadHandles.CachedAfterBothDropped | src/memmgr/thread.c:1361-1381 | A handle is cached only after the thread and the caller who kept it have both dropped it, by one actor |
| ThreadHandles.NothingLeaks | src/memmgr/thread.c:1131-1392 | When all threads have ended and all handles kept have been freed, every handle is in the cache once and all lists are empty |
| ThreadHandles.AlwaysFound | src/memmgr/thread.c:664-690 | What a thread is about to unlink is on its group's list and on the global list |
| ThreadCalls.CallsAreFollowed | src/memmgr/thread.c:1153-1381 | In every state of every run each actor works in the group its last call named, with the kind of handle that the call asked for |
| ThreadCalls.StartGivesHandleExactly | src/memmgr/thread.c:1225-1234 | Starting a thread gives the caller its handle if and only if the call asked for it, and the thread runs with that handle in the group named |
| ThreadLinks.Lists.Link | src/memmgr/thread.c:1140-1145 | The handle is first on the global list, the cache unchanged though both use one link field |
| ThreadLinks.Lists.Unlink | src/memmgr/thread.c:680-690 | The search and the assignment through the link remove exactly that handle, order kept |
| ThreadLinks.Lists.Cache | src/memmgr/thread.c:1378-1381 | The handle is first in the cache, the global list unchanged |
| ThreadLinks.Lists.Take | src/memmgr/thread.c:1194-1200 | Takes the first cached handle, if any |
| Alarms.FiresExactlyTheDue | src/xpl/xplalarm.c:344-357 | A tick fires exactly the alarms whose deadline is at most now + 1 |
| Alarms.FiredIdsAreUnique | src/xpl/xplalarm.c:344-357 | Each of them once |
| Alarms.RemainsExactly | src/xpl/xplalarm.c:344-366 | What is left is the alarms not due, unchanged, and the due ones that repeat, re-armed from now |
| Alarms.OrderIsKept | src/xpl/xplalarm.c:344-366 | The alarms left keep their order |
| Alarms.NextDelayIsMinimum | src/xpl/xplalarm.c:277-310 | The delay armed is the least of the waits, one second at least |
| Alarms.TickArmsForTheNext | src/xpl/xplalarm.c:342-369 | After a tick every deadline left is in the future and the delay armed is the least time to one of them |
| AlarmRuns.NoAlarmIsForgotten | src/xpl/xplalarm.c:277-500 | In every state of every run, for every alarm whose creator has armed the signal after linking it, the signal is armed no later than the alarm's time, or within a second of now if that has passed |
| AlarmRuns.RearmCoversAll | src/xpl/xplalarm.c:277-310 | Whichever creator arms next arms for the alarms of all creators, its own or not |
| AlarmRuns.FiringsAreSpaced | src/xpl/xplalarm.c:323-376 | Over any run a one-shot fires at most once, and a repeating alarm's firings are its interval apart less at most one second |
| AlarmRuns.FiresEarlyExactly | src/xpl/xplalarm.c:277-366 | In every state of every run the next tick fires an alarm more than a second before the time it is armed for if and only if its delay is 0 and its interval is not over; it is then its first firing |
| AlarmRuns.EarlyRun | src/xpl/xplalarm.c:277-468 | A run, for any interval above a second, in which an alarm without a delay fires at once though it is armed for a whole interval later |
| AlarmLives.ShutdownKeepsOthers | src/xpl/xplalarm.c:400-441 | Shutting down a handle closes it and takes its alarms away; while another handle is open all other alarms stay, in order, and the signal stays armed; with the last handle everything goes |
| AlarmLives.DestroyKeepsOthers | src/xpl/xplalarm.c:471-500 | Destroying an alarm takes it, and no other, away |
| AlarmLives.LeavesExactly | src/xpl/xplalarm.c:323-500 | Over whole runs an alarm leaves the list in a step if and only if it fires in it as a one-shot, is destroyed, or its handle or the last handle is shut down |
| AlarmLives.TermsAreKept | src/xpl/xplalarm.c:323-468 | Over whole runs every alarm in the list was created by one call and has its callback, interval and handle; until it fires it has the call's delay and start, and from then on its interval for a delay and its last firing for a start |
| AlarmScheduler.Scheduler.PrepareNextTick | src/xpl/xplalarm.c:277-310 | The loop folds the list into that minimum and arms unless the list is empty |
| AlarmScheduler.Scheduler.Fire | src/xpl/xplalarm.c:342-366 | The loop edits the list in place to exactly what is left and collects what is due in reverse order |
| AlarmScheduler.Scheduler.Signal | src/xpl/xplalarm.c:323-376 | A tick is exactly one tick of the machine, and starts the callbacks due in reverse order of the list; with no open handle it does nothing |
| AlarmScheduler.Scheduler.LinkAlarm | src/xpl/xplalarm.c:443-465 | Under the lock: the new alarm is first on the list, and its creator has yet to arm the signal |
| AlarmScheduler.Scheduler.ArmAlarm | src/xpl/xplalarm.c:467 | After the lock: the signal is armed for the list as it is then |
| AlarmScheduler.Scheduler.Create | src/xpl/xplalarm.c:443-468 | With no other caller in between, both steps of the machine one after the other |
| AlarmScheduler.Scheduler.Remove | src/xpl/xplalarm.c:471-489 | Unlinks the alarm wherever it is; one not in the list changes nothing |
| AlarmScheduler.Scheduler.Close | src/xpl/xplalarm.c:400-441 | Removes the handle's alarms, and with the last handle every alarm and the armed signal |

## Left out

- Real memory mapping, advice, POSIX semaphores, threads and clocks: they appear as atomic steps, as parameters that say what the system grants, or as the time a call reads. The order in which a processor makes stores visible is not modelled.
- Windows, NetWare and Solaris branches, the debug and guard builds, red-zone signatures, owner strings, dumps, leak reports and the memory worker.
- SlabPoolSafety.EveryRunIsSafe: the machine has no chunks; chunks are modelled with no other thread at work, in `MemSlab`.
- MemSlabs.MemSlab.TakeChunk: requires chunks of two nodes or more; a chunk of one takes the single-node path, after which `MMChunkGet` reads the slab address as a link.
- MemSlabs.MemSlab.FreeSlab: requires every chunk to be given back before, as `FreePrivateCB` does by tearing down the chunk pool first.
- PoolAlloc.Pool.PoolAlloc: requires slabs to hold at least one node and some mapping to succeed in the end; without the latter the source does not return.
- SlabGeometry.PoolInit: requires the configured node count to be positive and the slab to be below 2 GB where the node size is computed, as the 32-bit arithmetic of the source does.
- Heap.Store.AllocEx: which free node a pool hands out, what it holds and whether a mapping is granted are parameters; the slab scan behind it is in `PoolAlloc`, and owner strings are left out.
- Heap.Store.Size: blocks of sized pools only; on a huge block the source reads the list link as a pool.
- Heap.Store.StrCat: strings in blocks of sized pools only, for the same reason.
- Heap.Store.Free: a second free of a huge block is not modelled, its header is no longer mapped.
- AppendFormat.VStrCatF: a buffer of size 0 is not modelled, the source writes in front of it; what the format prints is a text without NULs.
- `MMSprintf` and `MMAsprintf`: what they print is the C library's formatting, which is a parameter here.
- WorkPool.EveryRunIsSafe: creating a thread succeeds; the path on which it fails releases a lock it does not hold.
- ThreadHandles.EveryRunIsSafe: groups are fixed; the static group's disposal when it runs empty, group destruction and library shutdown are not modelled, and a started thread runs as an actor of its own, how it gets a worker being the matter of `WorkPool`.
- SignalQueue.EveryRunIsSafe: the slots are touched only under the mutex, so a scan or a shift is one step; signalling a whole group and the library states are left out.
- AlarmScheduler.Scheduler.Create: failure of memory allocation is left out, and alarms are created under an open handle with delays that are not negative; arming after the lock is released reads the list in one step.
- AlarmScheduler.Scheduler.Close: the removal of the handle and, after the last one, of everything else are one step although the source releases the lock between them.
- ConfigStore.CFGFile.Flush: whether the file can be written is a parameter; NUL characters in the text and failure of memory allocation are left out.
- RWLock.EveryRunIsSafe: `XplRWLockDestroy` with threads queued and callers that release a lock they do not hold are left out.
- Timer arithmetic, `strtotime`, `strtobytes` and field splitting, which no modelled part calls, and option parsing, process and directory code and shutdown hooks, which depend on the system.
