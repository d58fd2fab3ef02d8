# A verified model of the reactor HTTP server

The server is a C++ reactor: event loops, connections with chunked buffers, an HTTP parser, a
timing wheel that closes idle connections, a three-tier memory pool and a pool of database
connections. This project models its stateful parts in Dafny and proves what they promise, over
all inputs, all runs and all interleavings.

`dafny verify dfyconfig.toml` checks everything.

| file | what it is about |
|---|---|
| `Wrappers.dfy` | a type that several modules share |
| `SizeClass.dfy` | size classes and batch numbers of the memory pool |
| `PoolMachine.dfy`, `PoolInvariant.dfy`, `PoolTheorems.dfy` | the pool as atomic steps of any number of threads, what every step keeps, and what follows for whole runs |
| `PoolSteps.dfy` | what each step of the pool does to the lists, case by case |
| `MemoryPool.dfy` | the pool as the program has it, with `next` pointers inside the free blocks, shown to follow the machine step by step |
| `PageCache.dfy` | spans of pages: best fit, split, coalescing |
| `PoolOverPages.dfy` | the pool on top of the page cache: whatever the system grants is memory the pool has not carved |
| `TimeWheel.dfy` | the hashed timing wheel, shown to be a plain map from descriptor to ticks left |
| `ServerTimers.dfy` | the table of connections and the wheel under concurrent closes, updates and ticks |
| `CivilDate.dfy` | seconds since 1970 to a date in UTC+8, in 32-bit arithmetic |
| `Buffer.dfy` | the chunked byte buffer, shown to be one flat byte sequence |
| `UrlCodec.dfy` | percent-encoding and form bodies |
| `HttpRequest.dfy` | the line reader and the request parser, which undoes a request printer |
| `Connection.dfy` | reading requests and draining output through partial writes |
| `HeapTimer.dfy` | the binary heap of timers with its exact index |
| `EventLoop.dfy` | queued tasks and the wake-up descriptor of a loop |
| `SqlConnPool.dfy` | the connection pool under a mutex and a semaphore |

Concurrent parts are state machines: one step is one region under a lock, a thread-local part, or
one system call, and a run is any sequence of steps of any threads. The classes beside a machine
hold the fields of the program; each of their methods is one region, and its contract says which
step of the machine it takes. What a step does is stated a second time without the functions of
the machine (`PoolSteps`, `ServerTimers.RefreshRearms`, `Connection.WriteOnOpen`,
`EventLoop.CounterCountsWrites`, `SqlConnPool.FirstInFirstOut`), and so is what the parser and the
decoder compute (`HttpRequest.PartsArrive`, `UrlCodec.EscapeIsDecoded`).

Results that say when the code does *not* do what one would expect:

- A run with frees of at most 32 KB loses a block exactly if some thread returns a chain after a
  free with size 0 (`PoolTheorems.NoBlockIsLostIff`): the bound of `returnRange` is then 0 bytes
  and only one block of the chain is spliced. Frees of 1 to 32768 bytes lose nothing
  (`PoolTheorems.RealFreesLoseNothing`). `PoolTheorems.ZeroSizeFreesLoseBlocks` is a run after
  which 48 blocks of 8 bytes are on no list. A buffer block frees its memory with its used size
  (`reactor/Buffer.h:27`), which can be 0.
- Where every bucket held a span before, `deallocateSpan` leaves one with a null pointer exactly
  when the span behind is registered and either is the only free span of its size, or is allocated, of another size than the span
  that comes back, and of a size that has no bucket (`PageCache.PageCache.DeallocateSpan`). Such a
  bucket is one that some `allocateSpan` chooses and follows (`PageCache.NullIsFollowedIff`), and
  two neighbours freed in the wrong order make one (`PageCache.NullBucketArises`). The pool never
  gives a span back, so it never meets one (`PoolOverPages`).
- `parse` prints two log lines into arrays of 256 bytes without a bound. Parsing a printed request
  stays in them, and then gives the request back, exactly if the method, the path after
  `ParsePath_` and the version have at most 245 bytes together and, if there is a body, its bytes
  and the digits of its length are at most 244, where bytes count up to the first NUL
  (`HttpRequest.ParsingUndoesPrinting`). A plain body may have 241 bytes
  (`HttpRequest.PlainBodyFitsIff`); `HttpRequest.LongBodyOverruns` has one of 242.
- A posted form arrives as it was filled in, but on the login and registration pages a missing
  `username` or `password` is there afterwards, empty (`HttpRequest.PostedFormArrives`).
- `parse` leaves a buffer of incomplete input as it found it exactly if no line was consumed
  (`HttpRequest.HttpRequest.Parse`, `HttpRequest.RefusedIntactIff`). A request that arrives cut
  after its request line (`HttpRequest.CutAfterRequestLine`) has its read position moved back, but
  the count of readable bytes stays short by what was consumed, and a block that was read to its
  end is gone.
- `add_connection` keeps the wheel a map exactly if the descriptor has no timer
  (`TimeWheel.TimeWheel.AddConnection`); the server always calls it that way
  (`ServerTimers.AddConditionAlwaysHolds`).
- An operation of epoll on a connection that is closed already ends the process
  (`reactor/Epoll.cpp:23-28`), and this happens exactly if a `send`, a close, or a write callback
  that is done with the output comes after a close (`Connection.ExitsIff`,
  `Connection.ClosedForGood`). Two closes of one connection can meet
  (`ServerTimers.TwoClosersCanMeet`): exactly when one starts while another is under way
  (`ServerTimers.TwoClosersIff`).
- `adjust` keeps the timer heap a heap exactly if the new expiry is not before the parent's
  (`HeapTimer.HeapTimer.Adjust`), since it only sifts down.
- The date is right exactly for times before 60 * 2^31 seconds (`CivilDate.GetNow`).

Where the C++ relies on something outside its own rules, the model takes the intended meaning:
the guard of `siftup_` (`timer/heaptimer.cpp:6`) compares an unsigned index with 0 and never
fails. The model stops at the root and reports it, which is where the program would read outside
the vector: exactly if the first timer is not strictly earlier than the one that moves
(`HeapTimer.HeapTimer.SiftUp`). The file is not part of the CMake target. `sscanf("%x")` on
the two characters `0x` is taken as a matching failure, as the C standard has it. Sizes are
unbounded integers except where wrap-around can matter: the list counters of the pool wrap at 2^64
and the date arithmetic is in 32-bit integers.

## Model

| member | source | states |
|---|---|---|
| `SizeClass.GetIndexIsBestFit` | memory_pool2/common.h:20-25 | the class of a request is the smallest one whose blocks of 8 (index + 1) bytes hold it, the rounded size is that block length, and the limits are 32768 classes for 256 KB and 4096 for 32 KB |
| `SizeClass.ClearLowBits` | memory_pool2/common.h:14-18 | masking with the complement of 7 is subtracting the remainder modulo 8 |
| `SizeClass.GetBatchNum` | memory_pool2/threadcache.cpp:120-139 | a batch has between 1 and 64 blocks, and at most 4 KB if it has more than one |
| `SizeClass.BatchTable` | memory_pool2/threadcache.cpp:124-138 | the batch for every size: 64, 32, 16, 8, 4, 2 or 1 by the limits of 32 to 1024 bytes; the number of blocks in 4 KB is never below it |
| `SizeClass.BatchFits2K` | memory_pool2/threadcache.cpp:124-138 | so a batch is the largest power of two up to 64 whose blocks fit into 2 KB, or one block |
| `PoolInvariant.StepKeepsInv` | memory_pool2/threadcache.cpp:5-118 | every step of every thread keeps the pool consistent: disjoint blocks, each on the one list its place names, exact counters for classes up to 32 KB, at most one chain in flight per thread |
| `PoolInvariant.EmptyInv` | memory_pool2/threadcache.cpp:5-28 | the pool starts consistent |
| `PoolInvariant.FreshSpanIsGood` | memory_pool2/centralCache.cpp:53-92 | a fresh span is cut into non-null, disjoint blocks inside the span that start at its address; none for classes over 32 KB |
| `PoolInvariant.PopKeepsInv` | memory_pool2/threadcache.cpp:16-26 | taking the head of a thread's list keeps the invariant |
| `PoolInvariant.FetchKeepsInv` | memory_pool2/centralCache.cpp:9-124 | fetching a batch from the central list, or from a span, keeps the invariant |
| `PoolInvariant.FinishKeepsInv` | memory_pool2/threadcache.cpp:59-69 | putting a fetched chain into the thread's list and counter keeps the invariant |
| `PoolInvariant.FreeKeepsInv` | memory_pool2/threadcache.cpp:30-48 | pushing a freed block, also into a smaller class, and cutting a long list keep the invariant |
| `PoolInvariant.ReturnKeepsInv` | memory_pool2/centralCache.cpp:126-151 | splicing a returned chain keeps the invariant |
| `PoolTheorems.RunKeepsInv` | memory_pool2/threadcache.cpp:5-118 | the invariant holds after every run of any number of threads |
| `PoolTheorems.PoolIsSafe` | memory_pool2/threadcache.cpp:5-48 | in every reachable state any two live blocks are disjoint byte ranges of the full length of their classes |
| `PoolTheorems.LiveBlocksDisjoint` | memory_pool2/centralCache.cpp:53-92 | live blocks share no byte and are at least as long as their class says |
| `PoolTheorems.ExclusiveOwnership` | memory_pool2/centralCache.cpp:9-151 | every carved block is on exactly one list, or live, or lost; lists hold only carved blocks, none twice |
| `PoolTheorems.HandsOutUnownedBlock` | memory_pool2/threadcache.cpp:5-28 | an allocation makes exactly one block live that was not, of the class asked for and long enough |
| `PoolTheorems.CountersAreExact` | memory_pool2/threadcache.cpp:42-47 | in every reachable state the counter of a class up to 32 KB is the length of its list and at most 64 |
| `PoolTheorems.CutNeverEndsEarly` | memory_pool2/threadcache.cpp:80-117 | the free that makes a list 65 long keeps its first 16 blocks and puts the other 49 in flight, so the early end of the walk is not reached |
| `PoolTheorems.BoundCoversChain` | memory_pool2/threadcache.cpp:113-116 | a chain in flight of a class up to 32 KB has 49 blocks, and all of them are spliced, or one if the freed size was 0 |
| `PoolTheorems.ReturnLoses` | memory_pool2/centralCache.cpp:134-144 | a return loses nothing, or all blocks but the first if the freed size was 0 |
| `PoolTheorems.OthersLoseNothing` | memory_pool2/threadcache.cpp:5-118 | no other step loses a block |
| `PoolTheorems.StepLosesIff` | memory_pool2/centralCache.cpp:126-151 | a step loses blocks exactly if it returns a chain with a bound of zero bytes |
| `PoolTheorems.NoBlockIsLostIff` | memory_pool2/threadcache.cpp:73-118 | with frees of at most 32 KB a run loses no block exactly if no thread returns a chain after a free with size 0: a condition on the calls |
| `PoolTheorems.RealFreesLoseNothing` | memory_pool2/threadcache.cpp:30-118 | frees of 1 to 32768 bytes lose nothing in any run |
| `PoolTheorems.RunLosesIff` | memory_pool2/centralCache.cpp:126-151 | from any consistent state a run loses a block exactly if it ever returns a chain with a bound of zero bytes |
| `PoolTheorems.ZeroBoundIff` | memory_pool2/threadcache.cpp:113-116 | that happens exactly when the last free of the returning thread was with size 0 |
| `PoolTheorems.ZeroSizeFreesLoseBlocks` | memory_pool2/threadcache.cpp:113-116 | there is a run of two threads after which 48 blocks are lost |
| `PoolTheorems.FetchKeepsLive` | memory_pool2/centralCache.cpp:9-124 | fetching a batch leaves every live block live |
| `PoolSteps.PopTakesHead` | memory_pool2/threadcache.cpp:16-26 | the head of the local list becomes live in its class, the rest stays in order, the counter goes down by one, no other list changes |
| `PoolSteps.FreePutsInFront` | memory_pool2/threadcache.cpp:30-48 | a freed block goes in front of the local list of its size, the counter goes up by one and no other list changes, if the counter is then at most 64 or the list is shorter than a quarter of it |
| `PoolSteps.FreeCutsLongList` | memory_pool2/threadcache.cpp:73-118 | with 64 blocks there already the first 16 of the 65 stay, the 49 behind them are in flight, and the counter is 16 |
| `PoolSteps.FetchTakesBatch` | memory_pool2/centralCache.cpp:94-114 | a fetch takes the batch, or all there is, off the front of the central list, in order |
| `PoolSteps.FetchCarvesSpan` | memory_pool2/centralCache.cpp:53-92 | without central blocks a span gives 32768 / size blocks at span + j * size: the first batch for the thread and the others in order for the central list |
| `PoolSteps.BlocksAt` | memory_pool2/centralCache.cpp:66-72 | where the j-th block of a span starts |
| `PoolSteps.FetchOfLargeBlock` | memory_pool2/centralCache.cpp:37-92 | in a class over 32 KB the span is one block, as long as the pages that hold it, and it is not counted |
| `PoolSteps.FinishHandsOutFirst` | memory_pool2/threadcache.cpp:59-69 | the first block fetched becomes live, the others are the local list in order, and the counter is their number |
| `PoolSteps.ReturnPutsInFront` | memory_pool2/centralCache.cpp:126-151 | all 49 blocks of a returned chain go in front of the central list, in order, or only the first if the freed size was 0 |
| `MemoryPool.MemoryPool.AllocateLocal` | memory_pool2/threadcache.cpp:16-26 | popping the head through its `next` word is the machine's pop, and the pointer returned is a block that was nobody's |
| `MemoryPool.MemoryPool.FinishFetch` | memory_pool2/threadcache.cpp:59-69 | the pointer assignments after a fetch are the machine's step |
| `MemoryPool.MemoryPool.Allocate` | memory_pool2/threadcache.cpp:5-28 | an uninterrupted allocation returns a block of the right class that was not live and leaves the others live, or null if there is no memory |
| `MemoryPool.MemoryPool.Deallocate` | memory_pool2/threadcache.cpp:30-48 | the push through the block's `next` word, and the cut of a long list, are the machine's free |
| `MemoryPool.MemoryPool.CutLocalList` | memory_pool2/threadcache.cpp:73-118 | cutting at the split node leaves the kept blocks as a null-terminated list and the rest as the chain in flight |
| `MemoryPool.MemoryPool.SplitNode` | memory_pool2/threadcache.cpp:91-99 | the walk ends at block keepNum of the list, with the early end where the list is shorter |
| `MemoryPool.MemoryPool.FetchRange` | memory_pool2/centralCache.cpp:9-124 | `fetchRange` is the machine's fetch and leaves all live blocks live |
| `MemoryPool.MemoryPool.FetchFromCentral` | memory_pool2/centralCache.cpp:94-114 | the first batch of the central list becomes a null-terminated chain, the rest stays |
| `MemoryPool.MemoryPool.SplitPoint` | memory_pool2/centralCache.cpp:96-108 | the loop counts the blocks taken and finds the last of them and the one after it |
| `MemoryPool.MemoryPool.FetchFromSpan` | memory_pool2/centralCache.cpp:37-92 | a fresh span becomes the thread's chain and the central list |
| `MemoryPool.MemoryPool.CarveSpan` | memory_pool2/centralCache.cpp:53-92 | what the carving writes: two null-terminated lists over the blocks of the span and no other word |
| `MemoryPool.MemoryPool.LinkRun` | memory_pool2/centralCache.cpp:63-88 | the loop links consecutive blocks and ends the chain with null |
| `MemoryPool.MemoryPool.ReturnRange` | memory_pool2/centralCache.cpp:126-151 | `returnRange` is the machine's return |
| `MemoryPool.MemoryPool.LastOfChain` | memory_pool2/centralCache.cpp:134-139 | the loop stops at the end of the chain or at the bound |
| `MemoryPool.LiveWord` | memory_pool2/threadcache.cpp:20-22 | whatever the program writes into a live block, at any address in it, the lists of the pool are what they were |
| `MemoryPool.MemoryPool.WriteLive` | reactor/Buffer.cpp:45-45 | so a write into a block that was handed out keeps the pool valid |
| `PageCache.PageCache.AllocateSpan` | memory_pool2/pageCache.cpp:5-52 | the smallest free span that is large enough is handed out and its rest stays free; without one, new pages are granted and handed out, or nothing changes; a null pointer is followed exactly if the chosen bucket has one |
| `PageCache.PageCache.TakeFrom` | memory_pool2/pageCache.cpp:10-40 | taking from a bucket, with the split, keeps the tiling, the buckets and the registration |
| `PageCache.PageCache.Grant` | memory_pool2/pageCache.cpp:42-51 | pages of the system become one live span |
| `PageCache.PageCache.DeallocateSpan` | memory_pool2/pageCache.cpp:55-104 | a live span becomes free, joined with a registered free successor; no page is lost; when a bucket is left with a null pointer |
| `PageCache.PageCache.Coalesce` | memory_pool2/pageCache.cpp:64-98 | joining takes the neighbour out of its list, deletes its registration and moves its pages to the span |
| `PageCache.PageCache.Unlink` | memory_pool2/pageCache.cpp:71-90 | the search takes a span out of the list of its size exactly if it is free, and makes the bucket if it is missing |
| `PageCache.PageCache.FindAfterHead` | memory_pool2/pageCache.cpp:80-89 | the walk finds the predecessor of a span exactly if the span is in the list |
| `PageCache.PageCache.LowerBound` | memory_pool2/pageCache.cpp:9-10 | the smallest bucket of at least n pages |
| `PageCache.NullIsFollowedIff` | memory_pool2/pageCache.cpp:9-18 | some request would follow a null pointer exactly if a bucket holds no span |
| `PageCache.NullBucketArises` | memory_pool2/pageCache.cpp:68-103 | two live neighbours, freed in the wrong order, leave such a bucket |
| `PageCache.RegisteredIsOwned` | memory_pool2/pageCache.cpp:36-37 | registered addresses are granted pages, and live spans are registered |
| `PageCache.LiveAndFreeTile` | memory_pool2/pageCache.cpp:5-104 | a page is granted exactly if a live or a free span covers it, and never two of them |
| `PageCache.SplitTiled` | memory_pool2/pageCache.cpp:20-33 | splitting a span keeps the tiling of the pages |
| `PageCache.MergeTiled` | memory_pool2/pageCache.cpp:92-97 | joining two adjacent spans keeps the tiling of the pages |
| `PageCache.SplitParts` | memory_pool2/pageCache.cpp:20-37 | what a split does to the live and the free spans |
| `PageCache.MergeParts` | memory_pool2/pageCache.cpp:92-103 | what a join does to the live and the free spans |
| `PageCache.PushedIsKept` | memory_pool2/pageCache.cpp:100-103 | pushing a span keeps every bucket an acyclic list of spans of its own size |
| `PageCache.PoppedIsKept` | memory_pool2/pageCache.cpp:13-18 | so does popping the first span of a bucket |
| `PageCache.CutOutIsKept` | memory_pool2/pageCache.cpp:80-89 | so does taking a span out of the middle of its list |
| `PageCache.MergedIsRegistered` | memory_pool2/pageCache.cpp:93-97 | after a join no registered address leads to the deleted span |
| `PageCache.FreeIsApart` | memory_pool2/pageCache.cpp:10-40 | a free span shares no page with a live one, so that a handed out part of it does not either |
| `PoolOverPages.GrantIsFresh` | memory_pool2/centralCache.cpp:153-166 | a span without a common page with any live span has no common byte with any carved block |
| `PoolOverPages.PagesHoldBlocks` | memory_pool2/centralCache.cpp:153-166 | the pages asked for hold all the blocks that are carved from them, in every class |
| `PoolOverPages.PagesAreLeast` | memory_pool2/centralCache.cpp:153-166 | eight pages up to 32768 bytes, and above the least number of pages that holds the block |
| `PoolOverPages.FetchAdds` | memory_pool2/centralCache.cpp:37-92 | the blocks that a fetch adds lie in the span |
| `PoolOverPages.OnlyFetchCarves` | memory_pool2/threadcache.cpp:5-118 | no other step adds a block |
| `PoolOverPages.PoolOverPages.FetchFromPageCache` | memory_pool2/centralCache.cpp:153-166 | the page cache answers with fresh memory or none, and never meets an empty bucket, because the pool gives no span back |
| `PoolOverPages.PoolOverPages.FetchRange` | memory_pool2/centralCache.cpp:9-124 | a fetch with its page request keeps pool, page cache and the backing of every block by live spans; null only if the system has no memory |
| `PoolOverPages.PoolOverPages.AllocateLocal` | memory_pool2/threadcache.cpp:16-26 | so does an allocation from the local list, which hands out a block that was nobody's |
| `PoolOverPages.PoolOverPages.FinishFetch` | memory_pool2/threadcache.cpp:59-69 | so does the end of an allocation that fetched |
| `PoolOverPages.PoolOverPages.Deallocate` | memory_pool2/threadcache.cpp:30-48 | so does a free |
| `PoolOverPages.PoolOverPages.ReturnRange` | memory_pool2/centralCache.cpp:126-151 | so does the return of a chain |
| `TimeWheel.TimeWheel.AddConnection` | timer/TimeWheel.cpp:87-126 | a timer with timeout / interval ticks left is added; the wheel stays a map exactly if the descriptor had none |
| `TimeWheel.TimeWheel.RemoveConnection` | timer/TimeWheel.cpp:106-137 | the timer of the descriptor goes, if there is one |
| `TimeWheel.TimeWheel.UpdateConnection` | timer/TimeWheel.cpp:92-104 | only a descriptor that has a timer gets a new one, of 360 seconds |
| `TimeWheel.TimeWheel.Tick` | timer/TimeWheel.cpp:58-86 | timers without ticks left are taken out and returned if their connection exists; every other one has one tick less |
| `TimeWheel.Sweep` | timer/TimeWheel.cpp:63-78 | the loop over the current slot keeps and counts down the nodes with turns left and erases the others from list and index |
| `TimeWheel.NewNodeLeft` | timer/TimeWheel.cpp:112-114 | slot and rotation of a new node encode exactly its ticks |
| `TimeWheel.LeftStep` | timer/TimeWheel.cpp:66-78 | a tick lowers the measure of every node by exactly one |
| `TimeWheel.SweepKeepsIndex` | timer/TimeWheel.cpp:58-79 | after a tick the index still has the one node of each descriptor, in the list its slot names |
| `TimeWheel.FiresOnTimeOnce` | timer/TimeWheel.cpp:58-86 | a timer with d ticks left that nobody touches fires on the (d + 1)-th later tick and on no other |
| `TimeWheel.AddedFiresAfterTimeout` | timer/TimeWheel.cpp:110-126 | an added connection fires on tick timeout / interval + 1 and only then |
| `ServerTimers.StepKeepsInv` | reactor/tcpserver.cpp:46-92 | every step of every thread keeps table, wheel, pending tick and closes in agreement |
| `ServerTimers.TableAndWheelAgree` | reactor/tcpserver.cpp:46-92 | after any run every timer belongs to the connection in the table, every connection has a timer or is about to be closed, and both agree when nothing is under way |
| `ServerTimers.AddConditionAlwaysHolds` | reactor/tcpserver.cpp:170-175 | in every reachable state a new connection's descriptor has no timer |
| `ServerTimers.NeverRearmed` | timer/TimeWheel.cpp:92-104 | no step gives a timer to a connection that has none |
| `ServerTimers.NeverRearmedInRun` | reactor/tcpserver.cpp:176-179 | nor does any run: an update after the tick has unlinked the timer comes too late |
| `ServerTimers.RefreshRearms` | reactor/tcpserver.cpp:176-179 | an update gives a connection that has a timer its full time again, and changes no other timer |
| `ServerTimers.RefreshTooLate` | timer/TimeWheel.cpp:92-104 | an update of a connection without a timer changes nothing |
| `ServerTimers.NewIsArmed` | reactor/tcpserver.cpp:46-69 | a new connection is in the table with its full time, and all others are as before |
| `ServerTimers.RefreshedLasts` | timer/TimeWheel.cpp:92-104 | after an update, in any interleaving that leaves the connection alone, its time is less by the ticks of the run |
| `ServerTimers.NewLasts` | timer/TimeWheel.cpp:110-126 | from its start, a new connection that is left alone has its time less the ticks of the run |
| `ServerTimers.ClosedIsForgotten` | reactor/tcpserver.cpp:76-79 | after a close the connection is in no table and has no timer, and exists exactly if another handler holds it |
| `ServerTimers.CloseGoesThrough` | reactor/tcpserver.cpp:71-81 | a close that starts can be carried through, and takes exactly the timer and the entry of its connection |
| `ServerTimers.PendingIsTaken` | timer/TimeWheel.cpp:80-85 | a connection that a tick has unlinked is closed if it still exists, and otherwise dropped |
| `ServerTimers.TickTakesExpired` | timer/TimeWheel.cpp:58-79 | a tick takes out exactly the timers without ticks left, counts the others down, and has those connections pending that exist |
| `ServerTimers.IdleConnectionIsClosed` | timer/TimeWheel.cpp:58-86 | in any interleaving an idle connection with d ticks left keeps its timer for d ticks, and after one more it is about to be closed, being closed, or gone |
| `ServerTimers.StepCountsDown` | timer/TimeWheel.cpp:66-77 | only a tick changes the ticks left of a connection that nobody touches; the tick that takes its timer makes it pending |
| `ServerTimers.TwoClosersIff` | reactor/tcpserver.cpp:71-81 | two threads come to close one connection exactly when a close starts while another is under way |
| `ServerTimers.TwoClosersCanMeet` | timer/TimeWheel.cpp:80-85 | a run in which a handler closes what the tick is closing |
| `ServerTimers.TcpServer.NewConnection` | reactor/tcpserver.cpp:46-69 | adding to wheel and table is the step of the machine and keeps the wheel a map; the descriptor had no timer and has one of timeout / interval ticks |
| `ServerTimers.TcpServer.UpdateConnTimeoutTime` | reactor/tcpserver.cpp:176-179 | the update is the step of the machine: a descriptor with a timer gets one of 360 / interval ticks, and nothing else changes |
| `ServerTimers.TcpServer.CloseTimer` | reactor/tcpserver.cpp:71-74 | the first region of a close is the step of the machine |
| `ServerTimers.TcpServer.CloseEntry` | reactor/tcpserver.cpp:76-79 | the second region of a close is the step of the machine |
| `ServerTimers.TcpServer.Tick` | timer/TimeWheel.cpp:58-79 | the locked region of a tick is the step of the machine, and the connections it returns are those pending |
| `CivilDate.ClosedFormIsCalendar` | logger/user_format.cpp:23-33 | the closed form gives the date n days after 1 January 1970 by the leap-year calendar |
| `CivilDate.DatesAreDates` | logger/user_format.cpp:31-33 | the calendar's dates have months and days in range |
| `CivilDate.GetNow` | logger/user_format.cpp:9-33 | in 32-bit truncating arithmetic the fields are the civil time in UTC+8 exactly for times before 60 * 2^31 seconds |
| `CivilDate.DateParts` | logger/user_format.cpp:24-33 | no intermediate value overflows and the fields are those of the closed form |
| `CivilDate.MonthNumber` | logger/user_format.cpp:30-30 | the month counted from March, without overflow |
| `CivilDate.DayField` | logger/user_format.cpp:31-31 | the day of the month |
| `CivilDate.YearFields` | logger/user_format.cpp:32-33 | year and month, January and February in the next year |
| `CivilDate.ClockParts` | logger/user_format.cpp:19-23 | minute, hour and day number of a count of minutes |
| `Buffer.BufferBlock.Append` | reactor/Buffer.cpp:19-53 | the contents grow by the data; a block is added exactly if the last one has no room for all of it, of twice its capacity up to 64 KB or of the length of the data if that is more, and of 2048 bytes to an empty list |
| `Buffer.BufferBlock.ConsumeBytes` | reactor/Buffer.cpp:127-146 | the first min(n, length) bytes go |
| `Buffer.BufferBlock.Skip` | reactor/Buffer.cpp:130-143 | the loop moves over as many bytes as there are, and drops blocks that are read |
| `Buffer.BufferBlock.ReadBytes` | reactor/Buffer.cpp:148-171 | the first n bytes are copied out and go |
| `Buffer.BufferBlock.Erase` | reactor/Buffer.cpp:173-197 | a length in range goes from the front, any other is ignored |
| `Buffer.BufferBlock.PeekFromBlock` | reactor/Buffer.cpp:95-124 | the first n bytes, or nothing if there are fewer; the buffer stays |
| `Buffer.BufferBlock.BufferToString` | reactor/Buffer.cpp:221-226 | the whole contents |
| `Buffer.BufferBlock.GetIOVecs` | reactor/Buffer.cpp:200-219 | the vectors are the first maxCount unread parts of the blocks, or all of them, in order and without empty ones; so they spell a prefix of the contents |
| `Buffer.PartsAreContents` | reactor/Buffer.cpp:206-216 | the unread parts together are what can be read, and none is empty |
| `Buffer.BufferBlock.ReadableBytes` | reactor/Buffer.cpp:56-58 | the stored size is the length of the contents |
| `Buffer.BufferBlock.Clear` | reactor/Buffer.cpp:61-65 | nothing is left to read |
| `UrlCodec.UrlEncode` | http/httpresponse.cpp:3-18 | the loop produces the encoded text |
| `UrlCodec.UrlDecode` | http/httprequest.cpp:278-302 | the loop produces the decoded text, for malformed escapes too; what that text is the rows below say |
| `UrlCodec.RoundTrip` | http/httprequest.cpp:278-302 | decoding undoes encoding for every byte string |
| `UrlCodec.DecodeUndoesEncode` | http/httprequest.cpp:278-302 | also in front of any other text |
| `UrlCodec.EncodedIsEncoded` | http/httpresponse.cpp:8-16 | the encoded form has only unreserved characters and triples `%XX` with upper-case digits |
| `UrlCodec.UnreservedIsKept` | http/httpresponse.cpp:8-11 | a text of letters, digits and `-_.~` is encoded as itself |
| `UrlCodec.OthersAreEscaped` | http/httpresponse.cpp:12-16 | any other byte is `%` and the two upper-case digits of its value |
| `UrlCodec.EncodedInParts` | http/httpresponse.cpp:7-17 | a text is encoded part by part |
| `UrlCodec.EscapeIsDecoded` | http/httprequest.cpp:287-293 | `%` and two hexadecimal digits of either case stand for the byte of that value |
| `UrlCodec.PlainIsDecoded` | http/httprequest.cpp:285-298 | `+` is a space, and any other character but `%` is itself |
| `UrlCodec.OneDigitIsDecoded` | http/httprequest.cpp:287-293 | what `sscanf` lets through: one digit and something else, white space or a sign and a digit |
| `UrlCodec.NoEscapeIsKept` | http/httprequest.cpp:294-296 | any other two characters after `%`, and `0x`, leave the `%` as it is |
| `UrlCodec.LatePercentIsKept` | http/httprequest.cpp:287-298 | a `%` with fewer than two characters after it is kept |
| `UrlCodec.DecodeUndoesAny` | http/httprequest.cpp:278-302 | decoding undoes every encoding in which bytes are themselves or escapes with digits of either case, and spaces may be `+` |
| `UrlCodec.ParseFromUrlencoded` | http/httprequest.cpp:303-338 | the scan ends on every body and stores the fields with `=` between the `&` signs, later ones over earlier ones |
| `UrlCodec.FormRoundTrip` | http/httprequest.cpp:303-338 | the encoded form of any list of pairs decodes to exactly its last-wins map |
| `UrlCodec.AnyFormArrives` | http/httprequest.cpp:303-338 | so does a form in any other encoding |
| `UrlCodec.LastWinsIsLast` | http/httprequest.cpp:332-333 | the value kept for a key is that of its last field |
| `UrlCodec.FieldIsStored` | http/httprequest.cpp:312-333 | a field is split at its first `=` and both parts are decoded; key and value go into the map |
| `UrlCodec.FieldIsSkipped` | http/httprequest.cpp:317-322 | a field without `=` changes nothing |
| `HttpRequest.ReadLine` | http/httprequest.cpp:78-113 | the result depends on the flat contents only: the automaton's line and length, or 0 exactly if it never accepts |
| `HttpRequest.RunInParts` | http/httprequest.cpp:82-111 | the automaton may be run block by block |
| `HttpRequest.ReadsPrintedLine` | http/httprequest.cpp:92-109 | a line without carriage returns, ended by CR LF, is read back whatever follows |
| `HttpRequest.LoneCrIsDropped` | http/httprequest.cpp:94-107 | a carriage return that is not followed by a line feed is dropped, and the byte after it is kept |
| `HttpRequest.LineEndsInCrLf` | http/httprequest.cpp:101-103 | what is consumed with a line ends in CR LF |
| `HttpRequest.RequestLinePattern` | http/httprequest.cpp:170-182 | a line matches with given parts exactly if it is method, space, path, space, `HTTP/` and version, and the parts have no spaces |
| `HttpRequest.HeaderPattern` | http/httprequest.cpp:183-192 | a line matches as a header exactly if it is its printed form, with a proper name and a value on one line |
| `HttpRequest.HeaderText` | http/httprequest.cpp:184-187 | that form is name, colon, white space and value; names are letters, digits and hyphens, and a value is on one line and does not start with white space |
| `HttpRequest.HttpRequest.ParseLine` | http/httprequest.cpp:25-61 | one turn of the loop on any block layout is the turn on the flat bytes |
| `HttpRequest.HttpRequest.ParseBody` | http/httprequest.cpp:194-276 | the body is the line, and the request is finished; a form body is decoded, the content type and on the account pages the two fields are there afterwards, all other headers as before; whether the log line stays in its buffer |
| `HttpRequest.AccountFields` | http/httprequest.cpp:252-266 | no field of a form is changed; on `/login.html` and `/register.html` exactly `username` and `password` are added, empty, if missing |
| `HttpRequest.LogFitsIff` | http/httprequest.cpp:64-65 | the printed lines stay in 256 bytes exactly if the lengths say so |
| `HttpRequest.PlainBodyFitsIff` | http/httprequest.cpp:208-209 | a body without NUL stays in its buffer exactly up to 241 bytes |
| `HttpRequest.DecimalDigits` | http/httprequest.cpp:209-209 | a number has at most k digits exactly if it is below the k-th power of ten |
| `HttpRequest.CStringStops` | http/httprequest.cpp:65-65 | `%s` prints what comes before the first NUL |
| `HttpRequest.ContainsIff` | http/httprequest.cpp:198-198 | `find` succeeds exactly if the part occurs at some position |
| `HttpRequest.PathsAreCompleted` | http/httprequest.cpp:213-225 | `/` becomes `/welcome.html`, each of the six pages gets `.html`, and every other path stays |
| `HttpRequest.PathOfIsStable` | http/httprequest.cpp:213-225 | the path after `ParsePath_` is never a bare default page, and is not changed by a second time |
| `HttpRequest.HttpRequest.Parse` | http/httprequest.cpp:19-67 | the result, the fields and what is left in the buffer are those of the flat parse, or a log line overruns; a refused buffer is as before exactly if nothing was consumed, and otherwise its positions, size and blocks are given |
| `HttpRequest.ParsingUndoesPrinting` | http/httprequest.cpp:19-67 | parsing any printed request reads all of it and ends with the request it stands for exactly if both log lines have room, and overruns one otherwise |
| `HttpRequest.PartsArrive` | http/httprequest.cpp:19-67 | what that request is: the printed method, version and body, the path completed, the last value of every printed header with at most an empty `Content-Type` beside them, and no fields unless the body is a form or JSON; short texts always have room |
| `HttpRequest.PrintedText` | http/httprequest.cpp:171-184 | the text of a printed request, with its spaces, `HTTP/`, colons and line ends |
| `HttpRequest.BodyIsKept` | http/httprequest.cpp:194-211 | handling the body keeps all else but the fields and an empty `Content-Type` |
| `HttpRequest.OtherLineStartsBody` | http/httprequest.cpp:186-191 | a line among the headers that is none starts the body too; if nothing follows, the parse succeeds in the body state |
| `HttpRequest.LongBodyOverruns` | http/httprequest.cpp:208-209 | a plain body of 242 bytes overruns |
| `HttpRequest.ParseHeaders` | http/httprequest.cpp:45-53 | printed headers are read one after the other into the last-wins map |
| `HttpRequest.ParseBlankLine` | http/httprequest.cpp:46-65 | the empty line ends the request if nothing follows, and otherwise all that follows is the body; exactly if the log lines have room |
| `HttpRequest.LastWinsIsLast` | http/httprequest.cpp:186-187 | the value kept for a name is that of its last header |
| `HttpRequest.PostedFormArrives` | http/httprequest.cpp:247-273 | the fields of a form posted as `application/x-www-form-urlencoded` arrive as they were filled in, with the two account fields added on the account pages, unless a log line is too long |
| `HttpRequest.AnyPostedFormArrives` | http/httprequest.cpp:247-338 | so does a form in any encoding, with `+` for spaces and digits of either case |
| `HttpRequest.RefusedIntactIff` | http/httprequest.cpp:32-42 | refused input has not been consumed exactly if its first line is incomplete or does not match |
| `HttpRequest.CutAfterRequestLine` | http/httprequest.cpp:32-45 | a request cut between its request line and the end of its first header is refused with the request line consumed |
| `Connection.Connection.WriteCallback` | reactor/Connection.cpp:73-117 | the kernel is offered the first 16 parts of the output; exactly what it takes moves from buffered to sent; the connection is closed exactly when all is written and it is not to be kept, or on an error that is not a full socket; when the write interest goes off |
| `Connection.Connection.Writev` | reactor/Connection.cpp:90-90 | the kernel takes a prefix of the vectors, or fails |
| `Connection.Connection.OnMessage` | reactor/Connection.cpp:119-171 | the bytes read go to the end of the input, a reply is appended and sent exactly if the input parses, and what the input holds then |
| `Connection.Connection.SendInLoop` | reactor/Connection.cpp:67-72 | `send` on the loop thread is the step of the machine |
| `Connection.Connection.CloseChannel` | reactor/Connection.cpp:30-47 | so is a close by the peer, an error or the timer |
| `Connection.Connection.AppendReply` | reactor/Connection.cpp:146-149 | so is the appending of a reply |
| `Connection.Connection.Receive` | reactor/Connection.cpp:121-125 | every chunk read is appended in order |
| `Connection.SentThenBufferedIsAppended` | reactor/Connection.cpp:73-117 | over any run, bytes sent then bytes buffered are all bytes ever appended, in order |
| `Connection.InterestStaysOn` | reactor/Connection.cpp:67-98 | over any run, with closes at any moment, an open connection with output has write interest once `send` has run, and a closed one has none |
| `Connection.ExitsIff` | reactor/Epoll.cpp:19-37 | a step ends the process exactly if it operates on the channel of a closed connection |
| `Connection.ClosedForGood` | reactor/Channel.cpp:38-41 | a `send` or a second close at any time after a close does |
| `Connection.WritesDrain` | reactor/Connection.cpp:92-104 | callbacks that write something end, and then everything is sent and the interest is off |
| `Connection.WriteOnOpen` | reactor/Connection.cpp:85-115 | a write by what it takes: all and the connection is kept exactly if it is to be kept alive, a part and it stays open with the rest, a full socket and nothing changes, an error and it is closed with nothing sent |
| `Connection.OthersOnOpen` | reactor/Connection.cpp:30-72 | what appending, `send` and a close do to an open connection |
| `Connection.ReplyIsSent` | reactor/Connection.cpp:73-104 | a reply appended, sent and written whole: all is sent, and the connection is open exactly if it is to be kept alive |
| `HeapTimer.HeapTimer.SiftUp` | timer/heaptimer.cpp:3-12 | restores the heap if only the order with the parent is broken, and keeps index and timers; it comes to the root, past which the program would read, exactly if the first timer is not strictly earlier |
| `HeapTimer.HeapTimer.SiftDown` | timer/heaptimer.cpp:22-35 | restores the heap if it moves the node, and otherwise leaves only the order with the parent open |
| `HeapTimer.HeapTimer.SwapNode` | timer/heaptimer.cpp:14-20 | the index stays the exact inverse of the placement |
| `HeapTimer.HeapTimer.Add` | timer/heaptimer.cpp:37-56 | the id has the new expiry and callback, all other timers are as before, in a heap with an exact index; a new timer comes to the root exactly if no timer is strictly earlier |
| `HeapTimer.HeapTimer.DoWork` | timer/heaptimer.cpp:58-67 | the timer of a known id fires once and goes |
| `HeapTimer.HeapTimer.Delete` | timer/heaptimer.cpp:69-85 | exactly the timer at the position goes |
| `HeapTimer.HeapTimer.Adjust` | timer/heaptimer.cpp:87-92 | the expiry changes; the heap survives exactly if it is not before the parent's |
| `HeapTimer.HeapTimer.Pop` | timer/heaptimer.cpp:109-112 | the first timer goes |
| `HeapTimer.HeapTimer.Tick` | timer/heaptimer.cpp:94-107 | every timer with less than 1 000 000 ns left fires once, in the order of expiry, no other fires, and the others stay |
| `HeapTimer.SwapUp` | timer/heaptimer.cpp:6-11 | a swap with the parent moves the one open place up |
| `HeapTimer.SwapDown` | timer/heaptimer.cpp:27-33 | a swap with the smaller child moves it down, equal keys included |
| `HeapTimer.RootIsFirst` | timer/heaptimer.cpp:99-103 | no timer expires before the root |
| `HeapTimer.AllFired` | timer/heaptimer.cpp:99-103 | when the root is not due, nothing is |
| `EventLoop.NothingIsLost` | reactor/Eventloop.cpp:76-104 | in every interleaving tasks run then tasks queued are those pushed, in order, and a queued task has a wake-up under way |
| `EventLoop.StepKeepsInv` | reactor/Eventloop.cpp:76-104 | every step keeps both, also when the counter is full |
| `EventLoop.QuietMeansDone` | reactor/Eventloop.cpp:76-104 | when no wake-up is under way, every task has run |
| `EventLoop.RoundRunsAll` | reactor/Eventloop.cpp:91-104 | a read and the drain after it run everything pushed before the drain |
| `EventLoop.RoundEndsQuiet` | reactor/Eventloop.cpp:91-104 | a read and a drain with nothing in between leave the counter at 0 and the queue empty, and nothing pending if no thread is about to wake the loop |
| `EventLoop.CounterCountsWrites` | reactor/Eventloop.cpp:86-89 | between two reads the counter is the number of writes, up to 2^64 - 2 |
| `EventLoop.EventLoop.PushTask` | reactor/Eventloop.cpp:76-80 | the push is the step of the machine |
| `EventLoop.EventLoop.Wakeup` | reactor/Eventloop.cpp:86-89 | the write is the step of the machine: one more, up to 2^64 - 2 |
| `EventLoop.EventLoop.ReadCounter` | reactor/Eventloop.cpp:94-95 | the read is the step of the machine, and leaves 0 |
| `EventLoop.EventLoop.RunTasks` | reactor/Eventloop.cpp:96-102 | the loop runs all queued tasks in order |
| `SqlConnPool.PoolKeepsItsConnections` | mysql/sqlconnpool.cpp:32-51 | in every interleaving the queue is never popped empty, its length is accounted for, and queued and held connections are the initial ones |
| `SqlConnPool.NoConnectionIsShared` | mysql/sqlconnpool.cpp:32-51 | distinct connections are never queued or held twice |
| `SqlConnPool.FirstInFirstOut` | mysql/sqlconnpool.cpp:32-51 | in every run connections are handed out in the order in which they came into the queue |
| `SqlConnPool.LookAndWait` | mysql/sqlconnpool.cpp:34-38 | the check sends a thread to the semaphore exactly if the queue is not empty, and the wait takes one from it and can be taken exactly if it is positive |
| `SqlConnPool.NeverPopsEmpty` | mysql/sqlconnpool.cpp:38-43 | a thread past the semaphore finds a connection when it has the mutex |
| `SqlConnPool.StepKeepsInv` | mysql/sqlconnpool.cpp:32-51 | every step keeps the count |
| `SqlConnPool.StepKeepsAll` | mysql/sqlconnpool.cpp:32-51 | every step keeps the connections |
| `SqlConnPool.SqlConnPool.constructor` | mysql/sqlconnpool.cpp:10-30 | the queue holds what the connects gave, and the semaphore counts it |
| `SqlConnPool.SqlConnPool.LookForConn` | mysql/sqlconnpool.cpp:34-37 | the check without the mutex sends a thread away exactly if the queue is empty |
| `SqlConnPool.SqlConnPool.PopConn` | mysql/sqlconnpool.cpp:39-44 | the front of a queue that is not empty is handed out |
| `SqlConnPool.SqlConnPool.FreeConn` | mysql/sqlconnpool.cpp:46-51 | the connection goes to the back and the semaphore up by one |

## Left out

- Sockets, epoll, `mmap`, `stat`, file serving, MySQL queries and JSON are foreign calls. The results of `writev`, `read` and the system's page grants are parameters.
- The C++ memory order: a region under a lock is one atomic step.
- The pool above 256 KB, which is `malloc` (also for a larger buffer block that is freed with a smaller used size), and the exact counters and the loss of blocks in classes above 32 KB, where a span is not carved and the counter wraps. Safety and ownership cover all classes.
- A block freed twice, or with a size of a larger class than it was handed out for: the callers' duty.
- In `PoolMachine` fresh spans are a condition of the fetch; `PoolOverPages` discharges it with the page cache, for the pool's methods as atomic regions.
- PageCache.PageCache.AllocateSpan: requires at least one page, as both of its calls ask for.
- PageCache.PageCache.DeallocateSpan: requires that a registered address is that of a live span, given with its own number of pages; the server never calls it.
- `new Span` is a fresh number, the fields of a span are maps over such numbers, and the list nodes of the wheel have numbers for their iterators; no two of them alias.
- Negative timeouts and the overflow of timeouts and tick counts of the wheel.
- `newconnection` is one step: the moment between the constructor enabling reads and the callbacks being set is not modelled.
- `GetNextTick` and `clear` of the heap timer; a timer callback that enters the heap again, and a clock that moves during one `tick` of the heap.
- A task that queues a task from inside `handlewakeup`: the mutex is held there, so it would block for ever.
- Times before 1970, and the text that `put_time` makes of the fields. `logger/xlog_format.cpp` has the same arithmetic a second time.
- `std::regex` is modelled by what its two patterns match; sizes over 2^31 - 1 that an `int` cannot count are not modelled.
- What `ParseBody_` does with a login, a registration or a download body beyond storing it: these are the database and the JSON library. The response header, `IsKeepAlive` (a parameter of the write callback) and the static pages are left out.
- Connection.Connection.OnMessage: requires that the positions and the size of the input buffer fit together, which is not so after a refused request of which a line was consumed.
- What the program does after a log line has overrun its array, a null bucket was followed or the process has ended. The other fixed log arrays are not modelled: those of the account database, of the response's file name and of error texts.
- A handler is taken to hold a strong reference to its connection from its start; the channel binds a raw pointer (`reactor/Connection.cpp:7-10`), and the reference is there only from the first `shared_from_this`. In `ServerTimers` a run goes on after two closes have met; what the second one then does to the process is in `Connection`.
- `ThreadPool`, the logger's queues, configuration parsing, template replacement and `timer/timer.h` would only add easy members or are not used.
