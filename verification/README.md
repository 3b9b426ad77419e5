# Models of a messenger relay, a hash table, an allocator, a codec and a histogram builder

This project models five parts of the repository and proves what they promise. Each part is a
group of modules; `dafny verify dfyconfig.toml` checks all of them.

**The relay server of the MGen messenger simulator.** Connection tasks take three levels of
read/write locks (the table of writers, the table of groups, one table per group); the reader tasks
they spawn wait for the end of the registration phase and then copy their group's table.
`HandshakeModel` is a state machine over any number of tasks and groups, one program point per step,
with fair queued locks and with the write lock on the writer table (mgen-server.rs:324-327) that the
informal deadlock argument in the source leaves out. `HandshakeSafety` proves the invariants,
`HandshakeLiveness` a four-level rank, `HandshakeRuns` the theorems over finite runs and fair
infinite behaviours, `HandshakeTables` when the tables stop changing, `HandshakeCopies` which readers
are woken and exactly when one can get a wrong copy. `Updater` is the "latest value
only" channel. `Wire` is the length-prefixed message format, `WireLayout` says where each of its bytes
stands and what the parser makes of all others, `WireWriter` is the partial-write loop,
`Routing` the fan-out to recipients' channels, and `Delivery` the loop that retries a cached message
across sockets; it is built on the same socket and the same write loop as `WireWriter`. `Relay` puts
the three together: what the members write against what one recipient reads.

**Tor's chaining hash table (ht.h).** `HashChains` describes buckets and link fields in memory as
sequences of elements, `HashRehash` holds both rehash algorithms, `HashTable` the class with the
table's operations, refining a finite map, and `HashTraversal` the iteration.

**OpenBSD malloc.** `FreeList` is the sorted, coalescing, bounded list of free page runs;
`PageAllocator` the page level; `PageDirectory` the search through the linked page directories;
`ChunkAllocator` the small objects; `SmallObjects` the two levels together.

**Tor's certificate and cell codecs.** `CodecLaws` says what it means for an encoder and a parser
to fit and proves it closed under sequencing and counted repetition; `CertFormats` gives each format
as such a composition, and `CertLayout` says where each field stands; `CertEncoder` and `CertParser` are the imperative encoders (cursor, room
checks, back-patched lengths) and parsers, proved against the formats.

**The conversation histogram builder.** `Histogram` folds a user's messages into runs of exact
counters; `HistogramRuns` is the builder with its sixteen-bit counters, the file layout and the
reader's assertions.

## Where code and comments disagree

- mgen-server.rs:201-203 says that readers take their read lock only after all threads with write
  locks have ended. A task accepted before the end of the phase may still be registering when the
  readers are woken: `HandshakeTables.CopyCanMissMember` is a reachable state with a reader whose copy
  lacks a member of its group. `HandshakeCopies.CopiesDifferIff` says exactly when that can happen: at the
  end of the phase a reader is waiting while a registration for its group has not yet asked for the
  group's lock, and no other registration of the same client is ahead of it on the way into the
  writer table. A registration that has asked is served before any reader, so merely being in flight
  does no harm (`HandshakeCopies.AskedIsServedFirst` is a reachable instance).
- A reader that is not yet waiting at the end of the phase is never woken
  (`HandshakeCopies.WokenWereParked`), so no connection accepted afterwards has its messages routed
  (`HandshakeCopies.LateConnectionIsNotRouted`, and `HandshakeCopies.AliceIsNotRouted` as an instance).
- OpenBSD_malloc_Linux.c:311-320 means to start from the nearer of two cached directories. By operator
  precedence it always takes `last_dir` (`PageDirectory.AlwaysPicksLast`); the result is right all the same.
- ht.h:451-455 guards its loop over the primes in a way that reads past the table of primes. A growth
  returns before the loop if the table is at the largest prime already or its load limit exceeds the
  size; otherwise it reads past if and only if the size is 241591913 or more
  (`HashTable.PrimeIndexInRangeIff`). `HashTable.Table.Grow` requires exactly the other cases.
- OpenBSD_malloc_Linux.c:1583-1585 says that one page is always left after trimming. None is left if
  and only if the list filled the cache before and the freed run touches no entry
  (`FreeList.Release`; `FreeList.FreedPageIsLost` is an instance). And when a freed run joins two
  entries, the second one still counts towards the cache size, so more is unmapped than needed:
  `FreeList.Release` states the exact amount.
- OpenBSD_malloc_Linux.c:1759-1764 says it inserts a page in address order; the scan looks one page too
  far, and order is kept exactly when the page goes in front (`ChunkAllocator.AddressOrderIff`).
- The histogram's counters have sixteen bits and wrap in a release build. They are exact if and only if
  no minute holds 65536 messages (`HistogramRuns.CountersExactIff`). The reader accepts a run if and only if
  among its last 61 minutes one has a number of messages that is no multiple of 65536
  (`HistogramRuns.RunPassesIff`); on 65536 messages at one moment it fails (`HistogramRuns.Overflow`).

## Model

| member | source | states |
|---|---|---|
| `HandshakeSafety.ReachableIsSafe` | Shadow/mgen/src/bin/mgen-server.rs:217-335 | in every reachable state each queue holds exactly the tasks that wait for its lock, no exclusive hold meets another hold, every writer-table entry has its group and its channel, and no task has hit the unchecked index |
| `HandshakeSafety.NextKeepsSafe` | Shadow/mgen/src/bin/mgen-server.rs:217-335 | every arrival, step, cancellation and end of phase keeps all of that |
| `HandshakeSafety.StepKeepsRegistered` | Shadow/mgen/src/bin/mgen-server.rs:246-333 | the registration invariant: a (sender, group) in the writer table has its group in the group table and its sender in that group's table |
| `HandshakeRuns.NoDeadlock` | Shadow/mgen/src/bin/mgen-server.rs:172-215 | in every reachable state with a task that has not come to rest, some task can step |
| `HandshakeRuns.WorkIsBounded` | Shadow/mgen/src/bin/mgen-server.rs:217-335 | a run takes at most 30 steps per connection accepted |
| `HandshakeRuns.EveryTaskRests` | Shadow/mgen/src/bin/mgen-server.rs:217-335 | no starvation: in every fair infinite behaviour, whatever else arrives, each task comes to rest |
| `HandshakeRuns.EveryHandshakeEnds` | Shadow/mgen/src/bin/mgen-server.rs:217-335 | in every fair behaviour each accepted connection's locking section ends, and never at the unchecked index |
| `HandshakeLiveness.SomeTaskHelps` | Shadow/mgen/src/bin/mgen-server.rs:172-215 | an unfinished task is kept by a chain of locks at whose end some task can step |
| `HandshakeLiveness.DelayNext` | Shadow/mgen/src/bin/mgen-server.rs:217-335 | holders' remaining work plus queue position of a waiter never grows, and falls whenever the lock is served |
| `HandshakeLiveness.RankNext` | Shadow/mgen/src/bin/mgen-server.rs:217-335 | no action raises a task's lexicographic rank, and serving a lock that keeps it lowers it |
| `HandshakeLiveness.HelperStays` | Shadow/mgen/src/bin/mgen-server.rs:217-335 | a task that helps another goes on doing so until its own step |
| `HandshakeTables.TablesAreFinal` | Shadow/mgen/src/bin/mgen-server.rs:369-383 | once the phase is over and registrations have drained, the group tables never change and all later copies of one are equal |
| `HandshakeTables.CopyCanMissMember` | Shadow/mgen/src/bin/mgen-server.rs:200-204 | a reachable state in which a reader's copy lacks a member that its group's table holds |
| `HandshakeCopies.CopiesDifferIff` | Shadow/mgen/src/bin/mgen-server.rs:369-383 | some run after the phase ends gives a reader a copy that is not its group's table if and only if at that moment a reader waits and a registration for its group, of a client not registered or one that looked itself up in vain, has not asked for the group's lock and is not overtaken: it is past its own wait for the writer table, or no other registration of its client has that table's write lock or is ahead in its queue |
| `HandshakeCopies.CopiesAgree` | Shadow/mgen/src/bin/mgen-server.rs:369-383 | without such a pair, in every run every copy made is its group's table for good, whatever else is in flight |
| `HandshakeCopies.RaceGoesWrong` | Shadow/mgen/src/bin/mgen-server.rs:272-333 | with such a pair, and any other registrations in flight, a run exists in which the reader copies first and the registration then inserts |
| `HandshakeCopies.AskedIsServedFirst` | Shadow/mgen/src/bin/mgen-server.rs:282-296 | a reachable state with a waiting reader and a registration of its group in flight from which no wrong copy can come, because the registration already queues for the lock |
| `HandshakeCopies.WokenWereParked` | Shadow/mgen/src/bin/mgen-server.rs:377-377 | in any run a reader gets past its wait only if it was waiting when the phase ended |
| `HandshakeCopies.EveryParkedReaderRoutes` | Shadow/mgen/src/bin/mgen-server.rs:377-383 | in every fair behaviour each reader that was waiting then gets its copy and routes, unless it is cancelled |
| `HandshakeCopies.LateConnectionIsNotRouted` | Shadow/mgen/src/bin/mgen-server.rs:377-377 | no connection accepted after the end of the phase is ever routed |
| `HandshakeCopies.AliceIsNotRouted` | Shadow/mgen/src/bin/mgen-server.rs:246-266 | a reachable instance: a client that reconnects after the phase gets a reader that waits in every run |
| `HandshakeTables.LateReaderStaysParked` | Shadow/mgen/src/bin/mgen-server.rs:377-377 | a reader waiting after the broadcast stays there, or is cancelled, in every run |
| `HandshakeTables.RunKeepsLate` | Shadow/mgen/src/bin/mgen-server.rs:246-275 | a task accepted after the phase never enters the registration branch |
| `Updater.ReachableKeeps` | Shadow/mgen/src/updater.rs:14-42 | over all interleavings of sends, receives, cancelled receives and maybe_recv on any clones, a pending value has a stored or in-flight notification |
| `Updater.ReceivesLatest` | Shadow/mgen/src/updater.rs:22-42 | a receive gets the value sent last, which nobody had before; nothing else receives |
| `Updater.TakesIff` | Shadow/mgen/src/updater.rs:22-42 | in every reachable state a look or a maybe_recv receives if and only if the value sent last has not been received; it then gets that value and leaves the slot empty, and otherwise changes nothing but the one who looked |
| `Updater.LooksPerSend` | Shadow/mgen/src/updater.rs:14-38 | a waiting receiver does not spin: over any run there are at most as many looks at the slot as values sent |
| `Updater.CanDeliver` | Shadow/mgen/src/updater.rs:22-38 | with a pending value and a receiver waiting, three steps without a send deliver it |
| `Updater.CancelledPassesOn` | Shadow/mgen/src/updater.rs:14-38 | an instance: of two waiting receivers the first is woken and cancelled before it has run, and the second gets the value |
| `Updater.PendingIsSettled` | Shadow/mgen/src/updater.rs:14-42 | in every fair behaviour, a pending value is received, or replaced by a later one, if one receiver that waits or is on its way is never cancelled, whatever becomes of the others |
| `Updater.NextKeeps` | Shadow/mgen/src/updater.rs:14-42 | every step keeps the no-lost-wakeup and latest-only invariants, receives being an increasing subsequence of sends |
| `Wire.DeserializeSerialize` | Shadow/mgen/src/lib.rs:119-178 | parsing a serialized header, whose bytes `WireLayout.HeaderLayout` gives, gives the header back and leaves nothing |
| `WireLayout.HeaderLayout` | Shadow/mgen/src/lib.rs:119-152 | a serialized header field by field: its own length, sender and group each behind its length, number, and size or 0 for a receipt, every number in four bytes, most significant first |
| `WireLayout.FrameLayout` | Shadow/mgen/src/lib.rs:77-92 | behind the header, zeros: 160 for a receipt, else as many as the body has, at most 2240 except among peers |
| `WireLayout.AcceptedLayout` | Shadow/mgen/src/lib.rs:154-178 | what the parser accepts, for any bytes: two strings behind their lengths, a number and a size, at these places; what follows is left |
| `WireLayout.Refusals` | Shadow/mgen/src/lib.rs:277-292 | which error it gives: a UTF-8 error if and only if the first string, or after a good first one the second, is all there and not UTF-8; else malformed |
| `WireLayout.StreamOutcome` | Shadow/mgen/src/lib.rs:230-263 | for any stream: the header by its length field and the rest behind the body; or an input error exactly for want of bytes, a panic exactly for a length below four, or the parser's error |
| `WireLayout.Utf8Iff` | Shadow/mgen/src/lib.rs:284-290 | the strings accepted are exactly the encodings of sequences of code points that are no surrogates |
| `Bytes.ToBeDigit` | Shadow/mgen/src/lib.rs:119-152 | byte i of a big-endian number is its digit to the base 256, most significant first |
| `Bytes.FromBeFirst` | Shadow/mgen/src/lib.rs:277-282 | a big-endian number is the sum of its bytes, each weighted by 256 to the power of the number of bytes behind it |
| `Wire.GetSerialized` | Shadow/mgen/src/lib.rs:230-263 | a stream with a message's whole header yields its very bytes and the message, and skips what there is of its body |
| `Wire.GetCut` | Shadow/mgen/src/lib.rs:230-263 | a stream cut inside a header is an input error |
| `Wire.CutStream` | Shadow/mgen/src/lib.rs:77-263 | in both modes, a stream of messages cut at any byte reads back as exactly those whose whole header lies before the cut, then an error |
| `WireWriter.WriteAllTo` | Shadow/mgen/src/lib.rs:306-341 | under any schedule of partial, interrupted and failing writes the socket accepts a front part of header and body, all of it exactly on success, and fails only on an answer that must end the call; outcome, bytes accepted and answers used up are those of the declarative `Feed` |
| `WireWriter.FeedLeaves` | Shadow/mgen/src/lib.rs:306-341 | a write uses up a front part of the answers, and if it fails, the last of them is one that must end it |
| `WireWriter.FeedComes` | Shadow/mgen/src/lib.rs:306-341 | in closed form: a write is done with the answer that takes the last byte if none before is an error, takes nothing, or interrupts after the header is out; it fails on the first such answer with what those before took; else it waits |
| `WireWriter.WriteList` | Shadow/mgen/src/lib.rs:306-341 | messages written in turn put a front part of their stream on the socket, exactly as much as the answers allow, and all of it exactly on success |
| `WireWriter.WriteThenRead` | Shadow/mgen/src/lib.rs:230-341 | written under any schedule, cut anywhere, then read: what the socket accepts is what its answers allow, all of the stream exactly on success; what arrives is that up to the cut; and exactly the messages whose header arrived are read, in order, then an input error |
| `Delivery.SendMessages` | Shadow/mgen/src/bin/mgen-server.rs:419-453 | for any write and flush failures and socket replacements, completed, cached and queued messages together are those enqueued in order; each socket carries on with the message the one before it stopped at, and is used for exactly what its answers and flushes allow (`Serve`): all but the last were given up for a write or flush that failed, and the last ended as the task's wait says; the task waits for a message only when all are complete |
| `Delivery.BrokeMeans` | Shadow/mgen/src/bin/mgen-server.rs:433-447 | a socket is given up only for an answer that ends a write, or a flush that fails |
| `Delivery.CompletedByFlush` | Shadow/mgen/src/bin/mgen-server.rs:433-451 | a message counts as completed only by a flush that succeeds; a socket that took all of a message and is still given up failed to flush it |
| `Delivery.RecipientSees` | Shadow/mgen/src/bin/mgen-server.rs:419-453 | one socket's bytes, cut anywhere, read back as consecutive messages from where it took over, at most one of them not completed there |
| `Delivery.AtMostOneRepeatPerSocket` | Shadow/mgen/src/bin/mgen-server.rs:427-452 | the recipient reads at least every completed message and at most one too many per socket |
| `Delivery.CompletedIsReadable` | Shadow/mgen/src/bin/mgen-server.rs:427-452 | no gap: every completed message is read, in its turn, from some socket |
| `Routing.NextKeeps` | Shadow/mgen/src/bin/mgen-server.rs:386-414 | each read and each single channel send keeps what a connection has sent plus what is due equal to what it owes, on every channel |
| `Routing.PerConnectionFifo` | Shadow/mgen/src/bin/mgen-server.rs:386-414 | however connections interleave, a connection with no send outstanding has put on each channel exactly what it owes, in order |
| `Routing.SizesReachEveryOther` | Shadow/mgen/src/bin/mgen-server.rs:391-399 | another member's channel is owed every message with a body once and in order |
| `Routing.NoneComesBack` | Shadow/mgen/src/bin/mgen-server.rs:380-383 | the sender's own channel, and other groups' channels, are owed none of them |
| `Routing.ReceiptsReachTheirName` | Shadow/mgen/src/bin/mgen-server.rs:400-412 | a channel is owed exactly the receipts that name its member |
| `Routing.NeverStuck` | Shadow/mgen/src/bin/mgen-server.rs:396-411 | no lookup or send of an accepted message can fail |
| `Routing.PanicsIff` | Shadow/mgen/src/bin/mgen-server.rs:386-412 | a reader panics exactly on a message in another's name, or for another group or an unknown member |
| `Routing.EveryoneSpeaksForThemselves` | Shadow/mgen/src/bin/mgen-server.rs:386-414 | over every interleaving, whatever is in a channel was sent by the client of the connection it came from, in its own name, to this group, or is a receipt that names this member |
| `Routing.ByteTransparent` | Shadow/mgen/src/bin/mgen-server.rs:386-414 | a connection on which acceptable messages were written never panics, emits for each the very frame written, and stops having read every message whose header arrived |
| `Relay.WrittenIsRead` | Shadow/mgen/src/bin/mgen-server.rs:386-453 | for any interleaving of connections and any sockets: of the messages that arrived on a connection for this recipient, those completed are read over its sockets in the order written, each at least once; when nothing is left to send they are all of them; and a connection that has stopped has read every message whose header arrived |
| `Relay.ReadWasWritten` | Shadow/mgen/src/bin/mgen-server.rs:386-453 | every message the recipient reads was written for it on some connection |
| `Relay.SendChannel` | Shadow/mgen/src/bin/mgen-server.rs:419-453 | the sending loop, run on what the connections have put in the recipient's channel, has that effect for every connection |
| `Relay.ChannelCarries` | Shadow/mgen/src/bin/mgen-server.rs:386-414 | every entry of a channel is the serialized form of a message, so that what is sent for it is that message's frame |
| `Relay.CompletedAreRead` | Shadow/mgen/src/bin/mgen-server.rs:419-453 | over all sockets together: the completed messages in order, possibly with repeats, and none that was not enqueued |
| `HashRehash.RehashInPlace` | Shadow/tor/src/ext/ht.h:475-495 | the in-place rehash ends with exactly the old elements, each once, in bucket hash modulo the new length |
| `HashRehash.RehashFresh` | Shadow/tor/src/ext/ht.h:457-474 | so does the rehash into a fresh table |
| `HashRehash.RehashesAgree` | Shadow/tor/src/ext/ht.h:441-500 | any two tables with the same elements, each at home, have the same elements in every bucket, as often |
| `HashTable.PrimeIndexInRangeIff` | Shadow/tor/src/ext/ht.h:441-456 | the growth loop stays within the primes if and only if the size is below 241591913 |
| `HashTable.PickPrime` | Shadow/tor/src/ext/ht.h:450-455 | it picks the first later prime whose load limit exceeds the size |
| `HashTable.Table.FindP` | Shadow/tor/src/ext/ht.h:253-266 | the link returned leads to the element with the key, or to the end of the only bucket it could be in |
| `HashTable.Table.Find` | Shadow/tor/src/ext/ht.h:269-277 | map lookup; the table stands for the same map |
| `HashTable.Table.Insert` | Shadow/tor/src/ext/ht.h:280-291 | map insertion; with memory, the table is replaced if and only if there is none or one below the largest prime has reached its load limit, by the least later prime whose limit exceeds the new number of elements; otherwise the element goes to the front of its own bucket and nothing else changes |
| `HashTable.Table.Replace` | Shadow/tor/src/ext/ht.h:295-314 | map update; returns the element replaced, unlinked, or null; grows as insertion does; without growth the element takes the other's place, or goes to the end of its bucket |
| `HashTable.Table.Remove` | Shadow/tor/src/ext/ht.h:317-330 | map removal; returns the element removed, unlinked, or null; every other element keeps its place |
| `HashTable.Table.Grow` | Shadow/tor/src/ext/ht.h:441-500 | same elements whichever way memory is had; -1 exactly when there is none and growth is due, and then nothing changed; nothing changes either at the largest prime or if the load limit exceeds the size; otherwise the new length is the least later prime whose limit does |
| `HashTable.Table.Clear` | Shadow/tor/src/ext/ht.h:503-510 | the empty map, with no table |
| `HashTable.Table.RepIsBad` | Shadow/tor/src/ext/ht.h:513-546 | returns 0 if and only if the representation meets each of its conditions, otherwise the code of the first one it fails: for a bad element, of the first bad one of the first bad bucket |
| `HashTable.Table.CheckerAccepts` | Shadow/tor/src/ext/ht.h:513-546 | a table in a state the operations leave passes exactly when its count is within the load limit, which can be exceeded only at the largest prime |
| `HashTable.Table.CheckerSuffices` | Shadow/tor/src/ext/ht.h:513-546 | a passing representation with distinct keys is valid |
| `HashTable.TotalIsCount` | Shadow/tor/src/ext/ht.h:513-546 | counting along the chains counts the elements |
| `HashTraversal.Start` | Shadow/tor/src/ext/ht.h:361-374 | the position before all elements in order |
| `HashTraversal.Next` | Shadow/tor/src/ext/ht.h:381-400 | the position before all elements but the current and earlier ones |
| `HashTraversal.NextRmv` | Shadow/tor/src/ext/ht.h:403-420 | the same, with the current element unlinked and the count lowered |
| `HashTraversal.Traverse` | Shadow/tor/src/ext/ht.h:361-420 | START and any mix of NEXT and NEXT_RMV visit every initial element once, in order, and remove exactly the chosen ones |
| `HashTraversal.ForeachFn` | Shadow/tor/src/ext/ht.h:335-357 | the callback is called once per initial element, in order, and exactly those it asks for are removed |
| `HashTraversal.FlatOnce` | Shadow/tor/src/ext/ht.h:361-420 | the iteration order has each element of the table exactly once |
| `FreeList.InsertSorted` | Shadow/tor/src/ext/OpenBSD_malloc_Linux.c:1500-1573 | inserting a disjoint run keeps the list sorted, disjoint and without adjacent entries |
| `FreeList.InsertCovers` | Shadow/tor/src/ext/OpenBSD_malloc_Linux.c:1500-1573 | the list then covers exactly the old pages and the run |
| `FreeList.InsertTotal` | Shadow/tor/src/ext/OpenBSD_malloc_Linux.c:1500-1573 | sizes add up |
| `FreeList.Place` | Shadow/tor/src/ext/OpenBSD_malloc_Linux.c:1500-1573 | the code's search and coalescing compute that insertion, never reach "freelist is destroyed", and leave a cache size from which the entry's size can be subtracted |
| `FreeList.Trim` | Shadow/tor/src/ext/OpenBSD_malloc_Linux.c:1580-1711 | what is cut off the entry, exactly; the rest stays sorted and within the cache, so no subtraction wraps |
| `FreeList.Release` | Shadow/tor/src/ext/OpenBSD_malloc_Linux.c:1500-1711 | freeing a run: sorted, within the cache, covering exactly old pages and run minus what is unmapped, whose amount is given exactly; it comes off the end of the entry the run is in, and takes all of it if and only if the list filled the cache and the run touches no entry |
| `FreeList.FreedPageIsLost` | Shadow/tor/src/ext/OpenBSD_malloc_Linux.c:1580-1594 | an instance: with one page of cache taken by another entry, a freed page is unmapped at once |
| `PageAllocator.Pages.MallocPages` | Shadow/tor/src/ext/OpenBSD_malloc_Linux.c:848-1029 | first fit: the first entry large enough serves the request, else the system; the partition of all pages into live runs and free entries is kept, and the bytes in use grow by the run |
| `PageAllocator.Pages.FreePages` | Shadow/tor/src/ext/OpenBSD_malloc_Linux.c:1417-1715 | a pointer to a run's first page releases exactly the pages its allocation took, found by the marks alone, and leaves all other marks in use as they are; the free list becomes exactly what releasing the run and its guard page into it comes to (`Reclaims`): every page covered was covered or is the run's, and what is lost is exactly the excess over the cache; a pointer to a page not marked as first changes nothing |
| `PageAllocator.FreeMarks` | Shadow/tor/src/ext/OpenBSD_malloc_Linux.c:1439-1492 | freeing any page marked as first, a run's or a guard page: how many pages are marked free, and that all other runs keep their marks if and only if the page starts a run |
| `PageAllocator.Pages.FirstIsLiveOrGuard` | Shadow/tor/src/ext/OpenBSD_malloc_Linux.c:1439-1492 | a page marked as first is the first of a live run, or a guard page |
| `PageAllocator.Recover` | Shadow/tor/src/ext/OpenBSD_malloc_Linux.c:1439-1492 | the loop over FIRST and FOLLOW marks finds the length allocated and marks those pages free |
| `PageAllocator.RunEnds` | Shadow/tor/src/ext/OpenBSD_malloc_Linux.c:1462-1472 | the page behind a live run is never marked as continuing it |
| `PageAllocator.AllocKeeps` | Shadow/tor/src/ext/OpenBSD_malloc_Linux.c:910-1029 | taking unused pages keeps the partition |
| `PageAllocator.FreeKeeps` | Shadow/tor/src/ext/OpenBSD_malloc_Linux.c:1439-1711 | freeing, coalescing and unmapping keep the partition |
| `PageDirectory.Lookup` | Shadow/tor/src/ext/OpenBSD_malloc_Linux.c:301-344 | from either cached directory or the head, returns what the plain search returns, with code 0, 1 or -1 as the index is present, below all, or neither; with two cached directories, neither a hit, it starts from the last one, and without them from the head |
| `PageDirectory.PlainSearchFinds` | Shadow/tor/src/ext/OpenBSD_malloc_Linux.c:301-344 | the plain search returns the last directory at or below the index |
| `PageDirectory.AlwaysPicksLast` | Shadow/tor/src/ext/OpenBSD_malloc_Linux.c:311-320 | the distance test picks the last directory for all index values |
| `PageDirectory.FartherIsPicked` | Shadow/tor/src/ext/OpenBSD_malloc_Linux.c:311-320 | an instance in which that is the farther one |
| `ChunkAllocator.BucketOf` | Shadow/tor/src/ext/OpenBSD_malloc_Linux.c:1147-1169 | the shift loop finds the smallest chunks that are large enough, less than twice the request or the smallest size; bucket 0 exactly for a request of nothing |
| `ChunkAllocator.MakeChunks` | Shadow/tor/src/ext/OpenBSD_malloc_Linux.c:1035-1142 | a new page's bitmap marks exactly the valid chunks not taken by the header as free, whatever its memory held |
| `ChunkAllocator.Geometry` | Shadow/tor/src/ext/OpenBSD_malloc_Linux.c:1035-1142 | chunks of 16 bytes for bucket 0 and of 2 to the power of the bucket for the others tile the page, the header takes the first 4, 2, 1 or no chunks and fits there, and two are left |
| `ChunkAllocator.PickBit` | Shadow/tor/src/ext/OpenBSD_malloc_Linux.c:1176-1209 | the bit taken is a valid free chunk past the header: the lowest, or in guarded mode the one with a random number of free ones before it, although bits above the valid ones are arbitrary |
| `ChunkAllocator.NoneOutIff` | Shadow/tor/src/ext/OpenBSD_malloc_Linux.c:1767-1768 | a page's counter is at its total if and only if no chunk of the page is out |
| `ChunkAllocator.HeaderBitIff` | Shadow/tor/src/ext/OpenBSD_malloc_Linux.c:1741-1749 | taking back a clear bit keeps the page consistent if and only if it is not one of those the header takes |
| `ChunkAllocator.Chunks.MallocBytes` | Shadow/tor/src/ext/OpenBSD_malloc_Linux.c:1147-1226 | hands out one chunk that was not out and changes no other: of the smallest sufficient size (less than twice the larger of request and 16), on the front page of its queue or on the fresh page if there is none; the lowest free one of that page, or in guarded mode the one with the random number, modulo the number free, of free ones before it; the page leaves the queue exactly if that was its last |
| `ChunkAllocator.Chunks.FreeBytes` | Shadow/tor/src/ext/OpenBSD_malloc_Linux.c:1722-1808 | takes back exactly the chunk pointed to; misaligned and already free pointers change nothing; the page is released if and only if no other chunk on it is out, joins its queue where the scan stops if it was full, and else keeps its place |
| `SmallObjects.Heap.Malloc` | Shadow/tor/src/ext/OpenBSD_malloc_Linux.c:1035-1226 | the same chunk of the same size as the chunk level says, from a page with a free one, else on a new live run of one page of the page level; none if and only if no page has one, the system gives none and no free run has room; the pages marked as pages of chunks stay exactly those of the chunk level, each a live run of one page |
| `SmallObjects.Heap.Free` | Shadow/tor/src/ext/OpenBSD_malloc_Linux.c:1722-1808 | takes back exactly one chunk, and gives exactly that page back to the page level if and only if no other chunk on it is out, the free list then taking it in as any run; a bad or already free pointer changes nothing |
| `ChunkAllocator.OutstandingAreSafe` | Shadow/tor/src/ext/OpenBSD_malloc_Linux.c:1035-1226 | chunks that are out are aligned, inside their page, clear of the header, and pairwise disjoint |
| `ChunkAllocator.AddressRoundTrip` | Shadow/tor/src/ext/OpenBSD_malloc_Linux.c:1722-1745 | a chunk's address leads back to its page and number |
| `ChunkAllocator.AddressOrderIff` | Shadow/tor/src/ext/OpenBSD_malloc_Linux.c:1759-1764 | the insertion keeps address order if and only if the page goes in front |
| `ChunkAllocator.SecondPageGoesFirst` | Shadow/tor/src/ext/OpenBSD_malloc_Linux.c:1759-1764 | an instance in which it does not |
| `CodecLaws.ThenLawful` | Shadow/tor/src/trunnel/ed25519_cert.c:2000-2071 | one format after another, the second depending on the first: round trip, canonical, strict prefixes truncated |
| `CodecLaws.RepeatLawful` | Shadow/tor/src/trunnel/ed25519_cert.c:2039-2052 | the same for a list of a known number of elements |
| `CodecLaws.SelfDelimiting` | Shadow/tor/src/trunnel/ed25519_cert.c:630-692 | what follows the bytes used changes neither object nor count |
| `CertFormats.ExtensionLawful` | Shadow/tor/src/trunnel/ed25519_cert.c:522-692 | a certificate extension: encodings parse back with the length filled in, accepted bytes re-encode to themselves, strict prefixes give -2 |
| `CertFormats.SpecifierLawful` | Shadow/tor/src/trunnel/ed25519_cert.c:1329-1564 | the same for a link specifier of any type |
| `CertFormats.Create2Lawful` | Shadow/tor/src/trunnel/ed25519_cert.c:188-290 | the same for a CREATE2 body |
| `CertFormats.CertLawful` | Shadow/tor/src/trunnel/ed25519_cert.c:1894-2071 | the same for a certificate |
| `CertFormats.ListLawful` | Shadow/tor/src/trunnel/ed25519_cert.c:2597-2698 | the same for a list of link specifiers |
| `CertFormats.Extend2Lawful` | Shadow/tor/src/trunnel/ed25519_cert.c:2293-2408 | the same for an EXTEND2 body |
| `CertLayout.ExtensionLayout` | Shadow/tor/src/trunnel/ed25519_cert.c:522-624 | an encoded extension byte by byte: length in two bytes, most significant first, type, flags, key for type 4 or the bytes given |
| `CertLayout.SpecifierLayout` | Shadow/tor/src/trunnel/ed25519_cert.c:1329-1468 | an encoded link specifier byte by byte: type, length, then for type 0 four address and two port bytes, for 1 sixteen and two, for 2 twenty, for 3 thirty-two, else the bytes given |
| `CertLayout.Create2Layout` | Shadow/tor/src/trunnel/ed25519_cert.c:188-253 | an encoded CREATE2 body byte by byte: type and length in two bytes each, data |
| `CertLayout.HeadLayout` | Shadow/tor/src/trunnel/ed25519_cert.c:1894-1960 | a certificate's first forty bytes: version, type, expiration in four bytes, key type, key, number of extensions |
| `CertLayout.CertLayout` | Shadow/tor/src/trunnel/ed25519_cert.c:1894-1995 | head, extensions in order, and the signature in the last 64 bytes; as many extensions as the head says, version 1 |
| `CertLayout.Extend2Layout` | Shadow/tor/src/trunnel/ed25519_cert.c:2293-2359 | number of link specifiers, each of them in order, CREATE2 body |
| `CertLayout.ElementAt` | Shadow/tor/src/trunnel/ed25519_cert.c:1958-1972 | in a list every element stands right behind those before it |
| `CertLayout.ExtensionRefusals` | Shadow/tor/src/trunnel/ed25519_cert.c:630-692 | for any bytes: -2 exactly for want of bytes, -1 exactly for a key of type 4 that has not 32 bytes |
| `CertLayout.SpecifierRefusals` | Shadow/tor/src/trunnel/ed25519_cert.c:1473-1564 | -2 exactly for want of bytes, -1 exactly for a length its type does not have |
| `CertLayout.HeadRefusals` | Shadow/tor/src/trunnel/ed25519_cert.c:2000-2030 | -1 exactly for a version other than 1, even where the rest is missing, -2 exactly for want of bytes |
| `CertEncoder.EncodeExtensionTo` | Shadow/tor/src/trunnel/ed25519_cert.c:522-624 | the back-patching encoder writes the encoding and nothing else in the buffer; -2 exactly for want of room, else -1 exactly if the union is too long for its length field |
| `CertEncoder.EncodeSpecifierTo` | Shadow/tor/src/trunnel/ed25519_cert.c:1329-1468 | the same for a link specifier, whose length field has eight bits |
| `CertEncoder.EncodeCreate2To` | Shadow/tor/src/trunnel/ed25519_cert.c:188-253 | the encoder writes the encoding, whose bytes `CertLayout.Create2Layout` gives, and nothing else in the buffer; -1 exactly if the check fails, else -2 exactly for want of room |
| `CertEncoder.EncodeCertTo` | Shadow/tor/src/trunnel/ed25519_cert.c:1894-1995 | -1 if the check fails; else -2 exactly for want of room up to the end of the first extension that does not fit, or of the whole; else -1 exactly if there is such an extension; else the encoding |
| `CertEncoder.EncodeListTo` | Shadow/tor/src/trunnel/ed25519_cert.c:2597-2656 | the same for a list of link specifiers |
| `CertEncoder.EncodeExtend2To` | Shadow/tor/src/trunnel/ed25519_cert.c:2293-2359 | the same for an EXTEND2 body |
| `CertEncoder.CertEncodedLen` | Shadow/tor/src/trunnel/ed25519_cert.c:1847-1885 | the length of the encoding, or -1 if the check fails |
| `CertEncoder.ListEncodedLen` | Shadow/tor/src/trunnel/ed25519_cert.c:2568-2588 | the same for a list of link specifiers |
| `CertEncoder.Extend2EncodedLen` | Shadow/tor/src/trunnel/ed25519_cert.c:2261-2284 | the same for an EXTEND2 body |
| `CertParser.ParseExtensionInto` | Shadow/tor/src/trunnel/ed25519_cert.c:630-692 | the parser's result code and object are those of the format |
| `CertParser.ParseSpecifierInto` | Shadow/tor/src/trunnel/ed25519_cert.c:1473-1564 | the same for a link specifier |
| `CertParser.ParseCreate2Into` | Shadow/tor/src/trunnel/ed25519_cert.c:259-290 | the same for a CREATE2 body |
| `CertParser.ParseCertInto` | Shadow/tor/src/trunnel/ed25519_cert.c:2000-2071 | the same for a certificate |
| `CertParser.ParseListInto` | Shadow/tor/src/trunnel/ed25519_cert.c:2662-2698 | the same for a list of link specifiers |
| `CertParser.ParseExtend2Into` | Shadow/tor/src/trunnel/ed25519_cert.c:2365-2408 | the same for an EXTEND2 body |
| `CertParser.CertThereAndBack` | Shadow/tor/src/trunnel/ed25519_cert.c:1847-2071 | for every certificate that passes the check and fits, encoded at the front of any buffer of at least encoded_len bytes, whatever it holds: exactly encoded_len are written, and parsing the buffer uses those and gives the object with length fields normalised |
| `CertParser.ListThereAndBack` | Shadow/tor/src/trunnel/ed25519_cert.c:2568-2698 | the same for a list of link specifiers |
| `CertParser.Extend2ThereAndBack` | Shadow/tor/src/trunnel/ed25519_cert.c:2261-2408 | the same for an EXTEND2 body |
| `Histogram.StepGood` | Shadow/SaM-extractor/src/lib.rs:146-186 | every message keeps all closed runs padded with an hour of zeros and the open one exact, without inner gaps |
| `Histogram.FoldDates` | Shadow/SaM-extractor/src/lib.rs:146-186 | the runs together hold the user's messages, each once and in order |
| `Histogram.FoldSplits` | Shadow/SaM-extractor/src/lib.rs:158-172 | runs end exactly at the silences: consecutive dates lie more than 121 minutes apart, counted from the run's start, if and only if they are in different runs |
| `HistogramRuns.RunsAreExact` | Shadow/SaM-extractor/src/lib.rs:136-201 | each run counts its messages in their minutes, starts with 60 zeros and then a message, ends with 60 zeros, or for the last run the whole minutes up to the end of the conversation if those are fewer; a run ends exactly where at least 121 whole minutes are empty; and it names the message it starts with, before which the earlier runs' messages lie |
| `HistogramRuns.CountersTotal` | Shadow/SaM-extractor/src/lib.rs:180-185 | a run's counters add up to its number of messages |
| `HistogramRuns.ProcessConversation` | Shadow/SaM-extractor/src/lib.rs:136-201 | the builder's loop yields those runs, counters modulo 65536, for every user who sent a message and for nobody else |
| `HistogramRuns.CountersExactIff` | Shadow/SaM-extractor/src/lib.rs:185-185 | the stored counters are exact if and only if no minute holds 65536 messages |
| `HistogramRuns.Overflow` | Shadow/SaM-extractor/src/lib.rs:185-185 | for a conversation of 65536 equal messages, or any multiple, all counters stored are zero and the reader fails |
| `HistogramRuns.SplitFlatten` | Shadow/SaM-extractor/src/lib.rs:105-117 | cutting up the concatenated counters by the lengths gives the runs back |
| `HistogramRuns.FlattenLayout` | Shadow/SaM-extractor/src/lib.rs:105-117 | the file holds each run's length, conversation and first message in order, and its counters from the sum of the lengths before it |
| `HistogramRuns.SplitIff` | Shadow/SaM-extractor/src/bin/process.rs:59-72 | for any file: the reader gets through if and only if no list is too short, and then has each run from its place |
| `HistogramRuns.ParseStats` | Shadow/SaM-extractor/src/bin/process.rs:59-72 | the reader's loop computes that cut, and fails exactly where it has too little to read |
| `HistogramRuns.TrimIff` | Shadow/SaM-extractor/src/bin/process.rs:139-155 | the reader's assertions and slices hold if and only if the counters start with 60 zeros and one of the last 61 is not zero, and what is left is everything from the 61st counter to the last that is not zero |
| `HistogramRuns.ReaderAccepts` | Shadow/SaM-extractor/src/bin/process.rs:139-155 | a run passes if and only if one of its last 61 minutes has a number of messages that is no multiple of 65536; without a wrapped counter it does, and what is left reaches from its first to its last message |
| `HistogramRuns.RunPassesIff` | Shadow/SaM-extractor/src/bin/process.rs:139-155 | the same for every run the builder makes of a conversation |

## Left out

- Sockets, TLS, HTTP, SOCKS, logging, YAML, start-up and the client binaries: library plumbing. A socket is the sequence of answers it gives to writes and flushes; a run is observed when it waits for an answer that has not come.
- Progress of readers that start waiting after the end of the registration phase: they make none, as shown above.
- Routing.NeverStuck: channels exist for all members from the start, and no receiving end of a channel is ever closed.
- Two concurrent first registrations of the same sender and group: the second replaces the first's channel. Routing and delivery take one channel per member as given.
- Relay.SendChannel: the sending loop runs on what a run has put in the channel, not alongside the run; the connections' bytes are those of acceptable messages.
- `Updater` is a state machine over its atomic steps, since its property is about their interleaving; the mutex is held from storing a value to notifying.
- Text of the log: strings are byte sequences that are UTF-8 as section 4 of RFC 3629 has it; `Wire` headers longer than their 32-bit length field, on which serializing panics, are outside the type of messages.
- Malloc's metadata recycling, option parsing, memory protection, junk fill, aligned mappings and statistics: metadata allocation and unmapping succeed, so a chunk page's header outside the page is not itself a chunk. Pages are numbers; the page directory is a map from page to status except in `PageDirectory`.
- The free list and the queues of chunk pages are sequences, not linked nodes: pointer updates within them are not captured.
- PageAllocator.Pages.FreePages: takes as given that a page marked FIRST is the first page of a live run; `PageAllocator.FreeMarks` says what freeing a guard page does to the marks.
- ChunkAllocator.Chunks.FreeBytes: takes as given that the pointer is not into the page's own header; `ChunkAllocator.HeaderBitIff` says what such a free does to the page.
- HashTable.Table.Insert: takes as given that memory for the first table is had, that the growth loop stays within the primes, and that no element with the key is present.
- HashTable.Table.Replace: takes as given that memory for the first table is had, that the growth loop stays within the primes, and that the new element is unlinked with a null link.
- The hash table's load limit is computed exactly; the source multiplies by 0.6 in floating point.
- Allocation failure in the codecs, and the other generated trunnel files, which have less structure.
- CertEncoder.EncodeExtensionTo: leaves open what a refused call has written inside its room, and so do the other encoders; nothing outside it changes.
- Histogram input that is not in order of time, or has a message after the conversation's last date: the source's casts of negative durations are not modelled. The decimal text of the file is not modelled, only its lists.
- The labelling of states in process.rs, the Python tools, and the rest of Tor.
