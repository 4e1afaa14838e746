# Linked state in the A/UX 0.7 kernel, verified

A Dafny model of the parts of the kernel that keep linked state step by step and have a simple abstract
meaning: the "fast fits" memory allocator, record locks on files, the regular-expression compiler and
matcher, IP and TCP reassembly over mbuf chains with the Internet checksum, STREAMS queues and message
blocks, the directory name cache, pathname translation, and the terminal multiplexer. What the code changes
in place is a class whose methods modify it; each method is proved against a function or relation on values,
and what the code is for is proved of those, over all inputs and all runs.

Check everything with `dafny verify dfyconfig.toml`.

| area | files, in order of dependence |
|---|---|
| memory allocator | CartesianTree, TreeShape, HeaderStore, HeaderLinks, KmemHeap, KmemRun, KmemServer |
| record locks | LockList, LockSteps, LockCount, FileLocks, WaitGraph, FlockRun, LockServer, LockShortage |
| regular expressions | Octets, RegexSyntax, RegexProgram, RegexMatcher, RegexCompiler, RegexSpelling, RegexText |
| networking | Segments, Mbufs, IpReassembly, IpFragments, IpRun, IpTransit, SocketBuffer, TcpStream, TcpFin, TcpReassembly, TcpReceiver, Checksum |
| STREAMS | StreamQueue, StreamRun, StreamOrder, Streams, StreamBlocks |
| names | NameCache, NameHits, NameRings, NameLookup, Pathnames, PathLookup, PathMeaning |
| terminals | SxtTurns, SxtLink |

Where to begin: `KmemRun.RunInv` with `KmemServer`, `FlockRun.WriteRun` with `LockServer`,
`RegexText.MatchWritten`, `IpTransit.Exchange`, `TcpReceiver.TcpReceiver.Prefix` with `TcpFin.FinExact`,
`StreamRun.RunInv` with `StreamOrder.RunFifo`, `NameCache.HitIsKnown` with `NameHits.RecentIsHit`,
`PathLookup.Walker.Lookuppn` with `PathMeaning.PathsCompose`, `SxtTurns.RunFair`.

## Model

| member | source | states |
|---|---|---|
| CartesianTree.InsertCorrect | COMMON/os/heap_kmem.c:95-168 | root insertion of a block that touches no other keeps the address order with its gaps and the size order, and adds exactly the bytes of that block |
| CartesianTree.InsertBlocks | COMMON/os/heap_kmem.c:95-168 | the list of free blocks gains that one block, and no other block moves |
| CartesianTree.MergeCorrect | COMMON/os/heap_kmem.c:186-220 | joining the subtrees of a deleted node keeps both orders, and of the blocks from left to right exactly the node's goes |
| CartesianTree.DemoteCorrect | COMMON/os/heap_kmem.c:249-286 | demoting a root that breaks only the size order restores both orders, and the blocks come out as they went in |
| CartesianTree.CoalesceCorrect | COMMON/os/heap_kmem.c:521-575 | the search along one path reports a collision exactly when the range shares a byte with some free block, and otherwise ends with the range joined to its free neighbours, clear of the rest and with the same free bytes |
| CartesianTree.FreeStepCorrect | COMMON/os/heap_kmem.c:485-586 | giving back a range adds exactly its bytes and keeps both orders and the gaps |
| CartesianTree.TakeCorrect | COMMON/os/heap_kmem.c:366-460 | best fit with alignment: the free bytes are split without overlap into the new tree's, those handed out and a tail still to be given back; both orders hold |
| CartesianTree.TakeBest | COMMON/os/heap_kmem.c:366-460 | the search for a fit goes down the right way at every node: on the path from the root to what is handed out, the son chosen is the better fitting one that is large enough, and where neither son is, it is the node itself |
| CartesianTree.FitsExact | COMMON/os/heap_kmem.c:345-390 | a request of four bytes or more passes the test at a node exactly when the node's block has room for it after alignment, and fits in a tree exactly when some block in it has room |
| CartesianTree.AllocStepCorrect | COMMON/os/heap_kmem.c:317-471 | an allocation removes exactly the range it returns, from inside the arena, aligned for four bytes and more |
| CartesianTree.AllocStepBest | COMMON/os/heap_kmem.c:317-471 | what an allocation hands out is a best fit in the tree before it |
| CartesianTree.RootTestMisses | COMMON/os/heap_kmem.c:345-358 | the test at the root turns a request down that some free block could serve exactly when the root block is skewed, the request is larger than what is left of it after alignment but not than the block, and a subtree has a fit |
| TreeShape.RunShape | COMMON/os/heap_kmem.c:639-662 | what the tree can serve after the deferred blocks are given back is a function of tree and blocks, whatever headers are used |
| KmemHeap.KmemHeap.Insert | COMMON/os/heap_kmem.c:95-168 | the loop over links builds the root insertion, takes one header and leaves the others alone |
| KmemHeap.KmemHeap.Delete | COMMON/os/heap_kmem.c:186-220 | the loop over links joins the node's subtrees in its place and frees its header |
| KmemHeap.KmemHeap.Demote | COMMON/os/heap_kmem.c:249-286 | the loop over links moves the node down as the demotion of the tree says, with no header gained or lost |
| KmemHeap.KmemHeap.Coalesce | COMMON/os/heap_kmem.c:521-575 | the search loop computes the coalescing search and leaves linked what it found |
| KmemHeap.KmemHeap.KmemFree | COMMON/os/heap_kmem.c:485-586 | the panics are exactly a pointer outside the storage array and a collision with a free block; otherwise the range has been given back, at the cost of at most one header |
| KmemHeap.KmemHeap.Allocate | COMMON/os/heap_kmem.c:366-460 | with two headers to spare, a request that passes the root test is served as an allocation step, and by a best fit |
| KmemHeap.KmemHeap.GetFreeHdr | COMMON/os/heap_kmem.c:709-727 | a header in neither the tree nor the chain of unused ones; the first call threads the whole table |
| KmemHeap.KmemHeap.FreeHdr | COMMON/os/heap_kmem.c:734-741 | the header is put in front of the chain, and no other is written |
| KmemHeap.KmemHeap.KmemFreeIntr | COMMON/os/heap_kmem.c:595-628 | a range given back at interrupt level is recorded in full, in one piece or, off the alignment, in two; it fails exactly when the table has fewer entries left than its short pieces need |
| KmemHeap.KmemHeap.CheckNeedToFree | COMMON/os/heap_kmem.c:631-662 | all deferred blocks are given back and none stays; each way of failing names the block that caused it |
| KmemHeap.KmemHeap.Morecore | COMMON/os/heap_kmem.c:676-700 | the storage array is handed over whole, once |
| KmemHeap.KmemHeap.KmemAlloc | COMMON/os/heap_kmem.c:317-471 | every outcome: a range taken, as a best fit, out of what the tree holds after the deferred frees; out of memory exactly when the guard of that branch holds; out of headers, collision and bad pointer with their causes; a call that succeeds leaves a valid heap exactly unless it is the first one and asks for more than the storage array |
| KmemHeap.KmemHeap.AllocateBeyond | COMMON/os/heap_kmem.c:366-460 | when the only block is smaller than the request, its start is handed out all the same, and the tree holds a block behind its end whose size has wrapped around |
| KmemRun.OwnedNoOverlap | COMMON/os/heap_kmem.c:542-575 | bytes that a caller owns never collide with a free block, so giving them back does not panic |
| KmemRun.PendingNoOverlap | COMMON/os/heap_kmem.c:595-662 | deferred blocks lie in the arena and collide with no free block |
| KmemRun.AllocInv | COMMON/os/heap_kmem.c:317-471 | what is handed out belongs to nobody, is aligned and lies in the arena |
| KmemRun.RunInv | COMMON/os/heap_kmem.c:317-662 | over every run of allocations, frees and deferred frees: both tree orders, no adjacent blocks, and every byte of the arena is free, deferred or owned, and only one of these |
| KmemRun.Conservation | COMMON/os/heap_kmem.c:317-662 | over every run free, deferred and owned bytes add up to the arena |
| KmemRun.SkewedRunMisses | COMMON/os/heap_kmem.c:345-358 | a run of three calls after which the root test turns down 6 bytes although a block fits |
| KmemServer.KmemServer.Alloc | COMMON/os/heap_kmem.c:317-471 | any request: a successful call is one more step of a recorded run exactly unless it is a first request beyond the storage array, which hands out memory behind it; with headers to spare the only other failure is being out of memory, exactly under the guard |
| KmemServer.KmemServer.Free | COMMON/os/heap_kmem.c:485-586 | giving back owned bytes is a step of the run and can only fail for want of a header |
| KmemServer.KmemServer.FreeIntr | COMMON/os/heap_kmem.c:595-628 | deferring owned bytes is a step of the run, and fails exactly when the table has too few entries left |
| KmemServer.FirstTooLarge | COMMON/os/heap_kmem.c:350-358 | on any heap, a first request larger than it is answered with memory that is not all in it |
| LockSteps.SearchExact | COMMON/os/flock.c:418-458 | on a sorted list the search for a lock in the way finds one exactly when there is one |
| FileLocks.Flino.Insflck | COMMON/os/flock.c:150-182 | a free record with the given data goes behind the given one, or there is none free and nothing changes |
| FileLocks.Flino.Delflck | COMMON/os/flock.c:186-207 | the record leaves the list for the free list, and its sleepers are woken |
| FileLocks.Flino.Blocked | COMMON/os/flock.c:418-458 | both loops find what the search says, and the insertion point is proper for a request that nothing blocks |
| FileLocks.Flino.Examine | COMMON/os/flock.c:277-388 | every case of the switch, with the tail's record missing or not, keeps what the scan promises |
| FileLocks.Flino.Flckadj | COMMON/os/flock.c:258-409 | the process's map of bytes to lock types is the old one overridden by the request, in canonical form; other locks are untouched; who sleeps on a changed record is woken; the list stays sorted exactly when no tail is misplaced; the call fails exactly when records are lacking in terms of the list before it, and then leaves exactly what LeftAt says, other locks untouched, and a sorted list exactly unless a record was free and a tail is misplaced |
| LockCount.UnlockLacks | COMMON/os/flock.c:258-409 | an unlock fails exactly when no record is free, none becomes free on the way, and a lock of the caller reaches beyond it |
| LockCount.FrontFails | COMMON/os/flock.c:318-350 | the unlock of the first half of a lock fails with no free record, although it leaves one record where one was |
| FileLocks.Flino.Cleanlocks | COMMON/os/flock.c:652-671 | exactly the process's records go, and their sleepers are woken |
| LockSteps.FailedKeeps | COMMON/os/flock.c:258-409 | a call that runs out of records leaves the caller's locks as they were exactly when the request meets none of them or, with no record free, only one that reaches beyond it |
| LockShortage.ShortageLosesLock | COMMON/os/flock.c:258-409 | two calls with a single record: the second one fails and the caller has lost its lock |
| WaitGraph.Deadflck | COMMON/os/flock.c:626-649 | the loop ends, and answers yes exactly when the holder waits, directly or through others, for the caller |
| WaitGraph.AddEdge | COMMON/os/flock.c:562-575 | a new sleeper closes a cycle exactly when the holder leads back to it |
| WaitGraph.RemoveEdge | COMMON/os/flock.c:576-577 | a sleeper that goes on leaves the graph acyclic with one edge per process |
| FlockRun.NextExact | COMMON/os/flock.c:258-590 | a step, a call that fails for want of a record included, keeps the invariant of all files and sleepers exactly when it misplaces no tail |
| FlockRun.RunInv | COMMON/os/flock.c:258-671 | over every run on any number of files in which no tail is misplaced: lists sorted and canonical, write locks exclusive, no sleeper forgotten, the waits-for graph acyclic |
| FlockRun.AcyclicRun | COMMON/os/flock.c:555-649 | over every run, misplaced tails or not, every process waits for one other at most and nobody waits for himself, over all files |
| FlockRun.GraphRun | COMMON/os/flock.c:555-649 | the same of the sleepers alone, whatever the lists are like when somebody is put to sleep |
| FlockRun.WriteRun | COMMON/os/flock.c:258-671 | with write locks only there is no condition: on every file no byte has two owners, no cycle of waits, no lost wake-up |
| FlockRun.MixedRunOverlooks | COMMON/os/flock.c:318-350 | three calls by two readers after which a conflicting write request is let through |
| LockServer.LockServer.Setflck | COMMON/os/flock.c:514-590 | the reply of the call is decided exactly, by the locks of the file, the free records and the waits before it; every return, with its file created on demand and records shared by all files and sleepers, is one more step of a recorded run or changes nothing; a refusal for deadlock or conflict names the lock; no record is ever lost |
| LockServer.LockServer.Wait | COMMON/os/flock.c:555-578 | on any list, the caller sleeps on the lock found unless its owner waits for the caller, and the waits stay free of cycles |
| LockServer.LockServer.NoDeadlock | COMMON/os/flock.c:514-671 | after any history of calls nobody waits for himself |
| LockServer.LockServer.Resume | COMMON/os/flock.c:572-577 | a sleeper that runs again is a step of the run and gives its record back |
| LockServer.LockServer.Close | COMMON/os/flock.c:652-671 | closing a file is a step of the run |
| LockServer.LockServer.WritesKeep | COMMON/os/flock.c:514-590 | after any history of calls with write locks only the state is as WriteRun says, so the next call may be made |
| RegexSyntax.GreedyCorrect | include/regexp.h:257-403 | the backtracking search finds a match exactly when there is one, and then the one whose items take as much as they can, first things first |
| RegexProgram.ClassMapCorrect | include/regexp.h:100-141 | the bitmap of a class, complemented or not, answers for exactly its characters and never for the end of the text |
| RegexMatcher.Matcher.Advance | include/regexp.h:257-403 | running a program from a position ends, succeeds exactly when the greedy search does, and leaves its end in loc2 |
| RegexMatcher.Matcher.Step | include/regexp.h:225-255 | succeeds exactly when the expression matches from some allowed start, loc1 being the first such |
| RegexMatcher.Matcher.OtherCharacter | include/regexp.h:235-245 | skipping to the first literal loses no match |
| RegexCompiler.Compiler.Compile | include/regexp.h:35-223 | any text: the buffer holds the byte code of the items that the text means, or the error is that of the first mistake, or nothing is written for an empty text |
| RegexSpelling.WrittenParsed | include/regexp.h:35-223 | every way to write an expression, with characters escaped or bare where they stand for themselves (an asterisk at the beginning, a dollar sign not at the end, a circumflex not at the beginning), repeated stars and any spelling of bounds, compiles to that expression exactly when its code fits the buffer, and fails with 50 otherwise |
| RegexSpelling.MistakeFound | include/regexp.h:69-223 | behind any well-written beginning, the first mistake of a text (newlines, closing brackets, back-references, classes that never end, and the six ways in which bounds are wrong) is reported with its number, or 50 if there is no room |
| RegexSpelling.LimitExact | include/regexp.h:404-412 | a range takes exactly the numbers of characters that its text promises if and only if it is closed with an upper bound below 255, or there are not as many characters as it is broken at |
| RegexSpelling.InText | include/regexp.h:35-223 | whatever is compiled without reading behind the text's end has a meaning as an expression |
| RegexText.MatchText | include/regexp.h:35-255 | any text, compiled and run, answers as the expression it means, unless it ends in a lone backslash; other texts give their error |
| RegexText.MatchWritten | include/regexp.h:35-255 | any way to write an expression, compiled and run, finds a match exactly when the expression has one, at the leftmost start and with the greedy end |
| RegexText.Printed | include/regexp.h:35-223 | every expression has a text: what is printed is a way to write it |
| RegexText.Match | include/regexp.h:35-255 | printing, compiling and running an expression finds a match exactly when it has one, at the leftmost start and with the greedy end |
| Segments.InsertCorrect | NETinet/sys/ip_input.c:320-365 | whatever arrives, the queue stays sorted and disjoint, holds only bytes of the stream, and covers exactly what it and the new piece cover |
| Segments.CompleteIff | NETinet/sys/ip_input.c:366-373 | a queue of a stream's pieces looks complete exactly when it covers the stream, and then its bytes are the stream |
| Segments.FeedCorrect | NETinet/sys/ip_input.c:320-388 | in any order, with repetitions and overlaps, the queue completes with the very arrival that finishes the coverage, and gives the stream |
| Mbufs.MCopy | NET/sys/uipc_mbuf.c:266-317 | a valid chain of exactly the asked-for bytes |
| Mbufs.MCat | NET/sys/uipc_mbuf.c:323-342 | the bytes of the one chain followed by those of the other |
| Mbufs.MAdj | NET/sys/uipc_mbuf.c:396-453 | bytes go from the front, or for a negative length from the end, and no mbuf goes |
| Mbufs.MPullup | NET/sys/uipc_mbuf.c:467-505 | the same bytes with the asked-for number in the first mbuf, or the chain is lost exactly when they do not fit one or are not there |
| Mbufs.MCpytoc | NET/sys/uipc_mbuf.c:515-549 | copies exactly the bytes asked for when copying stops right, otherwise everything to the end; the number missing is right in terms of what was copied |
| Mbufs.CopiesTooMuch | NET/sys/uipc_mbuf.c:534-548 | a chain of two mbufs on which copying does not stop right |
| IpReassembly.IpInput.IpReass | NETinet/sys/ip_input.c:284-410 | a fragment is put in its datagram's queue as the insertion says; a complete datagram is handed on and its queue goes |
| IpReassembly.IpInput.Ipintr | NETinet/sys/ip_input.c:138-276 | packets shorter than their header says are dropped, others cut to that length and taken as a piece with its 16-bit offset |
| IpReassembly.IpInput.IpFreef | NETinet/sys/ip_input.c:412-427 | exactly that datagram's queue goes |
| IpFragments.FragmentCorrect | NETinet/sys/ip_output.c:165-216 | the fragments follow one another and are the piece, each fits the link, and all but a last one carry a multiple of 8 bytes |
| IpFragments.CrossFull | NETinet/sys/ip_output.c:161-216 | a piece can be cut up exactly when the link has room for eight bytes behind a header, and every fragment but the last carries as many bytes as the link and the unit of eight allow |
| IpFragments.IpOutput | NETinet/sys/ip_output.c:161-216 | refuses exactly what may not be cut up, or cannot because the link has no room for eight bytes behind a header; otherwise sends the packet whole if it fits, and else the fragments, each but the last as long as the link allows |
| IpFragments.TravelCorrect | NETinet/sys/ip_output.c:161-216 | however packets are cut up again on their way, they stay parts of the datagram that cover it |
| IpFragments.Delivered | NETinet/sys/ip_input.c:285-405 | a datagram that is cut up anywhere and arrives in any order with repetitions is delivered as it was sent |
| IpRun.Separate | NETinet/sys/ip_input.c:233-266 | what is delivered under one key does not depend on arrivals under others |
| IpRun.RunDelivers | NETinet/sys/ip_input.c:233-405 | from any queues, the first delivery under a key whose pieces cover a datagram is that datagram |
| IpRun.LengthFits | NETinet/sys/ip_input.c:247-397 | covering pieces bring the datagram about with its length exactly when that is below 32768 |
| IpRun.TookRuns | NETinet/sys/ip_input.c:138-276 | what Ipintr does with a packet is one turn of a run |
| IpRun.LongDatagramFails | NETinet/sys/ip_input.c:247-397 | a datagram of 32768 bytes in two halves does not come about as it was sent |
| IpTransit.TransitDelivers | NETinet/sys/ip_input.c:233-405 | the first delivery of a datagram's key is the datagram, with any other traffic in between |
| IpTransit.Transmit | NETinet/sys/ip_output.c:161-216 | forwarding packet by packet, link by link, gets through exactly when the path has room for fragments, and then arrives as the travel of the piece |
| IpTransit.Exchange | NETinet/sys/ip_input.c:130-405 | IpOutput at the source and the routers and Ipintr at the destination, in any order with repetitions and other packets: the datagram is delivered |
| SocketBuffer.SockBuf.Sbappend | NET/sys/socket2.c:392-426 | the chain's bytes come at the end, and the counts stay right |
| SocketBuffer.SockBuf.Sbdrop | NET/sys/socket2.c:504-525 | that many bytes go from the front |
| TcpStream.RunCorrect | NETinet/sys/tcp_input.c:867-964 | whatever the order, overlaps and windows, what was delivered is the beginning of the stream up to the first byte that was not accepted |
| TcpStream.AllDelivered | NETinet/sys/tcp_input.c:867-964 | once everything has been accepted everything has been delivered |
| TcpStream.FinAtEnd | NETinet/sys/tcp_input.c:943-960 | a FIN is reported only with the whole stream delivered |
| TcpFin.AcceptedExact | NETinet/sys/tcp_input.c:352-412 | of a segment exactly the bytes in the window are accepted, and its FIN exactly when the stream's end is in the window |
| TcpFin.AcceptedCovers | NETinet/sys/tcp_input.c:352-412 | what a call accepts is what was accepted before and exactly the segment's bytes in the window |
| TcpFin.InsertMarks | NETinet/sys/tcp_input.c:867-934 | after an insertion some piece has the FIN exactly when the new one has it and is not all known, or an old one had it whose bytes are not swallowed by the new one |
| TcpFin.FinExact | NETinet/sys/tcp_input.c:867-964 | established, a FIN is reported exactly when the stream is complete and the new segment has the FIN, or a waiting one was not swallowed |
| TcpFin.TookFin | NETinet/sys/tcp_input.c:352-412 | so it is of every call: a segment with the FIN whose bytes are not all waiting already is answered with TH_FIN when it completes the stream |
| TcpFin.HandedFin | NETinet/sys/tcp_input.c:936-960 | waiting data that are handed over report a FIN exactly when they complete the stream and the last piece has it |
| TcpFin.FinLost | NETinet/sys/tcp_input.c:867-964 | three segments after which all bytes are delivered and the FIN that came is never reported |
| TcpReassembly.Tcpcb.TrimToWindow | NETinet/sys/tcp_input.c:352-413 | with 32-bit sequence numbers, what goes on of a segment is its part in the window, or nothing exactly under the conditions of each verdict |
| TcpReassembly.Tcpcb.TcpReass | NETinet/sys/tcp_input.c:867-964 | the queue is the insertion, and what has become contiguous is appended to the receive buffer |
| TcpReassembly.Tcpcb.TcpInput | NETinet/sys/tcp_input.c:352-412 | a segment is clipped to the window that the buffer leaves and queued, and the verdict is the one that segment and window call for |
| TcpReassembly.WindowExact | NETinet/sys/tcp_input.c:205-208 | the window is exactly the number of bytes that may still come before either count of the receive buffer reaches its limit |
| TcpReassembly.WindowTest | NETinet/sys/tcp_input.c:400-412 | the test for data beyond the window is right exactly while the excess is below half the sequence space |
| TcpReassembly.WindowTestFails | NETinet/sys/tcp_input.c:400-412 | a segment for which it is wrong |
| TcpReceiver.TcpReceiver.Input | NETinet/sys/tcp_input.c:352-412 | every call keeps the recorded history a run, accepts exactly the segment's bytes in the window, and reports a FIN exactly when TookFin says; a bare FIN behind the whole stream is reported |
| TcpReceiver.TcpReceiver.Establish | NETinet/sys/tcp_input.c:936-960 | data that waited for the connection are handed over, a FIN among them is reported exactly when they are all there, and the run begins |
| TcpReceiver.TcpReceiver.Read | NET/sys/socket2.c:504-525 | the user takes bytes from the front, and nothing else changes |
| TcpReceiver.TcpReceiver.Prefix | NETinet/sys/tcp_input.c:867-964 | at any time what the user has read and can read is the stream's beginning, and once established exactly what was accepted without a gap |
| Checksum.InCksum | NET/sys/in_cksum.c:39-149 | over any chain, with odd and empty mbufs, and with the sum cut off by a missing end: the one's complement sum of the bytes as 16-bit words |
| Checksum.SumFits | NET/sys/in_cksum.c:39-149 | the sum of as many bytes as a short counts fits the long it is kept in |
| Checksum.StoredVerifies | NET/sys/in_cksum.c:39-149 | a checksum stored into its zeroed field makes the whole check to zero |
| Checksum.ChangeDetected | NET/sys/in_cksum.c:39-149 | changing one word of bytes that check makes them fail, unless between the two zeros |
| StreamQueue.PutLastCorrect | COMMON/os/stream.c:394-440 | the class order stays, and the message is the last of its class |
| StreamQueue.PutFirstCorrect | COMMON/os/stream.c:464-510 | the class order stays, and the message is the first of its class |
| StreamQueue.GetPutBack | COMMON/os/stream.c:315-526 | taking a message and putting it back restores the queue |
| StreamQueue.FlushKeepsOrder | COMMON/os/stream.c:535-585 | what a flush leaves is in order, and putting it back one by one is leaving it |
| StreamQueue.FlushExact | COMMON/os/stream.c:535-585 | each message is dropped or left for itself: all of them, or the data only |
| StreamRun.UpstreamOfForward | COMMON/os/stream.c:340-377 | the queue that is enabled when one drains is the one whose writer asked |
| StreamRun.CanPutKeeps | COMMON/os/stream.c:367-377 | being refused sets the mark of the queue that refused and nothing else, and with the low mark below the high one that queue then holds more than its low mark |
| StreamRun.WriterIsEnabled | COMMON/os/stream.c:315-377 | the queue that getq and flushq enable when a queue drains is the one whose writer was refused there |
| StreamRun.StepServes | COMMON/os/stream.c:315-585 | one call keeps every waiting writer marked and its queue above the low mark, and a writer that stops waiting has been put on the run list |
| StreamRun.RefusedIsCalled | COMMON/os/stream.c:315-585 | a writer that was refused has been enabled by the time the queue that refused it is down to its low mark |
| StreamRun.EnabledIsCalled | COMMON/os/stream.c:880-943 | an enabled queue is called before as many further runs as there are queues |
| StreamRun.RunInv | COMMON/os/stream.c:315-943 | over any run, flushes included: class order, counts, marks of fullness, each enabled queue on the run list once, no queue asleep that has work; and with marks apart no refused writer is forgotten: as long as it waits the mark is set and its queue above the low mark |
| StreamRun.LookThenPut | COMMON/os/stream.c:315-526 | a queue that was just looked at is enabled by the next message, put on or put back, exactly when it was found empty or the message is not a normal one |
| StreamRun.EmptyIsEnabled | COMMON/os/stream.c:315-943 | over any run, a queue that was found empty and has messages now is on the run list or being served, and any message enables it |
| StreamOrder.RunFifo | COMMON/os/stream.c:315-526 | over any run without flushing, in which what is put back is what was taken: the messages of a class leave a queue in the order in which they came, none lost and none doubled |
| StreamOrder.CanPutExact | COMMON/os/stream.c:367-377 | a writer is refused exactly when the messages on the queue that is asked have reached its high-water mark |
| StreamOrder.DrainExact | COMMON/os/stream.c:315-360 | taking a message enables the writer exactly when one was refused and what is left is no more than the low-water mark, forgets the refusal then and only then, and enables nobody else |
| Streams.Queues.Putq | COMMON/os/stream.c:394-456 | the method is that step |
| Streams.Queues.Putbq | COMMON/os/stream.c:464-526 | the method is that step |
| Streams.Queues.Getq | COMMON/os/stream.c:315-360 | the method is that step and returns the first message, which RunFifo and DrainExact are about |
| Streams.Queues.Flushq | COMMON/os/stream.c:535-585 | the method is that step |
| Streams.Queues.Canput | COMMON/os/stream.c:367-377 | the method is that step and tells whether there is room |
| Streams.Queues.NextRun | COMMON/os/stream.c:925-943 | the run list is served from the front |
| StreamBlocks.AllocInv | COMMON/os/stream.c:87-160 | a block is large enough and has one reference; nothing is lost exactly unless the message blocks have run out with more than one data block free |
| StreamBlocks.PickExact | COMMON/os/stream.c:87-160 | a block comes from the smallest class that is large enough, or from the one above; there is none exactly when both have run out |
| StreamBlocks.DupInv | COMMON/os/stream.c:236-264 | another reference keeps the counts right exactly below 255 of them |
| StreamBlocks.FreeInv | COMMON/os/stream.c:170-202 | the data block becomes free exactly with its last reference |
| StreamBlocks.Blocks.Freemsg | COMMON/os/stream.c:213-223 | all blocks of the message are free again |
| StreamBlocks.Blocks.Dupmsg | COMMON/os/stream.c:275-292 | a message of new blocks for the same data, or everything as before exactly when there are too few blocks |
| StreamBlocks.AllocLosesBlock | COMMON/os/stream.c:119-133 | two allocations after which a data block is lost |
| StreamBlocks.DupOverflows | COMMON/os/stream.c:236-264 | from any right state, the 256th reference makes the count zero |
| StreamBlocks.DupRunOverflows | COMMON/os/stream.c:236-264 | from a fresh pool, one allocation and 255 duplications |
| NameCache.FoundIff | COMMON/os/vfs_dnlc.c:354-372 | a key is in a slot exactly when the search of its chain finds it |
| NameCache.RemoveCorrect | COMMON/os/vfs_dnlc.c:234-250 | no slot has the name any more, and all others are as before |
| NameCache.PurgeCorrect | COMMON/os/vfs_dnlc.c:255-272 | no slot is in use, and no vnode is held |
| NameCache.HitIsKnown | COMMON/os/vfs_dnlc.c:116-272 | over any run a hit returns a vnode entered under the same directory, name and credentials, and not removed or purged since |
| NameHits.LookupExact | COMMON/os/vfs_dnlc.c:186-229 | a lookup hits exactly when some slot has the directory, the name and the credentials, and then gives the vnode of such a slot |
| NameHits.LookupOne | COMMON/os/vfs_dnlc.c:186-229 | asked with its own credentials, a slot in use answers itself |
| NameHits.RecentIsHit | COMMON/os/vfs_dnlc.c:116-272 | a name that was entered or hit, and neither removed nor purged since, is hit as long as fewer other names than there are slots have been entered or hit since |
| NameCache.EnterCredits | COMMON/os/vfs_dnlc.c:116-180 | entering keeps the holds on credentials in step exactly when it takes no slot or takes one without credentials |
| NameCache.RemoveCredits | COMMON/os/vfs_dnlc.c:234-250 | removing a name gives up exactly the holds of its slots, so what was lost before is all that is lost |
| NameCache.PurgeCredits | COMMON/os/vfs_dnlc.c:255-272 | so it is with purging |
| NameCache.RunCredits | COMMON/os/vfs_dnlc.c:116-272 | over any run the holds on credentials are those of the slots and those lost when slots were taken again, so they are in step exactly when none was |
| NameCache.RunLeaks | COMMON/os/vfs_dnlc.c:116-180 | one name with credentials more than there are slots |
| NameRings.InsqueRing | COMMON/os/vfs_dnlc.c:380-393 | linking a node in makes the ring with it behind the given node, and touches no node outside |
| NameRings.RemqueRing | COMMON/os/vfs_dnlc.c:396-403 | unlinking a node makes the ring without it, and touches no node outside |
| NameLookup.Dnlc.constructor | COMMON/os/vfs_dnlc.c:94-112 | the rings of an empty cache |
| NameLookup.Dnlc.Enter | COMMON/os/vfs_dnlc.c:116-180 | on the rings, entering is what the cache says |
| NameLookup.Dnlc.Lookup | COMMON/os/vfs_dnlc.c:186-229 | on the rings, looking up is what the cache says, and hits exactly when some slot has the name |
| NameLookup.Dnlc.Remove | COMMON/os/vfs_dnlc.c:234-250 | on the rings, removing is what the cache says |
| NameLookup.Dnlc.Purge | COMMON/os/vfs_dnlc.c:255-272 | on the rings, purging is what the cache says, and it ends |
| NameLookup.CredentialsLeak | COMMON/os/vfs_dnlc.c:94-180 | from the initial cache, 33 names with credentials lose a hold |
| Pathnames.Pathname.PnSet | COMMON/os/vfs_pathname.c:106-118 | the path as far as it fits, and whether it did |
| Pathnames.Pathname.PnCombine | COMMON/os/vfs_pathname.c:128-142 | the link's path before this one, or nothing changes, exactly when it does not fit |
| Pathnames.Pathname.PnGetcomponent | COMMON/os/vfs_pathname.c:149-173 | the first component goes, or it is refused exactly when too long |
| Pathnames.Pathname.PnSkipslash | COMMON/os/vfs_pathname.c:176-183 | exactly the leading slashes go |
| PathLookup.Walker.Lookuppn | COMMON/os/vfs_lookup.c:60-304 | translation ends, gives what the path means, and on every exit the vnode holds gained are exactly the vnodes handed back |
| PathLookup.Walker.OneTurn | COMMON/os/vfs_lookup.c:83-304 | one component: its meaning, its holds, and the path gets shorter or a link is used up |
| PathLookup.BeginWithin | COMMON/os/vfs_lookup.c:74-304 | no path, whatever links are on it, leads out of a closed set of directories that holds the root |
| PathMeaning.PathsCompose | COMMON/os/vfs_lookup.c:74-304 | a path put together of two means what the second means from where the first leads, or the first one's error, through whatever links and mounts, unless it becomes too long behind a link |
| PathMeaning.PlainName | COMMON/os/vfs_lookup.c:180-294 | a name that is there and no link leads to its vnode, or to the root of what is mounted on it, from which the path goes on |
| PathMeaning.NoName | COMMON/os/vfs_lookup.c:180-200 | a name that is not there gives its error, or the parent if it is the last one and the parent is asked for and may be searched |
| PathMeaning.LinkName | COMMON/os/vfs_lookup.c:201-227 | a path through a link means what the link's text followed by the rest means, from the same directory or from the root, unless there are too many links or it is too long |
| PathMeaning.DotDot | COMMON/os/vfs_lookup.c:154-178 | `..` in the root directory stays there, and in the root of a mounted file system is that of the vnode it is mounted on |
| PathMeaning.DotDotName | COMMON/os/vfs_lookup.c:154-294 | elsewhere `..` is a name like others |
| PathMeaning.Degenerate | COMMON/os/vfs_lookup.c:91-152 | an empty path is not found, a name in what is no directory and a name that is too long are errors, and no name means the directory itself, or an error if the parent is asked for |
| SxtTurns.FindNearest | COMMON/io/sxt.c:909-916 | the next turn goes to the nearest channel with its bit set |
| SxtTurns.RunKeepsOutput | COMMON/io/sxt.c:826-967 | over any run, per channel, what the line was given and what is queued is what was queued and written, in order |
| SxtTurns.RunFrees | COMMON/io/sxt.c:826-967 | every block given to the line is given back once and in order |
| SxtTurns.RunFair | COMMON/io/sxt.c:826-967 | until a channel with output is served, others send at most its wait and SXTHOG times its number for every stale bit found; how many can be found is bounded if every write to a channel before it has output |
| SxtTurns.HonestFair | COMMON/io/sxt.c:844-967 | with honest bits a channel with output waits for at most the full turns of all the others |
| SxtTurns.FedFair | COMMON/io/sxt.c:764-769 | when every write to a channel before it has output a channel does not starve, whatever bits are stale at the beginning |
| SxtTurns.Served | COMMON/io/sxt.c:826-967 | how often the line must ask at most until a channel with output is served with its first buffer |
| SxtTurns.Starved | COMMON/io/sxt.c:764-769 | writes of nothing to any channel before it keep a channel from being served for as long as they go on |
| SxtTurns.StarvesExactly | COMMON/io/sxt.c:764-967 | with a given set of channels to which nothing may be written, there is a bound on how often the line asks before a channel with output is served exactly when none of the set comes before it |
| SxtLink.Link.SxtOut | COMMON/io/sxt.c:826-967 | the shifted mask and the counters compute that turn |
| SxtLink.Link.TOutput | COMMON/io/sxt.c:764-769 | the channel's bit is set and its blocks are queued |
| SxtLink.Link.LOutput | COMMON/io/tt1.c:746-832 | the virtual terminal's buffer goes back and the next one comes up |
| SxtLink.Sxtioclink | COMMON/io/sxt.c:248-302 | the link is set up exactly for 1 to MAXPCHAN channels |

## Findings

Properties that do not hold of the code as it is. Each has its exact condition, for all inputs, and an input or
run at which it fails.

- The allocator does not always find a block that fits: the root's weight is compared after alignment, and
  the search does not look below a root that fails the test (`CartesianTree.RootTestMisses`,
  `KmemRun.SkewedRunMisses`; COMMON/os/heap_kmem.c:345-358).
- The first request is answered whatever its size: when it exceeds the storage array, memory behind the array is
  handed out, and with an array of no bytes a null pointer is followed (`KmemHeap.KmemHeap.KmemAlloc`,
  `KmemServer.KmemServer.Alloc`, `KmemServer.FirstTooLarge`; COMMON/os/heap_kmem.c:350-358).
- A tail cut off by another process's request is placed by the start of the request, so that with read and
  write locks mixed the list can come out of order, and a later search overlooks a conflicting lock
  (`FlockRun.NextExact`, `FlockRun.MixedRunOverlooks`; COMMON/os/flock.c:320 and :345).
- A lock call that fails for want of records may already have cleared locks of the caller
  (`LockSteps.FailedKeeps`, `LockShortage.ShortageLosesLock`; COMMON/os/flock.c:258-409). When it fails is exact
  (`FileLocks.Flino.Flckadj`); in particular an unlock of the first half of a lock fails with no free record
  (`LockCount.UnlockLacks`, `LockCount.FrontFails`).
- An open range `\{n,\}` ends 20000 characters behind its lower bound, and an upper bound of 255 does not bound, so
  a range keeps its promise exactly on subjects that do not reach that far (`RegexSpelling.LimitExact`;
  include/regexp.h:163-199 and :404-412).
- `m_cpytoc` does not stop at the end of the asked-for bytes if that falls strictly inside an mbuf that is not
  the first one copied (`Mbufs.MCpytoc`, `Mbufs.CopiesTooMuch`; NET/sys/uipc_mbuf.c:534-548).
- Reassembled datagrams of 32768 bytes and more get a wrong length or are not recognised
  (`IpRun.LengthFits`, `IpRun.LongDatagramFails`).
- The test for data beyond the TCP window is wrong for segments that reach half the sequence space beyond
  it (`TcpReassembly.WindowTest`, `TcpReassembly.WindowTestFails`).
- A FIN is not reported when the bytes it came with were waiting already, or are swallowed by a later segment that
  brings them without it (`TcpFin.InsertMarks`, `TcpFin.FinExact`, `TcpFin.FinLost`; NETinet/sys/tcp_input.c:867-934).
- `allocb` loses all but one of the free data blocks of a class when the message blocks have run out
  (`StreamBlocks.AllocInv`, `StreamBlocks.AllocLosesBlock`; COMMON/os/stream.c:119-133).
- The 256th reference to a data block makes its count zero (`StreamBlocks.DupInv`, `StreamBlocks.DupOverflows`,
  `StreamBlocks.DupRunOverflows`).
- The name cache does not give up its hold on credentials when a slot is used again (`NameCache.EnterCredits`,
  `NameCache.RunCredits`, `NameCache.RunLeaks`, `NameLookup.CredentialsLeak`; COMMON/os/vfs_dnlc.c:147-174).
- A process that keeps writing nothing to a channel keeps the channels behind it from being served; writes of
  nothing to a channel itself or behind it do it no harm (`SxtTurns.StarvesExactly`, `SxtTurns.RunFair`,
  `SxtTurns.Starved`; COMMON/io/sxt.c:764-769).

## Left out

Allocator:
- Calls after a first request beyond the storage array.
- Sizes are unbounded integers, except the one that wraps around; null is -1, since header 0 is the table's first; and
  the table of headers has a fixed length.
- Printing of the tree, statistics, and masking of interrupts.

Record locks:
- FileLocks.Flino.Flckadj: asks for a sorted list, so runs with locks of both kinds are not followed beyond a step that
  misplaces a tail; FlockRun.NextExact says which step that is.
- The links between records are positions in a sequence; the file headers (`allocfid`, `freefid`), access checks and
  conversions of offsets are left out.
- Interruption of a sleeper by a signal is a sleeper that runs again.

Regular expressions:
- RegexText.MatchText: leaves out texts that end in a lone backslash, for which the compiler reads on behind the end of
  the text.
- Groups, back-references and a second range on one item are answered with "not modelled"; texts are 7-bit and
  without NUL; `locs` is null; digits of a bound do not overflow; characters are
  unsigned, as the test for an upper bound of 255 needs.

Networking:
- Mbufs are sequences of mbufs with their data: sharing of clusters, failing allocation and types are left out.
- IP headers are 20 bytes without options, checksums of headers, timeouts and `ip_slowtimo` are left out, and
  fields other than length, offset and flags are carried along by a key.
- IpReassembly.IpInput.Ipintr: dispatch to protocols, forwarding decisions and options are not modelled.
- TCP: acknowledgements, RST, urgent data, timers and states after a FIN are left out; a receiver is established or not
  yet. Counts of a socket buffer are integers.
- Checksum.InCksum: the sum of more than 32767 bytes, which a short cannot count, is not excluded by the code; `SumFits`
  says that below that the long does not overflow.

STREAMS:
- A service procedure is told to look at its queue; what it then does is a sequence of the other calls. Counts are
  integers, and high-water marks are positive.
- Message types other than by their class, `putctl`, `qreply`, `linkb`, module tables and interrupt levels.

Names:
- Names in the cache are not empty, and the cache is on.
- A mounted file system that is being unmounted (the sleep on VFS_MLOCK), and file systems other than through
  lookup, link and mount functions of a world that does not change during one translation.

Terminals:
- Raw output without delays and modes; `sxtnullproc`, input, tracing, and the calls other than setting up a link.
