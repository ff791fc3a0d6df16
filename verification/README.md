# A verified model of RocketSpeed's event engine and containers

RocketSpeed runs on libevent 2.0.21, which it carries along, and on a few containers of its own.
This project models the parts of both in which the invariants are hard to see in the code, and
proves what they are there for. All statements are for every input, every run or every
interleaving; allocation succeeds, and callbacks, the kernel, the clock and random numbers are
inputs that may do anything.

| module | models |
|---|---|
| `Chunks`, `Evbuffers` | the evbuffer: a chunk list with a total and two cached links, as one byte string |
| `EvbufferHistory` | every history of operations on two evbuffers, against two byte strings |
| `EvbufferRead` | making room, setting up vectors and reading from a socket |
| `EvbufferSearch` | searching, line ends and reading lines over any chunk layout |
| `Epoll`, `Evmap` | interest sets: counters per fd, the coalescing changelist, and what reaches the kernel |
| `TokenBucket`, `RateLimiting` | the overflow-avoiding token bucket, and suspending without losing a wakeup |
| `RateLimitGroup` | the try-lock protocol of rate-limit groups, under all interleavings |
| `DnsNames`, `DnsWriter`, `DnsResponse`, `DnsQuery` | DNS names (sections 3.1 and 4.1.4 of RFC 1035): parsing, compression with a shared table, responses and queries |
| `NameserverRing`, `RequestTable` | the circle of nameservers; requests in flight and waiting |
| `Getaddrinfo` | the two lookups of a getaddrinfo request, their timer and cancellation |
| `EventLists`, `EventQueues` | event flags and queues, common timeouts, deferred callbacks |
| `SpscQueue` | the single-producer single-consumer queue, as atomic steps |
| `Tagging` | the tagged wire format |
| `KeylessMap` | the keyless hash multimap |

Objects that the source updates in place are classes whose methods are proved against functions of
the old state. Protocols between threads or callbacks are state machines with an inductive
invariant, and a theorem about every run. `dafny verify dfyconfig.toml` checks everything.

Some properties one might expect do not hold of the code, and are stated with the condition under
which they do:

- `evbuffer_add` writes to the last chunk without moving `last_with_datap`, so it keeps that link
  right only if there is no empty chunk between (`Evbuffers.Evbuffer.Add`,
  `EvbufferRead.AddCanBreakLink`), and the assertion it meets in `evbuffer_chain_insert` can fire
  (`Chunks.AddSafeExact`, `EvbufferRead.AddCanFireAssertion`). `evbuffer_remove_buffer` loses the
  link over an empty chunk that moves along (`Evbuffers.Evbuffer.RemoveBuffer`,
  `EvbufferRead.RemoveCanBreakLink`). Reads that fail leave such lists.
- A change that cancels out is not sent to the kernel, so coalescing is the same as applying each
  call only if the kernel was in step, or there is a net change (`Epoll.CoalescingIsExact`,
  `Epoll.CoalescingCanMiss`).
- A user who cancels evdns_getaddrinfo before the first lookup has finished can be told something else:
  finishing a cancelled lookup arms the timer again, and if it fires first its error is reported
  (`Getaddrinfo.CancelIsReported`, `Getaddrinfo.CancelCanBeMissed`).
- A DNS name with an empty label before a dot is not read back (`DnsQuery.PlainRoundTrip`,
  `DnsQuery.EmptyLabelIsLost`). The terminator of a name is written without looking at the end of the
  buffer, which a response can overrun by one byte (`DnsWriter.NameWriter.WriteName`,
  `DnsWriter.TerminatorCanOverrun`) and a query cannot (`DnsQuery.BuildQuery`). A label may be copied
  from behind a packet before the name is refused (`DnsNames.NameParseLoop`,
  `DnsNames.BehindIsRefused`).
- A tagged record longer than INT_MAX is not consumed as one record unless it is the last, and not
  unmarshalled (`Tagging.ConsumeExact`, `Tagging.UnmarshalExact`), and a tag may be read behind the
  bytes pulled up for it (`Tagging.BeyondIsOverlong`).

Where code and comments differ the code is followed: tags go low seven bits first, and nibbles are
stored low ones first, unlike the comment at the head of event_tagging.c.

## Model

| member | source | states |
|---|---|---|
| `Chunks.NewChunk` | external/libevent-2.0.21/buffer.c:154-181 | the block has exactly the size that doubling from the minimum gives, is empty, and is the minimum or less than twice what was needed |
| `Chunks.AppendTo` | external/libevent-2.0.21/buffer.c:1558-1568 | a copy behind the data appends to the bytes the chunk stands for |
| `Chunks.PrependTo` | external/libevent-2.0.21/buffer.c:1644-1660 | a copy in front of the data prepends to them |
| `Chunks.Align` | external/libevent-2.0.21/buffer.c:1694-1701 | moving the data to the front of the block leaves the bytes as they are |
| `Chunks.DropFront` | external/libevent-2.0.21/buffer.c:1004-1007 | moving the start of the data on drops exactly that many bytes |
| `Chunks.LinkAfterFill` | external/libevent-2.0.21/buffer.c:1547-1568 | data put into the last chunk leaves last_with_datap right exactly if it led there already |
| `Chunks.LinkAfterInsert` | external/libevent-2.0.21/buffer.c:282-311 | after an insertion last_with_datap is right exactly if nothing was replaced, or it led to the first chunk replaced and that one was empty |
| `Chunks.LinkAfterOverflow` | external/libevent-2.0.21/buffer.c:1585-1608 | the exact condition for last_with_datap after an add that overflows into a new chunk |
| `Chunks.AddSafeExact` | external/libevent-2.0.21/buffer.c:293-305 | AddSafe, a condition on the list before an add that overflows, holds if and only if the assertion in evbuffer_chain_insert does when the new chunk is inserted |
| `Chunks.LinkAfterGather` | external/libevent-2.0.21/buffer.c:1267-1276 | where last_with_datap has to lead after the first chunks have been gathered into one |
| `Chunks.LinkAfterMove` | external/libevent-2.0.21/buffer.c:1130-1144 | after chunks were moved to the end of a list and the link has been advanced, it is right if and only if there is no empty chunk on its way |
| `Chunks.GapFires` | external/libevent-2.0.21/buffer.c:293-305 | otherwise an insertion into the list fires the assertion |
| `Chunks.DataFirstKeepsLink` | external/libevent-2.0.21/buffer.c:1114-1124 | if there is data in the first chunk whenever there is any, evbuffer_remove_buffer keeps the link of its source right |
| `Chunks.CompactTake` | external/libevent-2.0.21/buffer.c:1114-1152 | moving bytes between compact lists meets no gap, fires no assertion and breaks no link |
| `Evbuffers.Evbuffer.constructor` | external/libevent-2.0.21/buffer.c:738-744 | a new buffer is empty and consistent |
| `Evbuffers.Evbuffer.ChainInsert` | external/libevent-2.0.21/buffer.c:282-311 | the bytes of the chunk are appended; which empty chunks go and where last_with_datap leads; the source's assertion is the precondition |
| `Evbuffers.Evbuffer.AppendToLast` | external/libevent-2.0.21/buffer.c:1558-1568 | bytes appended in the last chunk, and when the link stays right |
| `Evbuffers.Evbuffer.TopUpLast` | external/libevent-2.0.21/buffer.c:1595-1601 | the last chunk is filled with the first part of the data |
| `Evbuffers.Evbuffer.AddOverflow` | external/libevent-2.0.21/buffer.c:1585-1608 | the data is appended over two chunks; exactly when the link is right afterwards |
| `Evbuffers.Evbuffer.Add` | external/libevent-2.0.21/buffer.c:1533-1617 | append, or -1 and no change when frozen; total and last stay right, and a right last_with_datap stays right if and only if AddKeepsLink; a compact list stays compact |
| `Evbuffers.Evbuffer.FillFront` | external/libevent-2.0.21/buffer.c:1637-1668 | the first chunk takes what fits of the end of the data |
| `Evbuffers.Evbuffer.PushFront` | external/libevent-2.0.21/buffer.c:1671-1684 | the rest goes into a new first chunk |
| `Evbuffers.Evbuffer.Prepend` | external/libevent-2.0.21/buffer.c:1619-1691 | prepend, or -1 and no change when frozen, for every chunk layout |
| `Evbuffers.Evbuffer.ZeroChain` | external/libevent-2.0.21/buffer.c:737-744 | the empty list |
| `Evbuffers.Evbuffer.FreeCovered` | external/libevent-2.0.21/buffer.c:975-1000 | the chunks wholly covered by a drain, and the link when it led to the last of them |
| `Evbuffers.Evbuffer.MoveFirst` | external/libevent-2.0.21/buffer.c:1000-1008 | what is left stands for the bytes behind the drained ones |
| `Evbuffers.Evbuffer.Drain` | external/libevent-2.0.21/buffer.c:950-1017 | the first bytes are dropped, all of them if there are fewer; -1 and no change when frozen |
| `Evbuffers.Evbuffer.CopyOut` | external/libevent-2.0.21/buffer.c:1034-1078 | the first bytes are copied across chunks without changing the buffer |
| `Evbuffers.Evbuffer.Remove` | external/libevent-2.0.21/buffer.c:1020-1032 | the first bytes are returned and dropped; copy and drain agree |
| `Evbuffers.Evbuffer.CopyChain` | external/libevent-2.0.21/buffer.c:812-824 | one buffer takes over the list of another |
| `Evbuffers.Evbuffer.AppendChain` | external/libevent-2.0.21/buffer.c:826-838 | the lists are joined, total and both links with them |
| `Evbuffers.Evbuffer.PrependChain` | external/libevent-2.0.21/buffer.c:840-856 | the lists are joined the other way round, total and both links with them |
| `Evbuffers.Evbuffer.AddBuffer` | external/libevent-2.0.21/buffer.c:858-902 | all bytes move to the end of the other buffer, chunk by reference; frozen, empty and self cases |
| `Evbuffers.Evbuffer.PrependBuffer` | external/libevent-2.0.21/buffer.c:904-948 | all bytes move to the front of the other buffer; frozen, empty and self cases |
| `Evbuffers.Evbuffer.AdvanceLastWithData` | external/libevent-2.0.21/buffer.c:645-659 | the link moves on over every chunk with data |
| `Evbuffers.Evbuffer.ReceiveChunks` | external/libevent-2.0.21/buffer.c:1130-1147 | chunks taken over at the end append their bytes; where the link leads, and when it is right |
| `Evbuffers.Evbuffer.Take` | external/libevent-2.0.21/buffer.c:1130-1150 | chunks are taken over and the next bytes copied behind them; exactly when the link is right afterwards |
| `Evbuffers.Evbuffer.DropBehindEmpty` | external/libevent-2.0.21/buffer.c:1114-1152 | if only empty chunks are in front of the bytes taken they stay, and the link is right unless it was reset to the first of them |
| `Evbuffers.Evbuffer.MoveSome` | external/libevent-2.0.21/buffer.c:1114-1164 | the case in which something is moved and something is left |
| `Evbuffers.Evbuffer.RemoveBuffer` | external/libevent-2.0.21/buffer.c:1083-1171 | for all valid buffers: exactly min(len, total) bytes move from the front of one buffer to the end of the other; frozen, empty and self cases; totals stay right, and the exact condition for each of the two links; that of the source always holds with data in its first chunk, which every operation keeps |
| `Evbuffers.Evbuffer.Gather` | external/libevent-2.0.21/buffer.c:1241-1257 | what has been gathered are the bytes of the chunks freed, and which of the two removal flags are set |
| `Evbuffers.Evbuffer.InstallGathered` | external/libevent-2.0.21/buffer.c:1259-1267 | the gathered chunk takes the place of those freed, for the same bytes |
| `Evbuffers.Evbuffer.PullupAcross` | external/libevent-2.0.21/buffer.c:1197-1276 | the first bytes become contiguous across chunks, with last_with_datap put right |
| `Evbuffers.Evbuffer.Pullup` | external/libevent-2.0.21/buffer.c:1173-1283 | the bytes stay the same and the first of them are contiguous; None exactly for zero bytes or more than there are; a negative size is all |
| `EvbufferHistory.Execute` | external/libevent-2.0.21/buffer.c:812-1283 | each operation on two buffers does to their bytes and answers what the byte-string specification says |
| `EvbufferHistory.CompactIsFollowed` | external/libevent-2.0.21/buffer.c:1083-1171 | on compact buffers every operation can be followed |
| `EvbufferHistory.Run` | external/libevent-2.0.21/buffer.c:858-1691 | every history of add, prepend, drain, copyout, remove, add_buffer, prepend_buffer, remove_buffer, pullup, read, readln and freezes over two buffers refines append, prepend, drop, take and concatenation on two byte strings, with equal answers, up to the first operation that breaks the link or cannot be followed; from compact buffers there is none if every read gets what it asks for; data stays in the first chunk if there is any |
| `EvbufferHistory.ObeyPipes` | external/libevent-2.0.21/buffer.c:858-1283 | one command of a pipe keeps the order of the bytes |
| `EvbufferHistory.PipeKeepsOrder` | external/libevent-2.0.21/buffer.c:858-1691 | in every history in which bytes enter one buffer, are moved to the other and leave that one, with any refusals, what has left and then what is in both is what was there and then what has come in: nothing is lost, doubled or overtaken |
| `EvbufferRead.ScanSpace` | external/libevent-2.0.21/buffer.c:1856-1876 | the space counted is that of the chunks from the first with space on; nothing with data moves |
| `EvbufferRead.AppendEmpty` | external/libevent-2.0.21/buffer.c:1881-1895 | a new empty chunk adds the missing room |
| `EvbufferRead.ReplaceEmpty` | external/libevent-2.0.21/buffer.c:1896-1934 | the empty chunks are replaced by one with the room asked for |
| `EvbufferRead.ExpandFast` | external/libevent-2.0.21/buffer.c:1830-1935 | at least datlen bytes of room in at most n chunks, no byte moved, no chunk with data touched; behind a compact list at most one chunk is added, if there is not enough space |
| `EvbufferRead.SetupVecs` | external/libevent-2.0.21/buffer.c:2001-2035 | never runs off the list; exact vectors sum to howmuch; every vector but the last fills its chunk; -1 exactly for a negative size |
| `EvbufferRead.Scatter` | external/libevent-2.0.21/buffer.c:2120-2122 | readv fills the vectors one after the other with the bytes delivered; no length changes, so the contents stay, and the space starts with exactly those bytes |
| `EvbufferRead.Commit` | external/libevent-2.0.21/buffer.c:2153-2172 | only the lengths of the chunks are raised, by n in all and chunk by chunk, and last_with_datap is moved to the last one raised: the first n bytes that were in the space become the end of the contents |
| `EvbufferRead.RaisedCompact` | external/libevent-2.0.21/buffer.c:2153-2172 | if everything asked for arrives, no chunk stays empty |
| `EvbufferRead.RaisedFirst` | external/libevent-2.0.21/buffer.c:2153-2172 | the first bytes to arrive go into the first chunk |
| `EvbufferRead.Deliver` | external/libevent-2.0.21/buffer.c:2120-2172 | filling the vectors and then raising the lengths append exactly the bytes delivered, in order |
| `EvbufferRead.Read` | external/libevent-2.0.21/buffer.c:2057-2180 | evbuffer_read appends exactly the bytes delivered, in order, for every layout; -1 when frozen or on failure, with the same contents, and what space a failed read leaves behind; a compact buffer stays compact if everything asked for arrives |
| `EvbufferRead.AddCanBreakLink` | external/libevent-2.0.21/buffer.c:1547-1568 | a new buffer with one full block, a read that fails and an add: last_with_datap is wrong afterwards |
| `EvbufferRead.AddCanFireAssertion` | external/libevent-2.0.21/buffer.c:293-305 | two reads that fail leave two empty chunks with which an add of 4049 bytes would fire the assertion |
| `EvbufferRead.RemoveCanBreakLink` | external/libevent-2.0.21/buffer.c:1130-1144 | a read that fails, evbuffer_add_buffer and evbuffer_remove_buffer: the link of the destination is wrong afterwards |
| `EvbufferSearch.ChunkAt` | external/libevent-2.0.21/buffer.c:2410-2450 | the bytes of a chunk within the byte string |
| `EvbufferSearch.Memchr` | external/libevent-2.0.21/buffer.c:1295-1315 | the first occurrence, or none |
| `EvbufferSearch.FindEolChar` | external/libevent-2.0.21/buffer.c:1317-1342 | two searches on blocks of 128 bytes find the first CR or LF |
| `EvbufferSearch.ScanFor` | external/libevent-2.0.21/buffer.c:1344-1364 | the first stop character at or after a pointer, over all chunks |
| `EvbufferSearch.PtrMatches` | external/libevent-2.0.21/buffer.c:2456-2488 | comparison across chunks is comparison of the flat bytes, both ways |
| `EvbufferSearch.Search` | external/libevent-2.0.21/buffer.c:2490-2559 | the least position at or after the start, and wholly before the end of the range if one is given, where the string occurs, or none anywhere |
| `EvbufferSearch.PtrAdd` | external/libevent-2.0.21/buffer.c:2410-2450 | a pointer moved on is at that position, exactly if that is inside the buffer |
| `EvbufferSearch.Strspn` | external/libevent-2.0.21/buffer.c:1366-1403 | the length of the longest run; -1 for a pointer to no chunk |
| `EvbufferSearch.StartsEolMeans` | external/libevent-2.0.21/buffer.c:1415-1488 | a line end is where it starts and is not empty |
| `EvbufferSearch.SearchCrlf` | external/libevent-2.0.21/buffer.c:1439-1461 | the first LF or CR LF; a CR alone is passed over |
| `EvbufferSearch.SearchEol` | external/libevent-2.0.21/buffer.c:1415-1488 | under each style the first line end a scan of the flat bytes would find, and its length |
| `EvbufferSearch.LineEndIs` | external/libevent-2.0.21/buffer.c:1415-1488 | the first line end, with its length, is the one a function of the flat bytes gives; there is only one |
| `EvbufferSearch.FourStyles` | external/libevent-2.0.21/buffer.c:1415-1488 | one string of bytes and where its first line ends in each of the four styles |
| `EvbufferSearch.Readln` | external/libevent-2.0.21/buffer.c:1490-1527 | the line before the first line end, and the line end, leave the buffer; nothing changes if there is none or the buffer is frozen |
| `Epoll.ApplyOne` | external/libevent-2.0.21/epoll.c:173-330 | whatever the kernel had for a usable fd, a change leaves exactly the interest it asks for, through the MOD and ADD retries; on an unusable fd it fails exactly if something is asked for |
| `Epoll.QueueStep` | external/libevent-2.0.21/evmap.c:646-726 | queueing one proper call moves the target of the change as the call moves the interest |
| `Epoll.QueueAllTarget` | external/libevent-2.0.21/evmap.c:646-726 | so does every series of calls |
| `Epoll.ApplyEachSettles` | external/libevent-2.0.21/epoll.c:351-383 | applying each call at once leaves the wanted interest |
| `Epoll.CoalescingIsExact` | external/libevent-2.0.21/epoll.c:173-383 | a coalesced change with a net effect leaves the wanted interest; it is the same as applying each call exactly if there were no calls, there is a net change, or the kernel was right already |
| `Epoll.CoalescingCanMiss` | external/libevent-2.0.21/evmap.c:697-716 | an add and a delete that cancel out do not repair a kernel that was out of step, as two calls would have |
| `Evmap.CountsWithout` | external/libevent-2.0.21/evmap.c:335-387 | removing an event lowers the reader and writer counts by what it counted for |
| `Evmap.ChangesDistinct` | external/libevent-2.0.21/evmap.c:615-644 | there is at most one change per fd |
| `Evmap.MentionedIff` | external/libevent-2.0.21/evmap.c:615-644 | idxplus1 and the slots of the changelist are a bijection |
| `Evmap.ApplyAll` | external/libevent-2.0.21/epoll.c:332-349 | each change meets the kernel as it was before; other fds are untouched; -1 exactly if one failed |
| `Evmap.DispatchSettles` | external/libevent-2.0.21/epoll.c:402-403 | if the kernel agreed with the last dispatch, it agrees with what is wanted now |
| `Evmap.ClearedIsTracked` | external/libevent-2.0.21/evmap.c:559-578 | after removal every entry is in step without a change |
| `Evmap.ClearSlots` | external/libevent-2.0.21/evmap.c:559-578 | every idxplus1 is zero, nothing else changes |
| `Evmap.EventBase.constructor` | external/libevent-2.0.21/event.c:582-584 | an empty table and no changes |
| `Evmap.EventBase.GetOrConstruct` | external/libevent-2.0.21/evmap.c:615-644 | the slot of the fd, new or old; the bijection is kept |
| `Evmap.EventBase.QueueChange` | external/libevent-2.0.21/evmap.c:646-726 | the queued change leads from the interest of the last dispatch to the one wanted now |
| `Evmap.EventBase.MakeSlot` | external/libevent-2.0.21/evmap.c:283-284 | an entry for an fd that had none |
| `Evmap.EventBase.CallBackend` | external/libevent-2.0.21/epoll.c:351-383 | the change is queued, or applied at once with the kernel left as wanted |
| `Evmap.EventBase.Store` | external/libevent-2.0.21/evmap.c:314-330 | the new counts are kept exactly if the backend accepts |
| `Evmap.EventBase.IoAdd` | external/libevent-2.0.21/evmap.c:262-331 | nread and nwrite stay the numbers of events in the list; the result is -1, 0 or 1, with the condition for each, and the list gains the event exactly if it is not -1; the kernel stays up to date without a changelist |
| `Evmap.EventBase.IoDel` | external/libevent-2.0.21/evmap.c:335-387 | the result is -1, 0 or 1: -1 exactly for an fd without an entry, or when the backend is told at once, refuses the fd and some interest would be left; otherwise the event leaves the list and the counts |
| `Evmap.EventBase.ApplyChanges` | external/libevent-2.0.21/epoll.c:332-349 | every fd with a change gets it, every other stays as it was |
| `Evmap.EventBase.RemoveAll` | external/libevent-2.0.21/evmap.c:559-578 | the changelist is empty and all entries are marked so |
| `Evmap.EventBase.Dispatch` | external/libevent-2.0.21/epoll.c:402-403 | after each dispatch the kernel holds exactly the wanted interest of every usable fd, if it did after the one before |
| `Evmap.CountsAre` | external/libevent-2.0.21/evmap.c:262-331 | the counts of an entry are the numbers of readers and writers among the set of events that wait on the fd |
| `Evmap.EventBase.EnterOne` | external/libevent-2.0.21/evmap.c:262-331 | an add, on the set of events that wait: its answer and the set afterwards |
| `Evmap.EventBase.LeaveOne` | external/libevent-2.0.21/evmap.c:335-387 | a delete, on that set |
| `Evmap.EventBase.SettleAll` | external/libevent-2.0.21/epoll.c:402-403 | a dispatch, on that set: the kernel has been told of all that wait |
| `Evmap.EventBase.Serve` | external/libevent-2.0.21/evmap.c:262-387 | over every series of adds, deletes and dispatches, with or without a changelist: which events wait in the end, every answer, and that for every usable fd the kernel has exactly the interest of the events that waited at the last dispatch, which after a final dispatch are those that wait |
| `Evmap.AnswerMeans` | external/libevent-2.0.21/evmap.c:262-387 | what the answers mean: 1 that the interest in the fd has changed, 0 that it has not, -1 that nothing was done, exactly for an event too many or a change of interest that the kernel refuses |
| `Evmap.InterestMeans` | external/libevent-2.0.21/evmap.c:262-387 | an fd is of interest in a direction exactly if an event that waits on it is |
| `Evmap.PlaySettled` | external/libevent-2.0.21/epoll.c:402-403 | a dispatch at the end tells the kernel of everything that waits |
| `Getaddrinfo.ReplyKeepsInv` | external/libevent-2.0.21/evdns.c:4280-4300 | a reply keeps the invariant |
| `Getaddrinfo.BeginKeepsInv` | external/libevent-2.0.21/evdns.c:4280-4330 | the locked part of the callback keeps it |
| `Getaddrinfo.UserCancelKeepsInv` | external/libevent-2.0.21/evdns.c:4640-4655 | a cancel by the user keeps it |
| `Getaddrinfo.UserCancelDoes` | external/libevent-2.0.21/evdns.c:4640-4655 | a cancel stops the timer and cancels exactly the lookups that are not scheduled yet, unless the last callback has begun; nothing else changes |
| `Getaddrinfo.BeginDoes` | external/libevent-2.0.21/evdns.c:4280-4330 | a callback that begins notes whether the user has cancelled, and the request is done exactly if the other lookup is over; nothing else changes |
| `Getaddrinfo.TimeoutKeepsInv` | external/libevent-2.0.21/evdns.c:4214-4264 | the skew timer keeps it |
| `Getaddrinfo.TimeoutCall` | external/libevent-2.0.21/evdns.c:4214-4264 | without a cancellation the user gets everything found so far, or the code of the lookup that has finished if nothing was |
| `Getaddrinfo.TimeoutDoes` | external/libevent-2.0.21/evdns.c:4214-4264 | the timer tells the user what was found, or the error kept, cancels a lookup that is not scheduled yet, and keeps the record |
| `Getaddrinfo.LastCall` | external/libevent-2.0.21/evdns.c:4331-4455 | what the user is told when the last lookup finishes: the joint addresses, IPv4 ones first; with none the code for its reply, no data, no name or failure; or that it was cancelled |
| `Getaddrinfo.LastFrees` | external/libevent-2.0.21/evdns.c:4331-4455 | the record, which was not freed before, is freed then, and neither lookup is outstanding |
| `Getaddrinfo.FinishFirst` | external/libevent-2.0.21/evdns.c:4331-4455 | finishing the first of two lookups keeps the invariant |
| `Getaddrinfo.FinishFirstDoes` | external/libevent-2.0.21/evdns.c:4331-4455 | what the first lookup found, or the code of its error, is kept, the timer is armed unless the user has cancelled and something was found, and the user is not called |
| `Getaddrinfo.FinishLast` | external/libevent-2.0.21/evdns.c:4331-4455 | finishing the last one keeps it and frees the record |
| `Getaddrinfo.StepKeepsInv` | external/libevent-2.0.21/evdns.c:4214-4455 | every step keeps the invariant |
| `Getaddrinfo.EveryRunIsSafe` | external/libevent-2.0.21/evdns.c:4214-4455 | in every interleaving the callback has run exactly once when the record is freed, which happens at most once and only after both lookups; a joint success lists IPv4 first |
| `Getaddrinfo.AnswersReachTheUser` | external/libevent-2.0.21/evdns.c:4280-4455 | in every run without cancel and timeout both lookups are answered before the record is freed, and the one call of the user has all their addresses, IPv4 ones first, or an error exactly if there are none |
| `Getaddrinfo.CancelIsReported` | external/libevent-2.0.21/evdns.c:4640-4655 | in every run, a user who cancels before they are called and before the last callback begins is told so, and only that, if and only if the timer does not fire afterwards |
| `Getaddrinfo.CancelCanBeMissed` | external/libevent-2.0.21/evdns.c:4346-4355 | a run in which finishing a cancelled lookup arms the timer again and the user gets a failure instead |
| `Getaddrinfo.EveryRunCanEnd` | external/libevent-2.0.21/evdns.c:4280-4455 | from every reachable state, and for all replies, the lookups can be finished until the record is freed |
| `Getaddrinfo.NoDanglingHandle` | external/libevent-2.0.21/evdns.c:2776-2809 | in every interleaving a handle that is kept belongs to a lookup that is outstanding, and the timer only runs for a live record |
| `RateLimitGroup.VisitKeepsInv` | external/libevent-2.0.21/bufferevent_ratelim.c:350-374 | suspending or unsuspending one member under try-lock keeps the invariant |
| `RateLimitGroup.StepKeepsInv` | external/libevent-2.0.21/bufferevent_ratelim.c:473-556 | every step of every thread keeps it |
| `RateLimitGroup.NobodyIsForgotten` | external/libevent-2.0.21/bufferevent_ratelim.c:731-806 | in every interleaving pending_unsuspend implies not suspended, and a member that is choked belongs to a group that is suspended or pending |
| `RateLimitGroup.OnlyUnderLock` | external/libevent-2.0.21/bufferevent_ratelim.c:350-374 | no step suspends, releases, adds or removes a bufferevent whose lock another thread has |
| `RateLimitGroup.LookAtLimitDoes` | external/libevent-2.0.21/bufferevent_ratelim.c:226-250 | a member that looks at its limit while the group is suspended is suspended, and nothing else changes |
| `RateLimitGroup.AddDoes` | external/libevent-2.0.21/bufferevent_ratelim.c:731-776 | an undisturbed add: a member of the group, suspended if the group is |
| `RateLimitGroup.EndAddDoes` | external/libevent-2.0.21/bufferevent_ratelim.c:764-772 | the second half of an add acts on what the first half saw under the group lock |
| `RateLimitGroup.RemoveDoes` | external/libevent-2.0.21/bufferevent_ratelim.c:778-806 | an undisturbed remove: no member, and not suspended for the group |
| `RateLimitGroup.LockDoes` | external/libevent-2.0.21/bufferevent_ratelim.c:731-776 | a lock can be had exactly if nobody has it, and giving it back undoes it |
| `RateLimitGroup.OwnerCanAct` | external/libevent-2.0.21/bufferevent_ratelim.c:731-806 | with the lock of a bufferevent and the group lock free nothing is in the way of an operation on it |
| `RateLimitGroup.FinishVisits` | external/libevent-2.0.21/bufferevent_ratelim.c:473-503 | the rest of a suspend or an unsuspend, and what it keeps |
| `RateLimitGroup.FinishVisitsDoes` | external/libevent-2.0.21/bufferevent_ratelim.c:350-374 | exactly the members still to be visited whose lock can be had are suspended or released, and an unsuspend is owed for the others |
| `RateLimitGroup.SuspendReaches` | external/libevent-2.0.21/bufferevent_ratelim.c:350-374 | an undisturbed suspend suspends exactly the members whose lock can be had, and cancels an unsuspend that is owed |
| `RateLimitGroup.UnsuspendReaches` | external/libevent-2.0.21/bufferevent_ratelim.c:473-526 | an undisturbed unsuspend releases exactly the members whose lock can be had, and another one is owed if and only if there is a member whose lock cannot |
| `RateLimitGroup.UnsuspendReleases` | external/libevent-2.0.21/bufferevent_ratelim.c:486-503 | when every member can be locked, an unsuspend releases every member and leaves nothing pending |
| `RateLimitGroup.GroupCanAct` | external/libevent-2.0.21/bufferevent_ratelim.c:527-556 | while nobody holds the group lock the refill callback can suspend and unsuspend |
| `SpscQueue.InvBasics` | external/folly/producer_consumer_queue.h:78-118 | no live slot is overwritten and no unconstructed slot is read; the empty and full tests are exact |
| `SpscQueue.ChecksAreExact` | external/folly/producer_consumer_queue.h:78-118 | a write finds room if and only if fewer than size-1 values are stored, and a read finds a record if and only if one is; the checks change nothing else |
| `SpscQueue.WriteDoes` | external/folly/producer_consumer_queue.h:78-95 | once room was found the value is constructed in a free slot and then counts as written, behind all others |
| `SpscQueue.ReadDoes` | external/folly/producer_consumer_queue.h:97-140 | once a record was found the oldest value not taken is moved out, its slot is cleared, and then it counts as taken; the same without moving it out |
| `SpscQueue.StepKeepsInv` | external/folly/producer_consumer_queue.h:78-140 | every atomic step of either side keeps the invariant |
| `SpscQueue.RunSnoc` | external/folly/producer_consumer_queue.h:78-140 | a run can go on with exactly the steps that are enabled where it ends |
| `SpscQueue.EveryRunIsFifo` | external/folly/producer_consumer_queue.h:78-140 | in every interleaving the values read are a prefix of those written, and at most size-1 are stored, for the size the queue was made with |
| `SpscQueue.SizeGuessIsSize` | external/folly/producer_consumer_queue.h:157-166 | with both indices loaded at once the guess is the size |
| `SpscQueue.SizeGuessBounds` | external/folly/producer_consumer_queue.h:152-166 | by the time it is used the guess is never too low for the producer nor too high for the consumer |
| `SpscQueue.NewQueue` | external/folly/producer_consumer_queue.h:50-60 | the invariant holds of a new queue, and nothing has been written |
| `SpscQueue.Destruct` | external/folly/producer_consumer_queue.h:62-76 | the destructor destroys exactly the values written and not taken, in order, and leaves no record constructed |
| `DnsNames.ParseFrom` | external/libevent-2.0.21/evdns.c:935-989 | terminates on every packet, by jumps left and then bytes left; the name fits the buffer and extends what was parsed |
| `DnsNames.NameParseLoop` | external/libevent-2.0.21/evdns.c:935-989 | the loop computes ParseFrom, for every packet, offset and buffer size, and copies bytes from behind the packet exactly if CopiesBehind says so |
| `DnsNames.BehindIsRefused` | external/libevent-2.0.21/evdns.c:974-984 | a name for which bytes from behind the packet are copied is refused all the same |
| `DnsNames.CanCopyBehind` | external/libevent-2.0.21/evdns.c:974-984 | a packet for which they are |
| `DnsNames.StillSpells` | external/libevent-2.0.21/evdns.c:1577-1641 | bytes appended later, and a length filled in later, never change what a position spells |
| `DnsNames.StillEnds` | external/libevent-2.0.21/evdns.c:1577-1641 | nor where a name ends |
| `DnsNames.SpelledIsParsed` | external/libevent-2.0.21/evdns.c:953-989 | bytes that spell labels, through any pointers, are parsed as exactly those labels |
| `DnsNames.PointerOnTheWire` | external/libevent-2.0.21/evdns.c:958-970 | the bytes of a name that ends in a pointer, and what they are read as |
| `DnsWriter.LabelsJoin` | external/libevent-2.0.21/evdns.c:1603-1632 | the labels of a name joined by dots are the name, without a trailing dot |
| `DnsWriter.WrittenParses` | external/libevent-2.0.21/evdns.c:935-989 | a name that was written is parsed back, with its end, whatever was written since |
| `DnsWriter.TableContinues` | external/libevent-2.0.21/evdns.c:1549-1565 | every table entry keeps decoding to its suffix under later writes |
| `DnsWriter.PendingDone` | external/libevent-2.0.21/evdns.c:1603-1632 | when the end of a name is there, the name and each suffix with an entry are spelled |
| `DnsWriter.PointerSpells` | external/libevent-2.0.21/evdns.c:1606-1609 | a pointer to a place spells what the place spells |
| `DnsWriter.NameWriter.constructor` | external/libevent-2.0.21/evdns.c:1518-1523 | an empty table |
| `DnsWriter.NameWriter.Append` | external/libevent-2.0.21/evdns.c:1585-1598 | bytes that are no name are appended exactly if they fit; names and table stay good |
| `DnsWriter.NameWriter.Reserve` | external/libevent-2.0.21/evdns.c:1926-1928 | the place of a length is left open |
| `DnsWriter.NameWriter.FillIn` | external/libevent-2.0.21/evdns.c:1933-1934 | the length is filled in; names and table stay good |
| `DnsWriter.NameWriter.Find` | external/libevent-2.0.21/evdns.c:1537-1546 | an entry for the suffix, or none is in the table |
| `DnsWriter.NameWriter.TableAdd` | external/libevent-2.0.21/evdns.c:1549-1565 | an entry for what is left of the name, unless the table is full |
| `DnsWriter.NameWriter.PutPointer` | external/libevent-2.0.21/evdns.c:1606-1609 | a pointer ends the name: the name and all its new suffixes are spelled |
| `DnsWriter.NameWriter.PutLabel` | external/libevent-2.0.21/evdns.c:1620-1632 | one more label; an empty one cuts off what can be claimed of the name so far |
| `DnsWriter.NameWriter.PutLast` | external/libevent-2.0.21/evdns.c:1611-1638 | the last label and the terminator complete the name |
| `DnsWriter.NameWriter.WriteName` | external/libevent-2.0.21/evdns.c:1577-1641 | the end of the name, the suffixes remembered and the error code are exactly those of the layout; with a shared table, every name with no empty label before a dot parses back now and after all later writes; a name of at most 255 bytes with labels of at most 63 is written if two more bytes than its length are free; when the terminator goes one byte past the end; a name that was written is remembered unless the table is full |
| `DnsWriter.NameWriter.WriteLabels` | external/libevent-2.0.21/evdns.c:1603-1641 | the loop: it ends where the layout says, with the suffixes it says, and fails with the code it says |
| `DnsWriter.PlaceRoom` | external/libevent-2.0.21/evdns.c:1603-1641 | a name never takes more than two bytes besides its own, and is placed if that room is there and its labels are short |
| `DnsWriter.PlaceUnknown` | external/libevent-2.0.21/evdns.c:1611-1637 | with no suffix to point to, exactly when a name is placed and how far it reaches |
| `DnsWriter.PlaceKnown` | external/libevent-2.0.21/evdns.c:1606-1609 | with a suffix to point to a name never goes past the end |
| `DnsWriter.PlaceRemembers` | external/libevent-2.0.21/evdns.c:1549-1565 | a name that was placed is remembered unless the table is full |
| `DnsWriter.TerminatorCanOverrun` | external/libevent-2.0.21/evdns.c:1633-1637 | a name of one byte behind 1498 others in the buffer of 1500 bytes for a response ends at 1501 |
| `DnsResponse.QuestionRead` | external/libevent-2.0.21/evdns.c:1234-1250 | a question that was written is read back |
| `DnsResponse.ItemRead` | external/libevent-2.0.21/evdns.c:1073-1160 | a record that was written is read back, with the announced length right |
| `DnsResponse.QuestionsRead` | external/libevent-2.0.21/evdns.c:1234-1250 | so are all the questions one after the other |
| `DnsResponse.ItemsRead` | external/libevent-2.0.21/evdns.c:1073-1160 | and all the records |
| `DnsResponse.WriteQuestion` | external/libevent-2.0.21/evdns.c:1895-1904 | a question is laid down at the end of the packet, as far as the layout says; the failure codes |
| `DnsResponse.WriteNameData` | external/libevent-2.0.21/evdns.c:1925-1934 | a record with a name as its data gets the length of what was written |
| `DnsResponse.WriteData` | external/libevent-2.0.21/evdns.c:1935-1941 | a record with bytes as its data, exactly if it fits |
| `DnsResponse.WriteItem` | external/libevent-2.0.21/evdns.c:1915-1943 | a record is laid down at the end of the packet, as far as the layout says |
| `DnsResponse.WriteQuestions` | external/libevent-2.0.21/evdns.c:1895-1904 | all questions are laid down in order, as far as the layout says |
| `DnsResponse.WriteItems` | external/libevent-2.0.21/evdns.c:1906-1944 | all records are laid down in order, as far as the layout says |
| `DnsResponse.MarkTruncated` | external/libevent-2.0.21/evdns.c:1946-1950 | exactly 512 bytes, the truncation bit set, otherwise what was in the buffer |
| `DnsResponse.FormatResponse` | external/libevent-2.0.21/evdns.c:1868-1963 | the first twelve bytes are identifier, flags and the four counts, as section 4.1.1 of RFC 1035 orders them. It fails exactly for a bad err or a question whose name cannot be placed, with its code; the response is whole exactly if the compressed layout places everything within 512 bytes, and has that length; otherwise only the truncation bit is added to the flags. With well-formed names the questions and then the records of each section are read back, up to the end; from a truncated response the questions if there is room for them |
| `DnsResponse.HeaderSaid` | external/libevent-2.0.21/evdns.c:1888-1893 | the header, byte by byte |
| `DnsResponse.MarkedSays` | external/libevent-2.0.21/evdns.c:1946-1950 | truncation sets its bit in the header and changes nothing else there |
| `DnsResponse.SectionsApart` | external/libevent-2.0.21/evdns.c:1906-1944 | the records of each section are read back one section behind the other |
| `DnsResponse.QuestionFixed` | external/libevent-2.0.21/evdns.c:1903-1904 | type and class, high byte first |
| `DnsResponse.ItemFixed` | external/libevent-2.0.21/evdns.c:1922-1924 | type, class and time to live, high byte first |
| `DnsResponse.KnownNames` | external/libevent-2.0.21/evdns.c:1915-1942 | records with a name that was written before take two bytes for it |
| `DnsResponse.CompressionFits` | external/libevent-2.0.21/evdns.c:1868-1963 | a response that is whole thanks to compression alone |
| `DnsResponse.ResponseFlags` | external/libevent-2.0.21/evdns.c:1882-1885 | the response bit is set and the error code is or-ed in, the bits between are those of the request |
| `DnsResponse.TruncatedRead` | external/libevent-2.0.21/evdns.c:1946-1950 | the questions are read back from a truncated response that has room for them |
| `DnsResponse.ResponseRead` | external/libevent-2.0.21/evdns.c:1895-1944 | questions and records that were laid down decode to themselves, up to the end of the packet |
| `DnsQuery.PlainParses` | external/libevent-2.0.21/evdns.c:1603-1639 | a name without empty labels, written without a table, is parsed back |
| `DnsQuery.PlainStops` | external/libevent-2.0.21/evdns.c:1603-1639 | with an empty label the parse stops before the end, if it does not fail |
| `DnsQuery.PlainRoundTrip` | external/libevent-2.0.21/evdns.c:1577-1641 | a name written without a table parses back to its end if and only if no label before a dot is empty |
| `DnsQuery.EmptyLabelIsLost` | external/libevent-2.0.21/evdns.c:1603-1639 | a name with an empty label that parses back as the root |
| `DnsQuery.OnTheWire` | external/libevent-2.0.21/evdns.c:1603-1639 | the bytes of a.b |
| `DnsQuery.WritePlain` | external/libevent-2.0.21/evdns.c:1577-1641 | the loop without a table writes the name if and only if its length, its labels and the room allow; the terminator goes past the end if and only if the labels of a name that does not end in a dot reach up to it |
| `DnsQuery.BuildQuery` | external/libevent-2.0.21/evdns.c:1657-1684 | the header has the identifier, only the bit for recursion set, one question and no records; the question of a query is read back up to the end of the query if and only if no label before a dot is empty; when bytes go past the end of the buffer; a buffer of evdns_request_len is always large enough and never overrun |
| `DnsQuery.QueryRead` | external/libevent-2.0.21/evdns.c:1234-1250 | the equivalence for the bytes of a query |
| `NameserverRing.Nameservers.Pick` | external/libevent-2.0.21/evdns.c:1312-1345 | with a server up, the first one up from the head on is picked within one lap and goes to the end of the rotation; the assertion never fires; without one the head moves on by one and that server is picked |
| `NameserverRing.Nameservers.PickMany` | external/libevent-2.0.21/evdns.c:1312-1345 | any number of picks goes round the servers that are up, in order |
| `NameserverRing.EachOnce` | external/libevent-2.0.21/evdns.c:1312-1345 | k picks over k servers that are up return each exactly once |
| `NameserverRing.UpsAfterPick` | external/libevent-2.0.21/evdns.c:1326-1332 | the rotation of the servers that are up after one pick |
| `NameserverRing.NotRound` | external/libevent-2.0.21/evdns.c:1334-1341 | with a server up the search does not get back to where it started |
| `NameserverRing.Nameservers.Add` | external/libevent-2.0.21/evdns.c:2504-2517 | a new server, counted as good, behind the head |
| `NameserverRing.Nameservers.SetState` | external/libevent-2.0.21/evdns.c:556-635 | failing and coming back keep the count equal to the number of servers that are up |
| `NameserverRing.Nameservers.Clear` | external/libevent-2.0.21/evdns.c:2388-2389 | no servers, none good |
| `NameserverRing.Nameservers.constructor` | external/libevent-2.0.21/evdns.c:2388-2389 | no servers, none good |
| `RequestTable.Requests.constructor` | external/libevent-2.0.21/evdns.c:3828-3860 | no requests; the counters are zero |
| `RequestTable.Requests.Find` | external/libevent-2.0.21/evdns.c:478-493 | looking into one bucket decides for the whole table |
| `RequestTable.Requests.InsertInflight` | external/libevent-2.0.21/evdns.c:2655-2669 | one more request, in the bucket of its transaction id; the counter is the size |
| `RequestTable.Requests.Submit` | external/libevent-2.0.21/evdns.c:2758-2773 | in flight exactly with a nameserver; otherwise at the end of the waiting queue |
| `RequestTable.Requests.PromoteOne` | external/libevent-2.0.21/evdns.c:736-750 | the head of the waiting queue goes in flight with a new id and the nameserver whose turn it is |
| `RequestTable.Requests.Pump` | external/libevent-2.0.21/evdns.c:730-751 | exactly as many requests as there is room for are promoted, in the order in which they wait, and the servers that are up take turns; afterwards none waits or the limit is reached |
| `RequestTable.Requests.FinishInflight` | external/libevent-2.0.21/evdns.c:647-697 | the request leaves the table and exactly as many as there is then room for are promoted, in order and to servers that are up; the number in flight does not go above the limit unless it was above it; nothing else is lost or added |
| `RequestTable.Requests.RemoveInflight` | external/libevent-2.0.21/evdns.c:2616-2652 | the request is found in the bucket of its id and leaves it |
| `RequestTable.Requests.Cancel` | external/libevent-2.0.21/evdns.c:2776-2809 | the nameserver tells which list a request is on, so it leaves the right one; then exactly as many as there is room for are promoted from what is left of the queue, in order and to servers that are up |
| `RequestTable.Requests.CancelWaiting` | external/libevent-2.0.21/evdns.c:2799-2808 | the same for a request that waits |
| `RequestTable.Requests.ServerFailed` | external/libevent-2.0.21/evdns.c:556-613 | the server counts as failed; with another one up, no request still to be sent stays with it, those moved have a server that is up, and no other request changes |
| `RequestTable.Requests.ReassignBucket` | external/libevent-2.0.21/evdns.c:600-612 | one bucket of that |
| `RequestTable.Requests.SetMaxInflight` | external/libevent-2.0.21/evdns.c:3314-3343 | the same requests in a new number of buckets, each in its place |
| `RequestTable.Rehash` | external/libevent-2.0.21/evdns.c:3328-3338 | the rehash preserves the requests and puts each in bucket trans_id mod n |
| `RequestTable.MoveBucket` | external/libevent-2.0.21/evdns.c:3329-3336 | one old bucket is emptied into the new ones |
| `RequestTable.Requests.ClearAndSuspend` | external/libevent-2.0.21/evdns.c:2359-2422 | all requests in flight wait, in front of those that waited, and the counters move over |
| `RequestTable.Requests.SuspendBucket` | external/libevent-2.0.21/evdns.c:2391-2418 | one bucket of that |
| `RequestTable.PutBackIs` | external/libevent-2.0.21/evdns.c:2404-2409 | those put back are in front, last visited first, without id, server or transmissions; those that waited follow as before |
| `RequestTable.JoinParts` | external/libevent-2.0.21/evdns.c:2391-2418 | all requests in flight are visited, bucket by bucket |
| `TokenBucket.RefillExact` | external/libevent-2.0.21/bufferevent_ratelim.c:92-109 | the overflow-avoiding update equals min(maximum, limit + ticks*rate) if and only if the limit is not above the maximum, or the refill reaches the wrapped room; from above the maximum it keeps growing |
| `TokenBucket.UpdateIs` | external/libevent-2.0.21/bufferevent_ratelim.c:72-109 | an update is that for the ticks elapsed, moves the time of the last update there unless none have, and keeps limits below their maxima |
| `TokenBucket.UpdatesAddUp` | external/libevent-2.0.21/bufferevent_ratelim.c:72-109 | any series of updates, with the clock going forward or back, amounts to one refill for the ticks taken into account |
| `TokenBucket.SplitUpdates` | external/libevent-2.0.21/bufferevent_ratelim.c:72-123 | splitting an interval into several updates changes nothing, across the 32-bit wrap of the tick |
| `TokenBucket.SplitClock` | external/libevent-2.0.21/bufferevent_ratelim.c:112-139 | updates at any readings of a clock that goes forward amount to one refill for the whole ticks between the first reading and the last, through the division into ticks and their 32-bit wrap |
| `TokenBucket.SteadyElapsed` | external/libevent-2.0.21/bufferevent_ratelim.c:77-84 | ticks counted modulo 2^32 add up to the true number |
| `TokenBucket.TickGap` | external/libevent-2.0.21/bufferevent_ratelim.c:77-84 | the unsigned difference of two wrapped ticks is their distance |
| `TokenBucket.Whole` | external/libevent-2.0.21/bufferevent_ratelim.c:125-139 | the ticks on a clock are those that went by wholly |
| `RateLimiting.Suspend` | external/libevent-2.0.21/bufferevent.c:65-75 | a direction runs exactly if it is enabled and not suspended |
| `RateLimiting.Unsuspend` | external/libevent-2.0.21/bufferevent.c:77-87 | the same after a reason to suspend is gone |
| `RateLimiting.Bufferevent.constructor` | external/libevent-2.0.21/bufferevent_ratelim.c:558-592 | no limit, nothing suspended |
| `RateLimiting.Bufferevent.ChokeLane` | external/libevent-2.0.21/bufferevent.c:65-111 | another reason to suspend stops the direction and keeps the invariant |
| `RateLimiting.Bufferevent.ReleaseLane` | external/libevent-2.0.21/bufferevent.c:77-111 | a reason less keeps it |
| `RateLimiting.Bufferevent.EnableLane` | external/libevent-2.0.21/bufferevent.c:406-427 | enabling runs a direction exactly if it is not suspended, and leaves the reasons to suspend it |
| `RateLimiting.Bufferevent.DisableLane` | external/libevent-2.0.21/bufferevent.c:497-510 | disabling stops it, and leaves the reasons to suspend it |
| `RateLimiting.Bufferevent.UpdateBuckets` | external/libevent-2.0.21/bufferevent_ratelim.c:112-123 | limits are refilled for exactly the ticks elapsed, and never fall by it |
| `RateLimiting.Bufferevent.GetMax` | external/libevent-2.0.21/bufferevent_ratelim.c:199-260 | both limits are refilled for the ticks since the last update. Without a group that limit, or 16384 without one, is the result; in a suspended group it is zero; otherwise the smaller of it and the share, which is the larger of the minimal share and the quotient toward zero of the limit of the group by its members; never negative. A member of a suspended group is suspended on the way |
| `RateLimiting.Quotient` | external/libevent-2.0.21/bufferevent_ratelim.c:248 | division toward zero, by the bounds of its multiple |
| `RateLimiting.Bufferevent.Decrement` | external/libevent-2.0.21/bufferevent_ratelim.c:274-348 | for any amount, given back too: afterwards the direction is suspended for bandwidth exactly if its limit is used up, and then the timer is pending; the timer is called off exactly if this direction alone was waiting for it; the other direction stays; no wakeup is lost even above the maximum |
| `RateLimiting.Bufferevent.DecrementLimit` | external/libevent-2.0.21/bufferevent_ratelim.c:900-954 | acting only on a change of sign is enough to lose no wakeup, for any amount |
| `RateLimiting.Bufferevent.FireTimer` | external/libevent-2.0.21/bufferevent_ratelim.c:395-403 | the timer becomes due |
| `RateLimiting.Bufferevent.RefillCallback` | external/libevent-2.0.21/bufferevent_ratelim.c:395-441 | a direction is suspended for bandwidth afterwards exactly if limit and ticks times rate together are not above zero, so it is resumed as soon as they are; and then the timer is pending again |
| `RateLimiting.Bufferevent.SetRateLimit` | external/libevent-2.0.21/bufferevent_ratelim.c:558-635 | a new limit starts with one tick's worth, a changed one keeps what is left up to the new maximum, an unchanged one changes nothing, and a removed one releases; suspended exactly if empty, and no wakeup lost |
| `RateLimiting.Bufferevent.TransferSome` | external/libevent-2.0.21/bufferevent_ratelim.c:199-295 | without a group exactly the smaller of what is wanted and of the refilled limit moves, with a group no more than its share, in a suspended one nothing; the limit falls by that and never below zero by it; suspended for bandwidth exactly if it is used up; the timer, and that the other direction stays |
| `RateLimiting.Bufferevent.Perform` | external/libevent-2.0.21/bufferevent_ratelim.c:199-441 | each operation moves what the specification says and leaves the state it says, with the invariant: empty implies suspended, suspended implies the timer is on its way |
| `RateLimiting.Bufferevent.Serve` | external/libevent-2.0.21/bufferevent_ratelim.c:199-441 | every run moves, operation by operation, what the specification says; in each direction the sum is at most the first limit plus rate times the ticks that went by |
| `RateLimiting.StepAccount` | external/libevent-2.0.21/bufferevent_ratelim.c:199-441 | one operation pays for what it moves: the limit falls by it and rises by at most rate times the ticks taken into account |
| `RateLimiting.StepDoes` | external/libevent-2.0.21/bufferevent_ratelim.c:395-441 | what every other operation does: the timer becomes active exactly if it was pending, a callback that is not due does nothing, and suspending, releasing, enabling and disabling touch one direction, which then runs if and only if it is enabled and nothing suspends it |
| `RateLimiting.RunSnoc` | external/libevent-2.0.21/bufferevent_ratelim.c:199-441 | a run goes on from where it was, with the bytes and ticks of the next operation |
| `RateLimiting.TotalSplits` | external/libevent-2.0.21/bufferevent_ratelim.c:199-441 | what a run moves in a direction is what its parts move |
| `RateLimiting.WakesUp` | external/libevent-2.0.21/bufferevent_ratelim.c:395-441 | a direction suspended for bandwidth goes on after the timer is due and its callback has run if and only if the ticks have brought more than it was overdrawn by; otherwise the timer is set again |
| `RateLimiting.RunBound` | external/libevent-2.0.21/bufferevent_ratelim.c:199-441 | over every run the bytes moved in a direction are at most the first limit plus rate times the ticks taken into account |
| `RateLimiting.RunBoundSteady` | external/libevent-2.0.21/bufferevent_ratelim.c:72-139 | on a clock that goes forward those are the ticks between the last update before the run and the last one in it |
| `EventLists.InsertInOrder` | external/libevent-2.0.21/event.c:2541-2570 | the event goes behind all that are not later, and the list stays sorted |
| `EventLists.ListsRemove` | external/libevent-2.0.21/event.c:2517-2530 | removal takes exactly one event off a list |
| `EventLists.MarkMemberships` | external/libevent-2.0.21/event.c:2512-2513 | one membership more or less, unless the event is internal |
| `EventLists.AgreeTimeout` | external/libevent-2.0.21/event.c:2523-2532 | flags and queues agree after a timeout is queued or taken back |
| `EventLists.TimelyAfter` | external/libevent-2.0.21/event.c:2131-2165 | moving an event that is no timer makes no other list late |
| `EventLists.TimerChanged` | external/libevent-2.0.21/event.c:1144-1151 | a timer set for the head of its list makes the list timely |
| `EventLists.CallbackOver` | external/libevent-2.0.21/event.c:1156-1177 | when the callback of a timer returns, its list is empty or the timer is pending |
| `EventLists.ShiftedTimely` | external/libevent-2.0.21/event.c:2422-2472 | moving all deadlines keeps every list timely |
| `EventLists.FiringNext` | external/libevent-2.0.21/event.c:2488-2497 | taking the earliest event each time keeps those that fired in order of their deadlines |
| `EventLists.RequeuedAllIs` | external/libevent-2.0.21/event.c:2488-2497 | in every active queue those that did not fire come first, as they were, and behind them those that did, in the order in which they fired |
| `EventLists.RetimedIo` | external/libevent-2.0.21/event.c:2070-2123 | inserting an event on its descriptor does not matter to the active queues |
| `EventQueues.Base.constructor` | external/libevent-2.0.21/event.c:552-640 | empty queues, zero counters |
| `EventQueues.Base.Assign` | external/libevent-2.0.21/event.c:1717-1760 | a new event is what it was made as, is on no queue, and changes no other |
| `EventQueues.Base.NewCommon` | external/libevent-2.0.21/event.c:1229-1247 | a new list is empty and has an internal timer that is on no queue |
| `EventQueues.Base.QueueInserted` | external/libevent-2.0.21/event.c:2502-2612 | flag, queue and event_count move together |
| `EventQueues.Base.QueueActive` | external/libevent-2.0.21/event.c:2502-2612 | flag, queue of the priority, event_count and event_count_active move together |
| `EventQueues.Base.InsertTimeout` | external/libevent-2.0.21/event.c:2572-2612 | into the heap or the sorted list; heads of lists only become the event itself or later |
| `EventQueues.Base.RemoveTimeout` | external/libevent-2.0.21/event.c:2502-2539 | out of the heap or the list; heads of lists only become later |
| `EventQueues.Base.DelInternal` | external/libevent-2.0.21/event.c:2196-2264 | the event is off all queues and nothing else changes, the order of the active queues included |
| `EventQueues.Base.ActiveNolock` | external/libevent-2.0.21/event.c:2288-2327 | the event is active once, at the tail of the queue of its priority if it was not yet, with the results joined |
| `EventQueues.Base.Unschedule` | external/libevent-2.0.21/event.c:2098-2123 | an earlier timeout is taken back, pending or due |
| `EventQueues.Base.SetTimeout` | external/libevent-2.0.21/event.c:2098-2148 | the new deadline replaces the old one |
| `EventQueues.Base.ScheduleTimer` | external/libevent-2.0.21/event.c:1144-1151 | the shared timer is pending for the head of the list |
| `EventQueues.Base.AddTimeout` | external/libevent-2.0.21/event.c:2098-2165 | a new head of a common list gets the shared timer, set for its deadline; which of the two events leave the active queues; no other event changes |
| `EventQueues.Base.AddIo` | external/libevent-2.0.21/event.c:2070-2084 | an event on a descriptor is inserted exactly if it was neither inserted nor active and the backend takes it; on failure nothing changes |
| `EventQueues.Base.Add` | external/libevent-2.0.21/event.c:2026-2176 | event_add, field by field: inserted exactly if it was, or is on a descriptor and was not active; with a timeout it is pending, an interval after now, in the list asked for, the interval is kept exactly for a persistent event, and it is no longer active if it was because of its timeout; without one nothing of that changes. The timer of the list follows if the event is its head, and no other event changes; the active queues in order; on failure nothing changes |
| `EventQueues.Base.Del` | external/libevent-2.0.21/event.c:2178-2264 | event_del: no queue holds the event, nothing else of it or of others changes, the order of the others stays, and no list becomes late |
| `EventQueues.Base.Activate` | external/libevent-2.0.21/event.c:2266-2327 | event_active: the event is active, behind all that were, with the results joined, nothing else changes, and no list becomes late |
| `EventQueues.Base.Expire` | external/libevent-2.0.21/event.c:2492-2497 | an event whose time has come leaves all queues and goes to the tail of the active queue |
| `EventQueues.Base.Top` | external/libevent-2.0.21/event.c:2488 | an event of the heap with the least deadline, if there is one |
| `EventQueues.Base.TimeoutProcess` | external/libevent-2.0.21/event.c:2475-2499 | exactly the events of the heap whose time has come become active because of it and leave all other queues; they fire the earliest first, and in every active queue they are, in that order, behind those that did not fire; no other event changes |
| `EventQueues.Base.CommonCallback` | external/libevent-2.0.21/event.c:1156-1177 | exactly the events of the list whose time has come become active, the earliest first, each at the tail of its queue; the timer is pending at the deadline of the first one left, or as it was if none is; no other event changes |
| `EventQueues.Base.ProcessOne` | external/libevent-2.0.21/event.c:1320-1341 | the head of the active queue, active longest, leaves it, and all queues unless it is persistent; the order of the rest stays |
| `EventQueues.Base.Reschedule` | external/libevent-2.0.21/event.c:1256-1300 | a persistent timeout is set again at the deadline RunAt gives, in its list and with its interval, and an I/O event inserted again if its timeout took it off; the active queues in order; on failure nothing changes; of other events only the timer of the list may |
| `EventLists.RunAt` | external/libevent-2.0.21/event.c:1275-1297 | the new deadline is never in the past, and a delay after the old one unless that has passed or the event fired for another reason |
| `EventQueues.Base.FinishCallback` | external/libevent-2.0.21/event.c:1357-1363 | when the callback of another event returns, no list is late |
| `EventQueues.Base.Correct` | external/libevent-2.0.21/event.c:2422-2472 | when the clock was set back every pending deadline falls by as much, everything else stays, and order and timers stay good |
| `EventQueues.DeferredQueue.Schedule` | external/libevent-2.0.21/event.c:2357-2377 | a callback is queued once; active_count is the length |
| `EventQueues.DeferredQueue.Cancel` | external/libevent-2.0.21/event.c:2337-2355 | a callback that is queued is taken off |
| `EventQueues.DeferredQueue.Process` | external/libevent-2.0.21/event.c:1378-1401 | at most sixteen, in the order of the queue; exactly which run and which are still queued, whatever the callbacks schedule; nothing they schedule is lost and nothing else runs |
| `EventQueues.DeferredQueue.RunCallback` | external/libevent-2.0.21/event.c:2357-2377 | what a callback schedules goes behind the queue, in order, unless it is queued already |
| `EventQueues.RoundsInOrder` | external/libevent-2.0.21/event.c:1378-1401 | callbacks run in the order in which they were queued |
| `EventQueues.RoundsLoseNone` | external/libevent-2.0.21/event.c:1378-1401 | what a callback schedules runs after it or is still queued |
| `EventQueues.RoundsNoneElse` | external/libevent-2.0.21/event.c:1378-1401 | whatever has run or is queued was queued at first, or a callback that ran has scheduled it |
| `EventQueues.DeferredQueue.constructor` | external/libevent-2.0.21/event.c:496-501 | an empty queue |
| `Tagging.EncodeInt` | external/libevent-2.0.21/event_tagging.c:115-137 | the nibble loop writes the count and the nibbles, low ones first, for 32 and 64 bits |
| `Tagging.DecodeIntLoop` | external/libevent-2.0.21/event_tagging.c:304-334 | the loop reads the number the nibbles stand for, or fails as specified |
| `Tagging.IntRoundTrip` | external/libevent-2.0.21/event_tagging.c:115-334 | an integer is read back at any offset, whatever follows |
| `Tagging.EncodeTag` | external/libevent-2.0.21/event_tagging.c:171-192 | the loop writes seven bits at a time, low bits first |
| `Tagging.DecodeTagLoop` | external/libevent-2.0.21/event_tagging.c:194-231 | the loop reads a tag, fails, or would read behind what it pulled up |
| `Tagging.BeyondIsOverlong` | external/libevent-2.0.21/event_tagging.c:194-231 | memory behind what was pulled up is read if and only if there are more than five bytes and the first five all announce another one |
| `Tagging.TagCanBeOverlong` | external/libevent-2.0.21/event_tagging.c:194-231 | six bytes for which it is |
| `Tagging.TagRoundTrip` | external/libevent-2.0.21/event_tagging.c:171-231 | a 32-bit tag is read back, whatever follows |
| `Tagging.HeaderRoundTrip` | external/libevent-2.0.21/event_tagging.c:422-436 | tag and length of a record are read back, and the payload is left |
| `Tagging.ConsumeExact` | external/libevent-2.0.21/event_tagging.c:438-447 | one record is dropped if and only if its payload is at most INT_MAX, or it is the last and its length is not taken for an error |
| `Tagging.ConsumeCanTakeMore` | external/libevent-2.0.21/event_tagging.c:438-447 | a record of 2^31 bytes takes the byte behind it along |
| `Tagging.UnmarshalExact` | external/libevent-2.0.21/event_tagging.c:449-465 | a record is taken as it was marshalled if and only if its payload is at most INT_MAX; the lengths for which a huge copy is asked |
| `Tagging.CutIsRefused` | external/libevent-2.0.21/event_tagging.c:386-465 | a record of which the last bytes are missing is refused wherever it is cut off, and exactly the parts of its header that are complete are drained |
| `Tagging.PeekLengthExact` | external/libevent-2.0.21/event_tagging.c:386-402 | the size of the whole record, modulo 2^32 |
| `Tagging.PeekLengthCut` | external/libevent-2.0.21/event_tagging.c:386-402 | for a record that is cut off the size is given exactly if the header is all there |
| `Tagging.IntRecordRoundTrip` | external/libevent-2.0.21/event_tagging.c:265-519 | a marshalled integer of 32 or 64 bits is read back |
| `Tagging.IntOfRecord` | external/libevent-2.0.21/event_tagging.c:469-519 | an integer is found if and only if the tag is the one asked for and the payload alone holds one; the record is dropped either way, but behind another tag only that is |
| `Tagging.NumberOnTheWire` | external/libevent-2.0.21/event_tagging.c:115-137 | the bytes of a number |
| `Tagging.RecordOnTheWire` | external/libevent-2.0.21/event_tagging.c:171-252 | the bytes of a tag and of a record |
| `Tagging.TagBuffer.Marshal` | external/libevent-2.0.21/event_tagging.c:245-252 | a record is appended |
| `Tagging.TagBuffer.MarshalInt` | external/libevent-2.0.21/event_tagging.c:265-286 | a record with an encoded integer is appended |
| `Tagging.TagBuffer.Unmarshal` | external/libevent-2.0.21/event_tagging.c:422-465 | exactly what UnmarshalOf says for every buffer: the record, a failure, a copy of nearly 2^64 bytes, or a tag read from behind what was pulled up; and what is left of the buffer |
| `Tagging.TagBuffer.UnmarshalInt` | external/libevent-2.0.21/event_tagging.c:469-519 | the integer and what is left of the buffer, also when it fails; it reads behind what was pulled up exactly for an overlong tag |
| `Tagging.TagBuffer.MarshalAll` | external/libevent-2.0.21/event_tagging.c:245-252 | a sequence of records is appended |
| `Tagging.TagBuffer.UnmarshalAll` | external/libevent-2.0.21/event_tagging.c:422-465 | any sequence of marshalled records is read back exactly, with what follows left in place |
| `KeylessMap.EraseValue` | include/KeylessHashMMap.h:224-236 | one occurrence leaves the array, replaced by the last element; false exactly if there is none |
| `KeylessMap.Map.constructor` | include/KeylessHashMMap.h:459-468 | an empty map |
| `KeylessMap.Map.Lookup` | include/KeylessHashMMap.h:383-398 | the array of the key, or there is none |
| `KeylessMap.Map.Insert` | include/KeylessHashMMap.h:513-526 | one more value; refused exactly if the array of the key is full |
| `KeylessMap.Map.Erase` | include/KeylessHashMMap.h:559-578 | one occurrence less, true exactly if there was one; no empty array stays |
| `KeylessMap.Map.EraseAt` | include/KeylessHashMMap.h:533-550 | the value pointed to leaves the map |
| `KeylessMap.Map.Find` | include/KeylessHashMMap.h:588-603 | the array that holds exactly the values with the key; the end exactly if there are none |
| `KeylessMap.Map.Iterate` | include/KeylessHashMMap.h:637-655 | every value is visited exactly as often as it is in the map |
| `KeylessMap.Map.Swap` | include/KeylessHashMMap.h:679-685 | the contents are exchanged |

## Left out

- Pinned, reference, file and mmap chains, callbacks on buffers and their counters `n_add_for_cb` and `n_del_for_cb`; a new block is zero-filled in the model.
- Evbuffers.Evbuffer.Add: a list with which the assertion in evbuffer_chain_insert would fire is not passed to it, nor one with a wrong link unless the bytes fit its last chunk.
- Evbuffers.Evbuffer.RemoveBuffer: lists with which that assertion would fire in the copy at its end are not passed to it.
- EvbufferRead.Read: what readv leaves in the space when it fails is the old content of the space.
- EvbufferRead.ExpandFast: for n of at least two, as all callers pass; the source asserts it.
- Edge-triggered events, signals, the other kernel backends, and the growth of the changes array.
- Evmap.EventBase.IoDel: an event that was never added to its fd is not passed to it.
- Evmap.EventBase.Serve: the flag EVLIST_INSERTED is taken for membership in the list, so an event that waits is not added again and one that does not is not deleted; fds are not opened or closed during the series.
- The bufferevents' own reads and writes, watermarks, and the async and OpenSSL variants; a suspend flag is an abstract reason.
- RateLimiting.Bufferevent.Decrement: a decrement does not overflow a signed 64-bit number; the group's share of it is modelled in RateLimitGroup.
- RateLimiting.Bufferevent.GetMax: the cap of 16384 bytes is claimed only without a limit, as in the code.
- RateLimitGroup: one direction, and the limits are abstracted to steps that may suspend or unsuspend at any time.
- DnsNames.ParseFrom: the bytes that are copied from behind the packet before a name is refused are not modelled.
- DnsWriter.NameWriter.WriteName: names are C strings; of a name with an empty label before a dot only its well-formed suffixes are claimed, and after a failure, when the caller gives up the packet, only that what was there before is still there.
- DnsResponse.FormatResponse: what a truncated response holds behind its questions is an input if a record failed.
- Resolving search domains, hosts, resolv.conf, retransmission, and sending: a transmission is no step, and tx_count is an input.
- RequestTable.Requests.Pump: there is at least one nameserver; transaction ids are drawn from anywhere, so their uniqueness and the bound on requests in flight are not claimed, as probes and searches bypass both.
- RequestTable.Requests.FinishInflight: there is at least one nameserver, as for the pump it ends with.
- RequestTable.Requests.Cancel: the request is on one of the lists; its handle and callback belong to Getaddrinfo.
- RequestTable.Requests.ClearAndSuspend: cancelling the probes of the nameservers first is left out.
- Getaddrinfo: the branch for a failed allocation, and lookups that fail to launch.
- SpscQueue: loads and stores are sequentially consistent steps; memory ordering is not modelled.
- EventQueues.Base.NewCommon: reuse of a list of the same duration and the limit of 256 lists; time is one number, without the magic bits in the microseconds.
- EventQueues.Base.Add: waking up the loop from another thread, and waiting for a callback that is running.
- EventQueues.Base.CommonCallback: the return of the callback is part of the step.
- EventQueues.DeferredQueue.Process: stopping early on event_base_loopbreak.
- The array layout of the min-heap: its top is any event with the least deadline.
- Tagging.TagBuffer.Unmarshal: what becomes of a copy of nearly 2^64 bytes, or of a tag read from behind the bytes pulled up, is not modelled.
- Tagged strings, fixed-length payloads and timevals, which only add easy members.
- KeylessMap: reference counts and copies of maps, which share the arrays; the hash function, and the place of a new array in the order of iteration is an input.
