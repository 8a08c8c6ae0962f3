# A verified model of the libevent core

The server in this repository runs on the copy of libevent 2.1.8 in
`dep/libevent-2.1.8-stable`. This project models the parts of it that carry the hard
invariants, in Dafny, and proves what they promise. Code that changes things step by step
(buffers, event bases, tables, buckets, the stream cipher) is written with classes, arrays and
loops, each method proved against a function of the old state; what is then claimed of those
functions is proved as lemmas. `dafny verify dfyconfig.toml` checks the whole project.

| files | what they model |
|---|---|
| `Basics` | lists without duplicates, counting, quotients and remainders |
| `Chunks`, `Evbuffer`, `EvbufferOps`, `EvbufferRead`, `EvbufferMove`, `EvbufferReserve`, `EvbufferCommit`, `EvbufferFill`, `EvbufferPullup`, `EvbufferSearch`, `EvbufferExamples` | the evbuffer: a linked list of partly filled blocks that behaves as a queue of bytes |
| `Lines`, `EvbufferReadln`, `EvbufferLines` | line ends: what they are in a stream, how the chunked buffer finds them, and reading all lines of input that comes in pieces |
| `EpollTable`, `Changelist` | interest tracking: the table of 512 entries, the coalescing changelist, the direct backend |
| `EventLists`, `EventLoop`, `EventExamples` | queues, counters, timers and common timeouts of an event base |
| `TokenBucket`, `BevSuspend`, `GroupSuspend` | rate limiting: buckets in machine arithmetic, suspension, groups with locks that cannot always be taken |
| `TagCodec`, `Tagging` | tagged records |
| `DnsNames`, `DnsEncode`, `DnsMessage`, `DnsLayout`, `DnsFields`, `DnsReadBack`, `DnsResponse`, `DnsExample` | names in DNS messages with the compression of section 4.1.4 of RFC 1035: reading one, writing one, a message of many; the responses of the server, their bytes, and reading them back |
| `DnsTables`, `DnsRequests` | the request tables of the resolver |
| `Arc4` | the generator of arc4random and its range reduction |

## How to read it

- `last_with_datap`, a pointer to a pointer, is the chain whose `next` it is, or null for
  `&first`. The invariant of an evbuffer (`Evbuffer.Valid`) is the one documented at
  evbuffer-internal.h:86-101, together with: every chain up to the last one with data is
  non-empty unless the whole buffer is empty, every later one is empty, `last` is the final
  node, `total_len` is the sum of the windows, and no chain or block occurs twice.
- The kernel of the epoll model is a map from descriptors to masks. `Disturb` lets the outside
  world change it at any time; `lost` is the set of descriptors for which that has happened
  since they were last told. The errors are ENOENT, EEXIST, EBADF for descriptors that are closed
  (`CloseFd`, `ReopenFd`) and, for a fixed set of descriptors that refuse to be watched, EPERM.
- The min-heap of timers is a set with a least element (`Top`). Locks of group members are an
  input, `locked`: any subset may be the one that can be taken.
- The memory behind a buffer of `bufLen` bytes is part of the array that holds it, so that a
  byte written there can be seen; `DnsResponse.FormatResponse` lays its buffer of 1500 bytes out
  in one of 1501, which holds what was on the stack, and says when the last one is written.
- A function that a method and its contract share is also pinned by statements that do not use it:
  what a pointer, a label, a number, a tag or a line end is in bytes, what a round, a refill or a
  doubling is in numbers (`PointerLeads`, `U16Is`, `TagLayout`, `CrLfEnds`, `StepIs`, `TicksBack`,
  `BlockLenIs` and the like).
- Random numbers, clocks, and the results of calls into other parts of the library are
  parameters or arbitrary choices.

## What turned out not to hold

Each of these is stated exactly; the code is modelled as it is.

- `evbuffer_prepend` is not atomic: when no chain can be had for the rest, part of the data is
  already in front (`EvbufferOps.Prepend`; `EvbufferExamples.HalfPrependedExample`).
- `evbuffer_prepend_buffer` breaks the list invariant exactly when the source ends in empty
  chains (`EvbufferMove.PrependBuffer`; `EvbufferExamples.GapExample`).
- Committing a vector of length zero before one with bytes breaks it as well
  (`EvbufferCommit.CommitShape`, `InOrderIff`; `EvbufferExamples.OutOfOrderExample`).
- A reservation of one vector is refused on commit exactly when the last chain with data has some
  space but too little, can be neither realigned nor resized, and the next chain has room but is
  not the last (`SingleAccepted`, `StrandedIff`, `EvbufferFill.AddByReserving`;
  `EvbufferExamples.StrandedExample`).
- Its commit is accepted and breaks the list invariant exactly when the chain to write to next is
  empty and without space, and the one after it has room (`CloggedIff`,
  `EvbufferFill.AddByReserving`; `EvbufferExamples.CloggedExample`).
- `evbuffer_search_range` gives start for an empty or too long pattern. That is a match that ends
  at end or before exactly when the pattern is at start and ends there
  (`EvbufferSearch.SearchRange`; `EvbufferExamples.PastEndExample`).
- `EVBUFFER_EOL_ANY` depends on where the input is cut, exactly when the cut falls inside a run
  of CR and LF (`Lines.AnyCut`; `Lines.AnyDependsOnCuts`).
- The bucket refill is wrong exactly when the limit is above the maximum, which only a refund
  makes it, and the ticks bring less than the wrapped difference (`TokenBuckets.RefillExact`;
  `RefillAboveMaximum`). It can leave a direction in deficit that no timer releases
  (`TokenBuckets.RefillLoses`, `BevSuspend.Bufferevent.RefillCallback`; `BevSuspend.StuckExample`).
- With a smallest share of zero, which `bufferevent_rate_limit_group_set_min_share` accepts, an
  exhausted group can be released (`GroupSuspend.MinShareMatters`; `ReleasedExample`).
- `dnsname_to_labels` writes the terminating zero without a look at the buffer length. The zero is
  behind the buffer exactly when no suffix of the name is in the table, the name ends in a label,
  and start, length and one add up to the length of the buffer (`DnsEncode.ToLabels`;
  `DnsEncode.OverrunExample`). In a response only the last piece that was written can do that
  (`DnsResponse.FormatResponse`; `DnsExample.OverrunExample`).
- `dnsname_to_labels` writes a zero for an empty label in the middle of a name, so that exactly
  the names with one are not read back (`DnsEncode.ReadsIff`; `EmptyLabelExample`).
- A response that is cut is the first 512 bytes of a buffer that was never cleared. It carries what
  was on the stack exactly when fewer had been written before a piece was refused
  (`DnsResponse.StackShows`; `DnsExample.StackExample`).
- `arc4_addrandom` loses the old `j`, and nothing else: it makes exactly 256 states one
  (`Arc4.AddLosesOnlyJ`, `AddMerges`).
- `decode_tag_internal` looks at a sixth byte, where five are known to be contiguous, exactly for
  a tag of five bytes that all announce another one (`TagCodec.SixthByte`; `SixthByteExample`).
- The comment at event_tagging.c:78-92 puts the most significant group and nibble first; the code
  puts the least significant one first, and the model follows the code (`TagCodec.TagLayout`,
  `EncodedLayout`; `TagExample`).
- `evtag_unmarshal_header` has drained the tag and the length when it fails on a short payload.

## Model

| member | source | states |
|---|---|---|
| EvbufferOps.NewChain | dep/libevent-2.1.8-stable/buffer.c:155-192 | a new chain is empty and its block is exactly what doubling from the smallest size gives; refused if and only if the request is too large or malloc refuses |
| EvbufferOps.BlockLenIs | dep/libevent-2.1.8-stable/buffer.c:155-192 | the block with its header is the first of 1024, 2048, 4096 and so on that is enough; from half of the largest size on it is just enough |
| EvbufferOps.FreeTrailingEmptyChains | dep/libevent-2.1.8-stable/buffer.c:289-302 | the chains behind the last one with data go, the others stay; returns the place where the next chain is linked |
| EvbufferOps.ChainInsert | dep/libevent-2.1.8-stable/buffer.c:307-326 | the new chain replaces the empty ones at the end; the invariant of evbuffer-internal.h holds again |
| EvbufferOps.Add | dep/libevent-2.1.8-stable/buffer.c:1722-1817 | appends exactly data, or changes nothing; succeeds exactly when the end is not frozen and no size is exceeded; data that fits behind the last byte goes there; keeps the list invariant |
| EvbufferOps.AddToChain | dep/libevent-2.1.8-stable/buffer.c:1753-1808 | data that does not fit behind the last byte goes there all the same after at most 2048 bytes have been moved to the front of a block that they fill less than half; otherwise the block is filled and the rest is at the start of a new chain |
| EvbufferOps.NextSizeIs | dep/libevent-2.1.8-stable/buffer.c:1787-1791 | the new chain is asked for with twice the length of the block before it, from 2048 bytes on with the same length, and never with less than there is to add |
| EvbufferOps.AlignInPlace | dep/libevent-2.1.8-stable/buffer.c:1902-1909 | moves the window to the start of its block without changing a byte of the stream |
| EvbufferOps.Prepend | dep/libevent-2.1.8-stable/buffer.c:1819-1899 | prepends exactly data; succeeds if and only if the front is not frozen, no size is exceeded and a chain can be had for what does not fit in front; when it cannot, the bytes that do fit are in front already (not atomic) |
| EvbufferRead.Drain | dep/libevent-2.1.8-stable/buffer.c:1095-1161 | drops the first min(len, length) bytes and nothing else; frees only chains of its own |
| EvbufferRead.Copyout | dep/libevent-2.1.8-stable/buffer.c:1178-1182 | returns the prefix of the stream that was asked for, or what there is of it |
| EvbufferRead.CopyoutFrom | dep/libevent-2.1.8-stable/buffer.c:1184-1249 | returns the bytes from a position on, clipped to the stream; states when it refuses |
| EvbufferRead.Remove | dep/libevent-2.1.8-stable/buffer.c:1164-1176 | what is returned followed by what is left is the old stream; the result is the number of bytes as an int keeps it, or -1 |
| EvbufferMove.AddBuffer | dep/libevent-2.1.8-stable/buffer.c:960-1004 | the destination becomes out + in and the source empty; no chain is in both lists; both list invariants hold |
| EvbufferMove.PrependBuffer | dep/libevent-2.1.8-stable/buffer.c:1049-1093 | the destination becomes in + out and the source empty; the list invariant survives if and only if the source has no empty chains at its end, or one side is empty or refused |
| EvbufferMove.AdvanceLastWithData | dep/libevent-2.1.8-stable/buffer.c:702-716 | advances over chains with data and stops before the first empty one |
| EvbufferMove.RemoveBuffer | dep/libevent-2.1.8-stable/buffer.c:1254-1342 | moves exactly the first min(datlen, length) bytes, in order, whole chains and the rest by copying; the result is that number as an int keeps it; both invariants hold, no chain is shared, and none but new ones join |
| EvbufferReserve.ExpandSinglechain | dep/libevent-2.1.8-stable/buffer.c:1927-2035 | which of the four ways of finding room is taken is a function of the old chains, and so is the chain the room is in, and when null is returned; contents unchanged |
| EvbufferReserve.Thresholds | dep/libevent-2.1.8-stable/buffer.c:1916-1924 | what may be moved and what may be copied, in numbers |
| EvbufferReserve.RoomIfSmall | dep/libevent-2.1.8-stable/buffer.c:1927-2035 | any size up to the largest block less what may be copied is granted, whatever the chains are |
| EvbufferReserve.Resize | dep/libevent-2.1.8-stable/buffer.c:1999-2024 | moves the last chain with data into a larger block; the stream is the same |
| EvbufferReserve.Expand | dep/libevent-2.1.8-stable/buffer.c:2149-2158 | succeeds if and only if the room can be made; afterwards a chain behind the data has it, and the stream is the same |
| EvbufferReserve.ExpandFast | dep/libevent-2.1.8-stable/buffer.c:2037-2147 | for n >= 2: succeeds if and only if the chain it has to ask for, a function of the old chains, is not too large; a new chain of that size is at the end then, and only when nothing has to be asked for the chains are the old ones; at most n chains from the first one with space on hold datlen free bytes; contents unchanged; when there are chains left to use, exactly one chain for what is missing joins at the end |
| EvbufferReserve.MoreToCome | dep/libevent-2.1.8-stable/buffer.c:2227-2243 | while less than the promised space has been seen there is another chain: the vector loop never runs off the list |
| EvbufferReserve.ReadSetupVecs | dep/libevent-2.1.8-stable/buffer.c:2213-2247 | the regions are the whole free space of successive chains, of which only the last may be cut, and only when exact; they lie in different blocks; they total at least howmuch (exactly, when exact), and without the last they do not |
| EvbufferReserve.ReserveSpace | dep/libevent-2.1.8-stable/buffer.c:669-700 | the vectors are the whole free space of successive chains, no more of them than it takes to total size; succeeds if and only if evbuffer_expand_singlechain does, for one vector, or evbuffer_expand_fast_, for more; contents unchanged |
| EvbufferCommit.CheckVecs | dep/libevent-2.1.8-stable/buffer.c:755-765 | pass 1 accepts exactly the vectors that are free space of the chains they are matched with |
| EvbufferCommit.CommittedStream | dep/libevent-2.1.8-stable/buffer.c:766-776 | committing lengths appends exactly the bytes that are in that space |
| EvbufferCommit.CommitShape | dep/libevent-2.1.8-stable/buffer.c:766-776 | a commit keeps the list invariant if and only if it fills the chains in order |
| EvbufferCommit.InOrderIff | dep/libevent-2.1.8-stable/buffer.c:766-776 | for vectors from the first chain with space on, "in order" means that no vector of length zero comes before one with bytes, unless its chain holds data already |
| EvbufferCommit.CommitSpace | dep/libevent-2.1.8-stable/buffer.c:718-786 | accepted if and only if every vector matches its chain, that is, starts where the data of the chain ends and is no longer than its space; a refused commit changes nothing; an accepted one appends exactly what is in the memory that the vectors point to; the buffer is valid afterwards if and only if the commit is in order |
| EvbufferCommit.ReservationAccepted | dep/libevent-2.1.8-stable/buffer.c:718-786 | vectors of a reservation, cut short or shrunk, are always accepted and go to the chains they came from |
| EvbufferCommit.SingleAccepted | dep/libevent-2.1.8-stable/buffer.c:734-748 | the vector of a one-chain reservation is accepted if and only if its chain is the first one with space or the last one |
| EvbufferCommit.StrandedIff | dep/libevent-2.1.8-stable/buffer.c:1927-2035 | seen from the chains before a reservation of one vector: its chain is neither the first one with space nor the last one if and only if the last chain with data has too little space, is not worth moving or copying, and the next chain has room but is not the last |
| EvbufferCommit.CloggedIff | dep/libevent-2.1.8-stable/buffer.c:1927-2035 | likewise: an empty chain stands before the reserved one if and only if the chain to write to next is empty, has no space behind its window, and the one after it has room |
| EvbufferFill.FillVecs | dep/libevent-2.1.8-stable/buffer.c:669-700 | the user fills the regions of a reservation one after the other: the stream is not touched, and the bytes behind the windows are the data |
| EvbufferFill.AddByReserving | dep/libevent-2.1.8-stable/buffer.c:669-786 | reserve, fill, commit: the commit is accepted if and only if the one chain was not stranded, and then exactly the data is appended; the buffer is in shape if and only if the one chain was not behind a clogged one |
| EvbufferExamples.OutOfOrderExample | dep/libevent-2.1.8-stable/buffer.c:718-786 | a new buffer, a reservation in two chains, and an accepted commit that breaks the list invariant |
| EvbufferExamples.StrandedExample | dep/libevent-2.1.8-stable/buffer.c:669-786 | a buffer of 970 bytes before two empty chains: a reservation of one vector of 16 bytes whose commit is refused |
| EvbufferExamples.CloggedExample | dep/libevent-2.1.8-stable/buffer.c:669-786 | prepending nothing to a buffer with an empty chain, and then a reservation of one vector whose commit breaks the list invariant |
| EvbufferExamples.GapExample | dep/libevent-2.1.8-stable/buffer.c:1049-1093 | evbuffer_prepend_buffer of a buffer with an empty chain at its end breaks the list invariant |
| EvbufferExamples.PastEndExample | dep/libevent-2.1.8-stable/buffer.c:2735-2736 | in a buffer of two bytes, searching for nothing from 1 on and up to 0 gives 1 |
| EvbufferExamples.HalfPrependedExample | dep/libevent-2.1.8-stable/buffer.c:1819-1899 | a refused evbuffer_prepend of 1000 bytes has put 976 of them in front |
| EvbufferPullup.Pullup | dep/libevent-2.1.8-stable/buffer.c:1344-1454 | the stream is unchanged and its first size bytes lie in the first chain; states exactly when null is returned |
| EvbufferSearch.PtrSet | dep/libevent-2.1.8-stable/buffer.c:2609-2659 | locates exactly the absolute position, so that SET a then ADD b is SET a + b; states what fails and what is left in the pointer then |
| EvbufferSearch.PtrUnique | dep/libevent-2.1.8-stable/buffer.c:2609-2659 | a position has one pointer only: chain and position in the chain agree with pos |
| EvbufferSearch.PtrSubtract | dep/libevent-2.1.8-stable/buffer.c:2589-2607 | moves back exactly, or not at all |
| EvbufferSearch.CompareStepwise | dep/libevent-2.1.8-stable/buffer.c:2679-2696 | comparing chain by chain with memcmp is comparing byte by byte |
| EvbufferSearch.FirstDifference | dep/libevent-2.1.8-stable/buffer.c:2665-2699 | what a comparison gives is the difference of the first two bytes that differ |
| EvbufferSearch.PtrMemcmp | dep/libevent-2.1.8-stable/buffer.c:2665-2699 | the sign of the first difference between the stream at pos and mem, however the stream is chunked; -1 past the end |
| EvbufferSearch.SearchRange | dep/libevent-2.1.8-stable/buffer.c:2707-2769 | the smallest match from start on, if it ends at end or before, else not found; an empty or too long pattern gives start, so that the result is a match that ends at end or before if and only if the pattern is neither, or start is such a match |
| EvbufferSearch.Search | dep/libevent-2.1.8-stable/buffer.c:2701-2705 | the smallest match from start on in the whole buffer, or not found |
| EvbufferSearch.Find | dep/libevent-2.1.8-stable/buffer.c:2564-2582 | makes the first match contiguous and points at it |
| Lines.SplitJoin | dep/libevent-2.1.8-stable/buffer.c:1679-1716 | lines, their ends and the remainder make up the input, for every style |
| Lines.ByteEnds | dep/libevent-2.1.8-stable/buffer.c:1653-1662 | LF and NUL: the first line feed, or the first zero; none exactly when there is none |
| Lines.CrLfEnds | dep/libevent-2.1.8-stable/buffer.c:1632-1652 | CRLF: the line ends at the first line feed, and a carriage return right before it belongs to the end |
| Lines.StrictEnds | dep/libevent-2.1.8-stable/buffer.c:1625-1631 | CRLF_STRICT: the first carriage return that a line feed follows |
| Lines.AnyEnds | dep/libevent-2.1.8-stable/buffer.c:1619-1624 | ANY: the first carriage return or line feed, and all that follow it in a row |
| Lines.SplitDone | dep/libevent-2.1.8-stable/buffer.c:1679-1716 | what remains holds no line end |
| Lines.SplitAnywhere | dep/libevent-2.1.8-stable/buffer.c:1589-1716 | reading to exhaustion, more input, reading again gives the lines of reading all of it at once (LF, CRLF, CRLF_STRICT, NUL) |
| Lines.PiecesDoNotMatter | dep/libevent-2.1.8-stable/buffer.c:1589-1716 | the same for any number of pieces |
| Lines.AnyCut | dep/libevent-2.1.8-stable/buffer.c:1607-1617 | EOL_ANY: two rounds agree with one if and only if the cut does not fall inside a run of CR and LF; inside one there is exactly one line more |
| Lines.AnyDependsOnCuts | dep/libevent-2.1.8-stable/buffer.c:1607-1617 | a concrete input and cut for which EOL_ANY gives different lines |
| EvbufferReadln.FindEolChar | dep/libevent-2.1.8-stable/buffer.c:1488-1513 | the first CR or LF of a block, found by blocks of 128 bytes |
| EvbufferReadln.Seek | dep/libevent-2.1.8-stable/buffer.c:1466-1535 | the first byte wanted from a place on, over any chunking |
| EvbufferReadln.Strspn | dep/libevent-2.1.8-stable/buffer.c:1537-1574 | how many bytes in a row are in the set, over any chunking; the pointer moves behind them, and at the end of the stream it is in the last chain with place zero |
| EvbufferReadln.SearchEol | dep/libevent-2.1.8-stable/buffer.c:1589-1677 | the end of the line as a function of the stream alone, for all five styles |
| EvbufferReadln.Readln | dep/libevent-2.1.8-stable/buffer.c:1679-1716 | returns the first line, drains it with its end, and leaves the rest; changes nothing when there is none |
| EvbufferLines.ReadLines | dep/libevent-2.1.8-stable/buffer.c:1679-1716 | calling evbuffer_readln until it gives nothing returns the lines of the buffer, and leaves what comes behind the last one |
| EvbufferLines.ReadPieces | dep/libevent-2.1.8-stable/buffer.c:1679-1816 | adding input piece by piece and reading all lines after each gives the lines of the whole input, wherever it was cut (LF, CRLF, CRLF_STRICT, NUL); for EOL_ANY those of the cut input |
| EpollTable.IndexOnto | dep/libevent-2.1.8-stable/epolltable-internal.h:124-130 | the index expression reaches all 512 places of the table |
| EpollTable.TableIsRule | dep/libevent-2.1.8-stable/epolltable-internal.h:39-1164 | every entry of the table is what the generating rule says for its old mask and changes |
| Changelist.EventBase.ApplyOneChange | dep/libevent-2.1.8-stable/epoll.c:266-353 | whatever the kernel had for the descriptor (ENOENT and EEXIST retries), it has what the change leads to afterwards, unless the descriptor is closed or refused; removing it is no failure then either (EBADF, EPERM); a change that touches nothing makes no call |
| Changelist.EventBase.Grow | dep/libevent-2.1.8-stable/evmap.c:797-817 | room for 64 changes at first, and then for twice as many as before |
| Changelist.EventBase.MakeSpace | dep/libevent-2.1.8-stable/evmap.c:203-225 | no change in what is registered or pending; the slots are the first of n, 2n, 4n and so on that hold the descriptor, where n is what there were, or 32 |
| Changelist.EventBase.GetOrConstruct | dep/libevent-2.1.8-stable/evmap.c:823-852 | the entry of a descriptor: the one its back index names, or a new one that remembers the old mask |
| Changelist.LinkedAfter | dep/libevent-2.1.8-stable/evmap.c:724-759 | the back indices and the entries still match after an entry has been queued (event_changelist_assert_ok) |
| Changelist.ToldAfter | dep/libevent-2.1.8-stable/evmap.c:854-939 | queueing a change does not alter what the kernel is taken to have been told |
| Changelist.EventBase.UpdateQueued | dep/libevent-2.1.8-stable/evmap.c:854-939 | event_changelist_add_ and _del_ keep: every pending change leads from the told mask to the wanted one |
| Changelist.EventBase.UpdateDirect | dep/libevent-2.1.8-stable/epoll.c:374-411 | epoll_nochangelist_add and _del: the kernel has the wanted mask at once |
| Changelist.EventBase.AddIo | dep/libevent-2.1.8-stable/evmap.c:265-342 | the event is registered, the counts are those of the registered events, and the changelist or the kernel leads to the set of conditions with a count; states the result and when it refuses |
| Changelist.EventBase.DelIo | dep/libevent-2.1.8-stable/evmap.c:344-409 | the same for removing an event |
| Changelist.EventBase.ApplyChanges | dep/libevent-2.1.8-stable/epoll.c:355-372 | every descriptor that is trusted, or has a change to make, has exactly the wanted mask in the kernel |
| Changelist.EventBase.RemoveAll | dep/libevent-2.1.8-stable/evmap.c:765-786 | the list is empty and all back indices are zero; nothing else changes |
| Changelist.EventBase.Dispatch | dep/libevent-2.1.8-stable/epoll.c:454-458 | after apply and clear, each trusted descriptor has the mask of its registered events in the kernel |
| Changelist.EventBase.Disturb | dep/libevent-2.1.8-stable/epoll.c:295-345 | whatever a descriptor has in the kernel after it was closed or reopened, the invariant holds with that descriptor no longer trusted |
| Changelist.EventBase.CloseFd | dep/libevent-2.1.8-stable/epoll.c:331-341 | a descriptor may be closed with changes pending, and its entry go or stay; the invariant holds with it no longer trusted |
| Changelist.BackendsAgree | dep/libevent-2.1.8-stable/epoll.c:355-411 | with the same events registered, the changelist backend and the direct one lead the kernel to the same set |
| Basics.WithoutOrder | dep/libevent-2.1.8-stable/event.c:3184-3199 | what TAILQ_REMOVE takes out of a list leaves the others in their order |
| EventLists.NotLost | dep/libevent-2.1.8-stable/event.c:1344-1439 | no common timeout is lost: while something waits in a list, its representative is in the heap no later, or active, or its callback is about to run |
| EventLists.QueuePush | dep/libevent-2.1.8-stable/event.c:3325-3344 | queueing keeps membership, flags, priorities and counts in agreement |
| EventLists.InsertIs | dep/libevent-2.1.8-stable/event.c:3277-3307 | inserting in order from the back keeps a common-timeout list sorted |
| EventLists.WatchedDrop | dep/libevent-2.1.8-stable/event.c:3215-3235 | what has to hold of the representative when an event leaves a list |
| EventLoop.EventBase.constructor | dep/libevent-2.1.8-stable/event.c:3883-3940 | an empty base passes the checks of event_base_assert_ok_nolock_ |
| EventLoop.EventBase.SetInserted | dep/libevent-2.1.8-stable/event.c:3172-3183 | flag and count change together: by one, or by nothing for an internal event |
| EventLoop.EventBase.RemoveActive | dep/libevent-2.1.8-stable/event.c:3184-3199 | leaves the queue of its priority and nothing else; both counts go down by one, the count of events not for an internal one |
| EventLoop.EventBase.InsertActive | dep/libevent-2.1.8-stable/event.c:3325-3344 | joins the end of the queue of its priority; both counts go up by one, the count of events not for an internal one |
| EventLoop.EventBase.RemoveLater | dep/libevent-2.1.8-stable/event.c:3200-3214 | leaves the later queue, with both counts |
| EventLoop.EventBase.InsertLater | dep/libevent-2.1.8-stable/event.c:3346-3361 | joins the end of the later queue, with both counts |
| EventLoop.EventBase.RemoveTimeout | dep/libevent-2.1.8-stable/event.c:3215-3235 | leaves the heap or its common-timeout list, with the count |
| EventLoop.EventBase.FindPlace | dep/libevent-2.1.8-stable/event.c:3277-3307 | the place behind the last timeout that is not later |
| EventLoop.EventBase.InsertTimeout | dep/libevent-2.1.8-stable/event.c:3363-3385 | joins the heap, or its common-timeout list at the place that keeps it sorted, with the count |
| EventLoop.EventBase.Del | dep/libevent-2.1.8-stable/event.c:2760-2844 | takes the event off every list, unless it is being finalized, also when evmap_io_del_ fails, which the result says; all checks still hold and no common timeout is lost |
| EventLoop.EventBase.Active | dep/libevent-2.1.8-stable/event.c:2864-2913 | the event is in its active queue once, and has timed out if that is the reason now or, for one that was queued already, was before; a finalizing one is left alone |
| EventLoop.EventBase.Top | dep/libevent-2.1.8-stable/event.c:3125-3149 | the heap yields a timer that is not later than any other |
| EventLoop.EventBase.TimeoutProcess | dep/libevent-2.1.8-stable/event.c:3125-3149 | terminates having activated exactly the timers in the heap whose time has come; all others stay as they were |
| EventLoop.EventBase.Schedule | dep/libevent-2.1.8-stable/event.c:1404-1413 | the representative waits for the first timeout of its list; the list is watched again |
| EventLoop.EventBase.Add | dep/libevent-2.1.8-stable/event.c:2543-2716 | when it succeeds with a time the event waits until then, in plain numbers for relative and absolute times; a persistent event that is no signal takes a relative time as its period, and otherwise period and times stay; joins its descriptor if it has one and is in no queue; other events of the user are untouched, and all checks still hold |
| EventLoop.EventBase.CommonCallback | dep/libevent-2.1.8-stable/event.c:1415-1439 | activates exactly the timeouts of the list whose time has come; what is left is sorted and watched |
| EventLoop.EventBase.Process | dep/libevent-2.1.8-stable/event.c:1590-1625 | takes the first callback off its queue: a persistent one stays registered and waiting, any other event is deleted |
| EventLoop.EventBase.PersistClosure | dep/libevent-2.1.8-stable/event.c:1517-1581 | the next time of a periodic event, common timeouts of any length included, is counted from the last one, or from now when that has been missed; nothing changes when it cannot be added |
| EventExamples.Periodic | dep/libevent-2.1.8-stable/event.c:1517-1581 | a persistent timer is added, goes off, runs and waits again: until two periods after it was added, or one period from now when that has been missed |
| EventLoop.EventBase.RemoveTimer | dep/libevent-2.1.8-stable/event.c:2504-2521 | a pending timeout and its period are forgotten |
| EventLoop.EventBase.Finalize | dep/libevent-2.1.8-stable/event.c:2195-2208 | the event is active and finalizing, and waits for nothing |
| EventLoop.EventBase.FinalizeCallback | dep/libevent-2.1.8-stable/event.c:2238-2253 | the same for a callback; one that is an event is deleted, any other cancelled |
| EventLoop.EventBase.Cancel | dep/libevent-2.1.8-stable/event.c:3013-3041 | the callback is on no list, unless it is being finalized; the result says if evmap_io_del_ failed |
| EventLoop.EventBase.Activate | dep/libevent-2.1.8-stable/event.c:2951-2979 | active and not later afterwards; the result says if it was new |
| EventLoop.EventBase.ActivateLater | dep/libevent-2.1.8-stable/event.c:2981-2992 | later afterwards, unless it was on a queue already |
| EventLoop.EventBase.MakeLaterActive | dep/libevent-2.1.8-stable/event.c:3387-3400 | empties the later queue into the active queues: each of its members goes to the end of the queue of its priority, in the order in which they waited |
| EventLoop.EventBase.SetPriority | dep/libevent-2.1.8-stable/event.c:2305-2318 | refuses active events and priorities out of range, and changes nothing then |
| EventLoop.EventBase.Assign | dep/libevent-2.1.8-stable/event.c:2064-2111 | a new event is on no list |
| EventLoop.EventBase.InitCommon | dep/libevent-2.1.8-stable/event.c:1441-1515 | finds the list of a duration, with microseconds beyond a million carried over so that the sum stays, or makes one; refused if and only if there are 256 and none fits; there are never more; existing handles stay |
| TokenBuckets.NewCfg | dep/libevent-2.1.8-stable/bufferevent_ratelim.c:142-173 | rate and burst as they are given; refused if and only if a rate is zero, above its burst, or the burst is too large |
| TokenBuckets.QuotientTest | dep/libevent-2.1.8-stable/bufferevent_ratelim.c:91-104 | the quotient test compares without overflow |
| TokenBuckets.RefillExact | dep/libevent-2.1.8-stable/bufferevent_ratelim.c:73-111 | the machine arithmetic is min(maximum, limit + n * rate) if and only if the limit is within the maximum or the ticks bring more than the wrapped difference |
| TokenBuckets.RefillLoses | dep/libevent-2.1.8-stable/bufferevent_ratelim.c:73-111 | a refill leaves nothing of a positive limit if and only if the limit is above the maximum, the sum leaves the range of an ev_ssize_t, and the ticks bring less than the wrapped difference |
| TokenBuckets.RefillAboveMaximum | dep/libevent-2.1.8-stable/bufferevent_ratelim.c:73-111 | limit 101, maximum 100, rate 1, one tick: the refill gives 102 |
| TokenBuckets.RefillComposes | dep/libevent-2.1.8-stable/bufferevent_ratelim.c:73-111 | refilling for n and then m ticks is refilling for n + m |
| TokenBuckets.TicksWrap | dep/libevent-2.1.8-stable/bufferevent_ratelim.c:73-88 | the difference of two 32-bit tick counters survives the wrap |
| TokenBuckets.TicksBack | dep/libevent-2.1.8-stable/bufferevent_ratelim.c:73-88 | a clock that stands still or goes back lets no ticks pass |
| TokenBuckets.Bandwidth | dep/libevent-2.1.8-stable/bufferevent_ratelim.c:73-111 | over any run of refills and uses the limit stays within the maximum, and bytes used <= initial limit + rate * ticks - final limit |
| TokenBuckets.NeverNegative | dep/libevent-2.1.8-stable/bufferevent_ratelim.c:197-258 | uses clamped by bufferevent_get_rlim_max_ never drive a bucket below zero, over any run |
| TokenBuckets.DeficitTicks | dep/libevent-2.1.8-stable/bufferevent_ratelim.c:73-111 | a bucket in deficit has something again after exactly deficit / rate + 1 ticks |
| TokenBuckets.Bucket.Reinit | dep/libevent-2.1.8-stable/bufferevent_ratelim.c:49-71 | cuts the limits to the new maxima and keeps the tick |
| TokenBuckets.Bucket.Update | dep/libevent-2.1.8-stable/bufferevent_ratelim.c:73-111 | both limits and the tick after an update, in the arithmetic of the machine and, for limits within the maximum, as the ideal minimum; also when the counter stands still or seems to run back |
| BevSuspend.Bufferevent.Enable | dep/libevent-2.1.8-stable/bufferevent.c:459-480 | armed exactly when enabled and not suspended |
| BevSuspend.Bufferevent.Disable | dep/libevent-2.1.8-stable/bufferevent.c:550-563 | the same |
| BevSuspend.Bufferevent.SuspendFor | dep/libevent-2.1.8-stable/bufferevent.c:66-112 | the reason joins; limit and the wish of the user stay, and the other direction |
| BevSuspend.Bufferevent.UnsuspendFor | dep/libevent-2.1.8-stable/bufferevent.c:66-112 | the reason leaves; armed again only if it was the last |
| BevSuspend.Bufferevent.Decrement | dep/libevent-2.1.8-stable/bufferevent_ratelim.c:272-346 | suspended for bandwidth exactly when nothing is left; a suspension always has a refill pending |
| BevSuspend.Bufferevent.DecrementLimit | dep/libevent-2.1.8-stable/bufferevent_ratelim.c:971-1025 | the same invariant for limits changed by the user; suspension changes when the limit crosses zero |
| BevSuspend.Bufferevent.UpdateBuckets | dep/libevent-2.1.8-stable/bufferevent_ratelim.c:113-124 | refills both directions, within the maximum to min(maximum, limit + n * rate); keeps the invariant if and only if no refill wraps around |
| BevSuspend.Bufferevent.GetMax | dep/libevent-2.1.8-stable/bufferevent_ratelim.c:197-258 | the limit after a refill, never negative; the single maximum without a configuration |
| BevSuspend.Bufferevent.RefillCallback | dep/libevent-2.1.8-stable/bufferevent_ratelim.c:391-439 | a direction with something left is released, and the timer runs again if and only if one is still suspended; the invariant is kept if and only if neither refill wraps around; also when the timer has been deleted while the callback waited for the lock |
| BevSuspend.Bufferevent.SetRateLimit | dep/libevent-2.1.8-stable/bufferevent_ratelim.c:559-636 | limits, suspensions, timer and tick after a change of configuration: the tick is set by a first configuration only; other reasons and the user's wishes stay |
| BevSuspend.RefillsIs | dep/libevent-2.1.8-stable/bufferevent_ratelim.c:391-439 | k refills of one tick are one refill of k ticks |
| BevSuspend.NotStuck | dep/libevent-2.1.8-stable/bufferevent_ratelim.c:391-439 | refills of a direction in deficit leave it there for exactly deficit / rate ticks |
| BevSuspend.Bufferevent.AfterTicks | dep/libevent-2.1.8-stable/bufferevent_ratelim.c:391-439 | ticks of the refill callback, from any valid state in which a direction is suspended for bandwidth: it is released after exactly deficit / rate + 1 of them, and the timer is pending until then |
| BevSuspend.StuckExample | dep/libevent-2.1.8-stable/bufferevent_ratelim.c:391-439 | a refund above the maximum for reading, a write that waits for the refill, and one tick: reading is in deficit and not suspended, with no refill pending |
| GroupSuspend.VisitsAll | dep/libevent-2.1.8-stable/bufferevent_ratelim.c:445-485 | the walk from a random place meets every member exactly once |
| GroupSuspend.MinShareMatters | dep/libevent-2.1.8-stable/bufferevent_ratelim.c:527-557 | the refill callback of a group, whose contract says when it keeps an exhausted group suspended, does so for every bucket and number of ticks if and only if min_share >= 1 |
| GroupSuspend.ReleasedExample | dep/libevent-2.1.8-stable/bufferevent_ratelim.c:527-557 | a group with min_share 0 that is exhausted and not suspended |
| GroupSuspend.Group.constructor | dep/libevent-2.1.8-stable/bufferevent_ratelim.c:638-670 | a new group is in the safe state |
| GroupSuspend.Group.Suspend | dep/libevent-2.1.8-stable/bufferevent_ratelim.c:348-371 | exactly the members whose lock could be taken are suspended as well; the others see the flag of the group |
| GroupSuspend.Group.RandomOrder | dep/libevent-2.1.8-stable/bufferevent_ratelim.c:445-483 | the order of the walk |
| GroupSuspend.Group.Unsuspend | dep/libevent-2.1.8-stable/bufferevent_ratelim.c:485-504 | exactly the members whose lock could be taken are released; pending_unsuspend is set if and only if one could not |
| GroupSuspend.Group.Decrement | dep/libevent-2.1.8-stable/bufferevent_ratelim.c:272-308 | suspended exactly when nothing is left, and then the members that can be locked are as well, and free again when there is something; no suspended member is forgotten |
| GroupSuspend.Group.DecrementLimit | dep/libevent-2.1.8-stable/bufferevent_ratelim.c:1027-1045 | the group and its members are suspended or released when the limit crosses zero, and only then, from any state of the protocol; an exhausted group that was suspended stays so |
| GroupSuspend.Group.RefillCallback | dep/libevent-2.1.8-stable/bufferevent_ratelim.c:527-557 | released exactly when min_share is reached; then, and when a release is pending, exactly the members that can be locked are free, and pending_unsuspend says if one could not; with min_share >= 1 an exhausted group stays suspended |
| GroupSuspend.Group.RefillRun | dep/libevent-2.1.8-stable/bufferevent_ratelim.c:488-557 | over any run of refills after a release: a member is still suspended if and only if its lock could not be taken at any of them, and the release is pending until then |
| GroupSuspend.Group.GetMax | dep/libevent-2.1.8-stable/bufferevent_ratelim.c:197-258 | zero and suspended in a suspended group, else the smaller of the own limit and the share, which is the quotient of the limit and the members and at least min_share |
| GroupSuspend.Group.AddStart | dep/libevent-2.1.8-stable/bufferevent_ratelim.c:735-771 | a member that joins a suspended group is about to be suspended |
| GroupSuspend.Group.AddFinish | dep/libevent-2.1.8-stable/bufferevent_ratelim.c:771-780 | and is suspended, even if the group has been released meanwhile: then pending_unsuspend is set |
| GroupSuspend.Group.Remove | dep/libevent-2.1.8-stable/bufferevent_ratelim.c:788-810 | the member leaves the list, and its suspension ends when asked |
| GroupSuspend.Group.SetMinShare | dep/libevent-2.1.8-stable/bufferevent_ratelim.c:703-722 | the share is cut to both rates; an impossible one is refused |
| GroupSuspend.Group.SetCfg | dep/libevent-2.1.8-stable/bufferevent_ratelim.c:672-701 | limit and smallest share follow the new configuration |
| TagCodec.IntRoundTrip | dep/libevent-2.1.8-stable/event_tagging.c:117-150 | decoding an encoded integer of up to 64 bits, followed by anything, returns it and its length |
| TagCodec.EncodedLayout | dep/libevent-2.1.8-stable/event_tagging.c:117-140 | the bytes of an encoded integer in plain arithmetic: the number of nibbles less one, and then the nibbles, the least significant one first; no more than the number has |
| TagCodec.DecodedLayout | dep/libevent-2.1.8-stable/event_tagging.c:315-373 | from any bytes: decoded if and only if no more nibbles than allowed are announced and all are there; nibble p stands for 16 to the power p - 1 |
| TagCodec.DecodedRange | dep/libevent-2.1.8-stable/event_tagging.c:315-373 | a decoded integer is below 16 to the number of nibbles allowed, so that nothing is shifted out of the 32 or 64 bits it is collected in |
| TagCodec.TagRoundTrip | dep/libevent-2.1.8-stable/event_tagging.c:174-242 | the same for 32-bit tags |
| TagCodec.TagLayout | dep/libevent-2.1.8-stable/event_tagging.c:174-194 | the bytes of an encoded tag in plain arithmetic: seven bits each, the least significant ones first, the high bit on all but the last; no more than the tag has |
| TagCodec.DecodedTag | dep/libevent-2.1.8-stable/event_tagging.c:196-242 | from any bytes: a tag of n bytes is decoded if and only if the high bit is on all but the last of them, there are at most five, and the fifth brings at most four bits; its value is the sum of the groups |
| TagCodec.TagExample | dep/libevent-2.1.8-stable/event_tagging.c:78-92 | 0x166 is E6 02, where the comment has 82 66; these bytes are another tag |
| TagCodec.SixthByte | dep/libevent-2.1.8-stable/event_tagging.c:196-242 | decode_tag_internal looks at a byte behind those it has pulled up if and only if the tag has five bytes that announce another one, of which the last brings at most four bits; it refuses the tag then |
| TagCodec.SixthByteExample | dep/libevent-2.1.8-stable/event_tagging.c:196-242 | the smallest stream for which that happens |
| TagCodec.RecordRoundTrip | dep/libevent-2.1.8-stable/event_tagging.c:256-263 | unmarshalling a marshalled record returns it and leaves exactly what follows |
| TagCodec.StreamRoundTrip | dep/libevent-2.1.8-stable/event_tagging.c:256-480 | a marshalled list of records is read back as it was written |
| Tagging.EncodeIntInternal | dep/libevent-2.1.8-stable/event_tagging.c:117-150 | the nibble loop produces the encoding, low nibble first |
| Tagging.Stream.EncodeTag | dep/libevent-2.1.8-stable/event_tagging.c:174-194 | appends the encoding of the tag |
| Tagging.Stream.DecodeTagInternal | dep/libevent-2.1.8-stable/event_tagging.c:196-242 | decodes a tag, drains it if asked, and changes nothing when it fails; how many bytes it has looked at |
| Tagging.Stream.DecodeIntInternal | dep/libevent-2.1.8-stable/event_tagging.c:316-373 | decodes at an offset without draining |
| Tagging.Stream.DecodeIntAndDrain | dep/libevent-2.1.8-stable/event_tagging.c:375-393 | drains exactly the integer |
| Tagging.Stream.Marshal | dep/libevent-2.1.8-stable/event_tagging.c:256-263 | appends one record |
| Tagging.Stream.MarshalInt | dep/libevent-2.1.8-stable/event_tagging.c:276-297 | appends a record whose payload is an encoded integer |
| Tagging.Stream.MarshalTimeval | dep/libevent-2.1.8-stable/event_tagging.c:306-313 | appends a record of two integers |
| Tagging.Stream.UnmarshalHeader | dep/libevent-2.1.8-stable/event_tagging.c:437-451 | -1 or the payload length; what is left in every case: a decoded tag is gone, and so is a decoded length, even when the payload is incomplete |
| Tagging.Stream.Consume | dep/libevent-2.1.8-stable/event_tagging.c:453-462 | drains exactly one record |
| Tagging.Stream.Unmarshal | dep/libevent-2.1.8-stable/event_tagging.c:466-480 | moves exactly the payload to the destination |
| Tagging.Stream.UnmarshalFixed | dep/libevent-2.1.8-stable/event_tagging.c:538-555 | accepts exactly records with this tag and length; what is left in every case |
| Tagging.Stream.UnmarshalInt | dep/libevent-2.1.8-stable/event_tagging.c:484-534 | the integer at the start of the payload of a record with this tag; what is left in every case, a wrong tag included |
| Tagging.Stream.UnmarshalTimeval | dep/libevent-2.1.8-stable/event_tagging.c:579-605 | the two integers at the front of the payload, for any payload, and what is left in every case |
| Tagging.TimevalRoundTrip | dep/libevent-2.1.8-stable/event_tagging.c:306-313 | a marshalled timeval is read back, whatever follows |
| Tagging.Stream.PeekLength | dep/libevent-2.1.8-stable/event_tagging.c:401-417 | the length of header and payload, without change |
| Tagging.PeekIsConsumed | dep/libevent-2.1.8-stable/event_tagging.c:401-462 | evtag_peek_length equals the bytes evtag_consume drains |
| Tagging.IntRecordRoundTrip | dep/libevent-2.1.8-stable/event_tagging.c:276-297 | a marshalled integer is read back and uses up its payload |
| DnsNames.NameParse | dep/libevent-2.1.8-stable/evdns.c:959-1013 | succeeds if and only if the packet holds a name here that fits; returns its text and the index behind it; terminates on every packet, stays in bounds, strictly advances |
| DnsNames.PointerLeads | dep/libevent-2.1.8-stable/evdns.c:976-994 | a byte from 64 on and the next one are a pointer to the position they give, most significant byte first, without the high two bits |
| DnsNames.CutShort | dep/libevent-2.1.8-stable/evdns.c:976-1004 | nothing is read where the packet ends before a length or inside a pointer |
| DnsNames.LabelLeads | dep/libevent-2.1.8-stable/evdns.c:976-1004 | a length is followed by that many bytes of a label, and zero ends the name |
| DnsNames.ReadExample | dep/libevent-2.1.8-stable/evdns.c:959-1013 | behind a header, the name a, and b with a pointer to it: b.a, and the index behind the pointer |
| DnsNames.LabelNext | dep/libevent-2.1.8-stable/evdns.c:959-1013 | one label taken, the rest of the name is what is left to read |
| DnsNames.TextOfLabels | dep/libevent-2.1.8-stable/evdns.c:959-1013 | the labels of a name, joined by dots, are the name |
| DnsNames.Stable | dep/libevent-2.1.8-stable/evdns.c:959-1013 | a name that can be read stays as it is when the message grows |
| DnsNames.Budget | dep/libevent-2.1.8-stable/evdns.c:959-1013 | allowing more jumps does not change what is read |
| DnsEncode.EncReads | dep/libevent-2.1.8-stable/evdns.c:1598-1663 | the bytes of an encoded name, behind any message whose table is right, read as the labels of the name and end where they end |
| DnsEncode.StoredPointer | dep/libevent-2.1.8-stable/evdns.c:1625-1628 | a name in the table is written as two bytes that give its position, the high two bits set, most significant byte first; any other begins with its first label |
| DnsEncode.LookupNone | dep/libevent-2.1.8-stable/evdns.c:1558-1568 | no position is found exactly when no entry has the name |
| DnsEncode.Compressed | dep/libevent-2.1.8-stable/evdns.c:1570-1663 | a name that has been written, and each of its ends, is written as a pointer to its place from then on, while the table has room |
| DnsEncode.CodeIs | dep/libevent-2.1.8-stable/evdns.c:1595-1644 | -1 for a label that is too long, -2 when room is lacking or the name is longer than 255 bytes |
| DnsEncode.ReadsIff | dep/libevent-2.1.8-stable/evdns.c:1598-1663 | a C string written behind such a message is read back as the labels between its dots if and only if none of them is empty, a final dot apart |
| DnsEncode.EmptyLabelExample | dep/libevent-2.1.8-stable/evdns.c:1630-1654 | a..b is written as six bytes that read as a |
| DnsEncode.TableKept | dep/libevent-2.1.8-stable/evdns.c:1570-1586 | after a name has been written, reading at every stored position gives the suffix that is stored there |
| DnsEncode.Sizes | dep/libevent-2.1.8-stable/evdns.c:1598-1663 | a name takes one byte more than dnsname_to_labels checks for if and only if it is written in full, with no suffix in the table, and does not end in a dot |
| DnsEncode.ToLabels | dep/libevent-2.1.8-stable/evdns.c:1598-1663 | succeeds if and only if the labels are short and the checked bytes fit, else -1 or -2 by what comes first; the whole memory afterwards, also when it fails in the middle of a name; the table is extended; the byte behind buf_len is written if and only if no suffix is in the table, the name ends in a label and its length and start add up to buf_len - 1 |
| DnsEncode.OverrunExample | dep/libevent-2.1.8-stable/evdns.c:1644-1653 | the name ab in a buffer of three bytes: the result is four, and the byte behind is zero |
| DnsMessage.MessageReads | dep/libevent-2.1.8-stable/evdns.c:1890-1966 | every piece of a message written with one shared table reads at its start as what it is, and ends where the next one starts |
| DnsMessage.U16Is | dep/libevent-2.1.8-stable/evdns.c:1607-1613 | 16 bits, the most significant byte first |
| DnsMessage.U32Is | dep/libevent-2.1.8-stable/evdns.c:1614-1620 | 32 bits, the most significant byte first |
| DnsMessage.NamesSurvive | dep/libevent-2.1.8-stable/evdns.c:1966-1981 | of a message that is cut, exactly the names that end by then can be read, and they come back with the index behind them |
| DnsMessage.ReadName | dep/libevent-2.1.8-stable/evdns.c:959-1013 | reading a name of a cut message with name_parse: text, NUL and index, or failure, exactly |
| DnsResponse.WriteAll | dep/libevent-2.1.8-stable/evdns.c:1915-1964 | the pieces are written in order until one does not fit; only the last one written can leave the buffer |
| DnsResponse.FormatResponse | dep/libevent-2.1.8-stable/evdns.c:1890-1985 | a response complete when all fits and is not longer than 512 bytes, else the first 512 bytes of the buffer with the truncation bit, as a function of what was written and of the stack; in bytes: the header, and the numbers behind the name of every question and of every reply that ends within the response; an error exactly when the name of a question does not fit; the byte behind the buffer is written if and only if the message ends behind it |
| DnsFields.FlagBit | dep/libevent-2.1.8-stable/evdns.c:1968-1971 | setting 0x02 in the first byte of the flags adds 0x0200 to them, unless it is set already |
| DnsFields.AllFields | dep/libevent-2.1.8-stable/evdns.c:1909-1966 | id, flags and counts at 0 to 12; type, class, time to live and length behind the names of the questions, answers, authority and additional records, in that order, most significant byte first |
| DnsReadBack.ReadBack | dep/libevent-2.1.8-stable/evdns.c:1890-1985 | reading a response that is not cut from byte 12 on, name after name, gives the questions, answers, authority and additional records of the request with their numbers and data, and ends at its end |
| DnsResponse.StackShows | dep/libevent-2.1.8-stable/evdns.c:1968-1981 | a response that is cut is the same whatever was on the stack if and only if 512 bytes of the buffer had been written before a piece was refused |
| DnsResponse.NamesOfResponse | dep/libevent-2.1.8-stable/evdns.c:1890-1985 | exactly the names that end within the response can be read from it, and name_parse gives them back with the index behind them |
| DnsResponse.EnoughRoom | dep/libevent-2.1.8-stable/evdns.c:1915-1964 | legal names and pieces that would fit without compression can all be written |
| DnsExample.OverrunExample | dep/libevent-2.1.8-stable/evdns.c:1890-1985 | a response that writes the byte behind its buffer of 1500 bytes: a question for the root, an answer of 1468 bytes for it, and an answer for ab |
| DnsExample.StackExample | dep/libevent-2.1.8-stable/evdns.c:1960-1981 | an answer of more than 1471 bytes is refused after 29 bytes: the other 483 of the response are those that were on the stack |
| DnsTables.JoinBucket | dep/libevent-2.1.8-stable/evdns.c:2720-2734 | a request with a fresh id joins its bucket: the tables and all counters stay exact |
| DnsTables.LeaveBucket | dep/libevent-2.1.8-stable/evdns.c:2682-2717 | a request leaves its bucket; its server had it counted |
| DnsTables.CountsAddUp | dep/libevent-2.1.8-stable/evdns.c:2823-2841 | the in-flight counts of the servers add up to the global one |
| DnsRequests.DnsBase.constructor | dep/libevent-2.1.8-stable/evdns.c:3899-3976 | an empty base |
| DnsRequests.DnsBase.Find | dep/libevent-2.1.8-stable/evdns.c:468-483 | finds the unique request in flight with this id, or there is none |
| DnsRequests.DnsBase.PickId | dep/libevent-2.1.8-stable/evdns.c:1317-1329 | an id that is not in flight and not 0xffff; there always is one |
| DnsRequests.DnsBase.Submit | dep/libevent-2.1.8-stable/evdns.c:2746-2841 | in flight exactly when the limit and the servers allow it, else last in the queue of those that wait; the tables stay exact |
| DnsRequests.DnsBase.Pump | dep/libevent-2.1.8-stable/evdns.c:742-770 | starts waiting requests in order until the limit is reached or none waits |
| DnsRequests.DnsBase.Finish | dep/libevent-2.1.8-stable/evdns.c:648-706 | the request is gone from table, queue and counters, and the waiting ones are started from the front; the others keep their order |
| DnsRequests.DnsBase.SwapNs | dep/libevent-2.1.8-stable/evdns.c:544-553 | moves a request between servers; the counts stay exact and the assertion in the code holds |
| DnsRequests.DnsBase.AddServer | dep/libevent-2.1.8-stable/evdns.c:2484-2564 | a new server has nothing in flight |
| DnsRequests.DnsBase.Rehash | dep/libevent-2.1.8-stable/evdns.c:3385-3414 | the same requests in a table of another size: every id still leads to the same request |
| DnsRequests.DnsBase.Suspend | dep/libevent-2.1.8-stable/evdns.c:2395-2458 | everything in flight waits again, in front of what waited before |
| DnsRequests.Unused | dep/libevent-2.1.8-stable/evdns.c:1317-1329 | with at most 65000 requests in flight some id is free |
| Arc4.StepIsBijective | dep/libevent-2.1.8-stable/arc4random.c:114-119 | every round can be undone |
| Arc4.StepIs | dep/libevent-2.1.8-stable/arc4random.c:114-119 | a round in plain arithmetic: i goes on by one, j by the byte at i and the key byte, modulo 256, and the bytes at i and j change places |
| Arc4.MixIsInjective | dep/libevent-2.1.8-stable/arc4random.c:113-120 | the rounds with the same key never make two states one |
| Arc4.AddLosesOnlyJ | dep/libevent-2.1.8-stable/arc4random.c:107-122 | what arc4_addrandom leaves behind, together with the j it overwrites, tells which state it was |
| Arc4.AddMerges | dep/libevent-2.1.8-stable/arc4random.c:107-122 | every j may be the one that is overwritten: arc4_addrandom makes 256 states one |
| Arc4.EveryByte | dep/libevent-2.1.8-stable/arc4random.c:96-122 | the state holds every byte value |
| Arc4.Stream.constructor | dep/libevent-2.1.8-stable/arc4random.c:96-105 | the identity permutation |
| Arc4.Stream.AddRandom | dep/libevent-2.1.8-stable/arc4random.c:107-122 | 256 rounds over the repeated key; the state stays a permutation |
| Arc4.Stream.GetByte | dep/libevent-2.1.8-stable/arc4random.c:425-437 | i goes on by one and j by the byte at i, modulo 256, the bytes at i and j change places, and the result is the byte at the place that is their sum; the state stays a permutation |
| Arc4.LeastIsRemainder | dep/libevent-2.1.8-stable/arc4random.c:530-540 | the 32-bit computation of min gives 2^32 mod upper_bound, and rejects less than half of the draws |
| Arc4.NoBias | dep/libevent-2.1.8-stable/arc4random.c:512-555 | each residue has exactly the same number of accepted draws |
| Arc4.Uniform | dep/libevent-2.1.8-stable/arc4random.c:522-555 | the first draw that is not below 2^32 mod upper_bound, reduced |

## Left out

- `wolfcc/*`: system-call wrappers, configuration and start-up wiring; easy members only.
- Real system calls (readv, writev, epoll_wait, sendto, recvfrom), Windows and TLS code.
- evbuffer: pinned, referenced, sendfile, file-segment and multicast chains, callbacks and their byte counters, locking, `evbuffer_peek`, `evbuffer_add_printf`. Chains are mutable and unpinned; a chain that is freed just leaves the list.
- Allocation failures other than the refusal of a size that is too large; `EvbufferOps.Prepend` has malloc refuse as well, since what it leaves behind then is the point. In particular `evbuffer_remove_buffer`, which does not look at the result of its `evbuffer_add`, is modelled with memory to spare. Sizes are those of a 64-bit system (`EV_SIZE_MAX` is 2^64 - 1).
- Two vectors have the same base address when they have the same block and offset; comparing addresses across blocks is not modelled.
- Re-entry from user callbacks, anywhere.
- EvbufferMove.RemoveBuffer: requires that both buffers fit into memory together, where the code does not look at the sum for whole chains.
- EvbufferSearch.SearchRange: requires a length of at most SIZE_MAX, which the type of total_len gives in C.
- Other errors of `epoll_ctl`, such as ENOMEM and ENOSPC; edge-triggered flags, signals as descriptors, `evmap_reinit_`, evport, devpoll and the other backends.
- Overflow of `nentries` in `evmap_make_space`, which is an int in C.
- Changelist.EventBase.DelIo: takes the position of the event in its list, which the links of the event give in C.
- The min-heap implementation, the common-timeout bits packed into tv_usec (a handle is a separate field), `event_base_loop` and waiting, debug-mode tables, threads and notification, `USE_REINSERT_TIMEOUT` (not defined).
- `event_active_nolock_`'s result counts and signal bookkeeping, and `n_deferreds_queued`.
- EventLoop.EventBase.Add: for an absolute time of a periodic event requires the handle it was given before, as `event_persist_closure`, its only caller of that kind, has it.
- TokenBuckets.Bandwidth: excludes negative uses (refunds), which can lift the limit above the maximum.
- BevSuspend.Bufferevent.Decrement: requires that the difference fits in an ev_ssize_t, beyond which the C is undefined; likewise `DecrementLimit` and those of a group.
- EvbufferReadln.Strspn: does not model the overflow of its count, which is an int in C, on a run of more than 2^31 - 1 bytes.
- Rate limiting of groups is modelled for reading; writing is the same code with other names, except for a connecting socket. A failing `event_add` of a refill timer, moving a bufferevent from one group to another, and freeing a group are not modelled.
- The member lock that `bufferevent_get_rlim_max_` and `AddFinish` run under is given by their place in the code, not modelled.
- Tagging: streams of at most 2^31 - 1 bytes, the range of the int results; `evtag_marshal_string` and `evtag_unmarshal_string` are the byte-string calls with a terminating zero. Seconds and microseconds are below 2^32.
- DnsEncode.TableKept: requires a name without empty labels in the middle (`ReadsIff` says what they do; `DnsResponse.NamesOfResponse` is about messages without them) and a message below 0x4000 bytes, beyond which a position does not fit in a pointer; a response of the server has at most 1501.
- DnsResponse.FormatResponse: takes the flags word with the error code in it as a parameter (the refusal of codes outside 0 to 15 at evdns.c:1902 is left out), and stores 16 and 32 bits of the other numbers.
- DNS: choosing among name servers, transmissions, timeouts, probes, truncated replies, search domains (`search_try_next` picks an id before `request_finished` pumps the queue), hosts and resolv.conf files, server ports, case randomization.
- DnsRequests.DnsBase.Suspend: takes requests out of the counters one at a time, where the code sets them at the end; nothing looks in between.
- Seeding and stirring of arc4random, and the endless loop of `arc4random_uniform`: the model works on a finite list of draws.
