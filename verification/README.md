# Models of the byedpi and lwIP cores

This project models seven pieces of the native code of the application and proves what they
are for. Each piece works on its own data:

- **The prefix index** (`byedpi/kavl.h`, `byedpi/mpool.c`): a non-recursive AVL tree whose nodes
  carry balance factors and subtree sizes, used by pools of keys in which two keys compare as
  equal when one covers the other. `Elements`, `AvlTrees`, `Kavl`, `KavlErase`, `KavlIterator`
  are the tree; `Prefixes`, `Comparators`, `KeyTrees`, `KeyOrder`, `MPool`, `HostLists`,
  `HostWalks` the pools.
- **The heap** (`lwip/src/core/mem.c`): a first-fit allocator that drops its protection in the
  middle of a scan. `MemBlocks` holds the block list, `MemHeap` the allocator, with any
  script of frees and trims by other contexts, which may go on in every gap.
- **Packet buffers** (`lwip/src/core/pbuf.c`): reference-counted chains that stand for one flat
  byte sequence. `PbufStore` to `PbufSearch`.
- **The Internet checksum** (`lwip/src/core/inet_chksum.c`), section 2 of RFC 1071:
  `OnesComplement`, `Checksum`, `PbufChecksum`.
- **The event pool** (`byedpi/conev.c`): slots, pairs, timers, spare buffers and generation
  numbers. `TimerList`, `EventPool`, `EventRounds`.
- **Strategy fallback and TLS records** (`byedpi/extend.c`, `packets.c`, `desync.c`), section 5.1
  of RFC 8446: `GroupList`, `Fallback`, `TlsTracker`, `TlsRecords`, `TlsMerge`.
- **The socket table** (`lwip/src/api/sockets.c`): the use and free-pending protocol of
  full-duplex sockets. `SocketTable` is the protocol as a state machine over locked sections,
  `Sockets` the functions that run on it.

Records behind pointers are a `map` or a `seq` field of a class; each method that changes such a
field is tied by its `ensures` to a function of the old value, and the lemmas are about that
function. The trees of `kavl.h` are objects linked by their fields. Other contexts and threads
are arbitrary steps, bounded only by a number the caller may choose freely.

## What the code does not do

The proofs found inputs on which the code does not keep what its documentation or its callers
expect. In each case the exact condition is proved:

- A list of host names can answer wrongly once a name contains a byte below the dot, such as `-`:
  `HostLists.LookupExactIff` for an alphabet and `HostWalks.ListExactIff` for one given list, with
  the tree in `HostLists.ShadowedParent`, and a condition on the names alone in
  `HostWalks.SpreadIsExact`. It then misses listed names; it never accepts others.
- A list of addresses accepts an address that begins a longer prefix, as an IPv6 rule for an IPv4
  address: `MPool.CheckIp`, `MPool.LongerPrefix`.
- `tot_len` goes wrong in chains that share a tail: `PbufChains.Cat`, `PbufChains.Chain`,
  `PbufSplits.Dechain`, `PbufSplits.Realloc`, `PbufSplit64k.Split64k`, with the smallest case in
  `PbufChains.SharedTail`; and in headers freed while shared: `PbufSplits.HeadlessTotals`.
- `pbuf_copy_partial_pbuf` writes past the first pbuf when the offset lies behind it, since the
  room left in it wraps around: `PbufCopy.CopyPartialPbuf`, with such arguments in
  `PbufCopy.WritesOutside`.
- `merge_tls_records` never ends on some records that were cut: `TlsMerge.CutEndsIff`, with such a
  record in `TlsMerge.NeverEnds`; and it damages others: `TlsMerge.MergeUndoes`.
- The record loop of `tamp` counts five bytes for a place past the record although nothing is
  written, and then takes what stands behind that place for a record: `TlsRecords.Tamp`.
- A timer fires before its time when a wait is interrupted and the last event was a timeout:
  `EventRounds.FiresEarlyIff`, with such a run in `EventRounds.EarlyTimer`.
- The assertion of `sock_inc_used_locked` fails for a descriptor released by its last user:
  `SocketTable.LookupAssertsIff`, `SocketTable.LookupAssertsFails`.
- The second checksum algorithm holds up to 0x20002 bytes, two more than its comment says, and for
  no greater length: `Checksum.NoOverflow`, `Checksum.OverflowBeyond`.

## Model

| member | source | states |
|---|---|---|
| `AvlTrees.FibonacciBound` | app/src/main/cpp/byedpi/kavl.h:69-79 | a balanced tree of height h has at least Fib(h+2)-1 elements |
| `AvlTrees.Sparsest` | app/src/main/cpp/byedpi/kavl.h:69-79 | for every h a balanced tree of height h with exactly that many elements |
| `AvlTrees.HeightFitsPath` | app/src/main/cpp/byedpi/kavl.h:69-69 | a balanced tree whose size fits 32 bits has fewer than 64 levels, so no recorded path overruns its array |
| `Kavl.Find` | app/src/main/cpp/byedpi/kavl.h:81-95 | the loop ends at the element the comparator leads to, with its rank, or at null with the rank of the gap |
| `Kavl.LocateComplete` | app/src/main/cpp/byedpi/kavl.h:81-95 | if the comparison falls along the order, a miss means that no element compares as equal and the rank separates smaller from larger ones |
| `Kavl.RotateSingle` | app/src/main/cpp/byedpi/kavl.h:99-108 | a single rotation hangs the three subtrees as it should, with exact sizes; the balance factors are left to the caller |
| `Kavl.RotateDouble` | app/src/main/cpp/byedpi/kavl.h:109-127 | a double rotation yields the rotated shape, with exact sizes and balance factors |
| `Kavl.SearchPlace` | app/src/main/cpp/byedpi/kavl.h:138-152 | the search records the path to the free place, and its last node out of balance, within 64 entries; or it stops at an equal element with its rank |
| `Kavl.AddToSizes` | app/src/main/cpp/byedpi/kavl.h:157-157 | adding to the sizes along the recorded path makes every subtree size right for a tree larger by that much below it |
| `Kavl.Rebalance` | app/src/main/cpp/byedpi/kavl.h:162-172 | one single or double rotation at the last unbalanced node restores balance and order, sizes and balance factors of the whole tree |
| `Kavl.Insert` | app/src/main/cpp/byedpi/kavl.h:129-173 | either the equal element is returned and nothing changes, or the element is added at its rank and the whole tree is a valid AVL tree again; without need of rotation it is the plain insertion |
| `KavlErase.SingleBack` | app/src/main/cpp/byedpi/kavl.h:244-250 | the rotation of a removal that lifts the sibling, with exact balance factors, and whether the height stays |
| `KavlErase.CutNext` | app/src/main/cpp/byedpi/kavl.h:207-212 | the removed node is replaced by its right child, which has no left one |
| `KavlErase.CutDeep` | app/src/main/cpp/byedpi/kavl.h:213-231 | the removed node is replaced by its successor from deeper down, and the path goes on to where that stood |
| `KavlErase.Climb` | app/src/main/cpp/byedpi/kavl.h:233-253 | the upward loop, with its early exits, leaves a valid tree with the same elements in order |
| `KavlErase.Erase` | app/src/main/cpp/byedpi/kavl.h:175-256 | exactly the element found is taken out, `cnt` is its rank, and the rest is a valid AVL tree with exact sizes and balance factors; or nothing changes |
| `KavlErase.EraseFirst` | app/src/main/cpp/byedpi/kavl.h:196-256 | without a key, the first element of a non-empty tree is taken out |
| `KavlIterator.Iterator.constructor` | app/src/main/cpp/byedpi/kavl.h:276-281 | the iterator starts with the whole sequence ahead, in at most 64 stack entries |
| `KavlIterator.Iterator.Next` | app/src/main/cpp/byedpi/kavl.h:300-309 | one step moves past exactly one element and tells whether any is left |
| `KavlIterator.Traverse` | app/src/main/cpp/byedpi/kavl.h:272-310 | a full traversal visits every element once, in order |
| `Elements.CompareHosts` | app/src/main/cpp/byedpi/mpool.c:39-54 | the backward loop computes the comparison of names from their ends, where a name equals its sub-domains |
| `Comparators.ScmpIsPrefixCmp` | app/src/main/cpp/byedpi/mpool.c:10-67 | each of the three comparisons is the prefix comparison of canonical sequences, for any `char` signedness (host names: without a byte below the dot) |
| `Comparators.EqualMeansCovers` | app/src/main/cpp/byedpi/mpool.c:10-67 | two keys compare as equal if and only if one covers the other |
| `Comparators.CoversBits` | app/src/main/cpp/byedpi/mpool.c:10-37 | an address prefix covers exactly what agrees with it bit by bit as far as it goes, the most significant bit of each byte first |
| `Comparators.ScmpFalls` | app/src/main/cpp/byedpi/mpool.c:57-69 | going up through stored keys, the comparison with any query only falls, although equality is not transitive |
| `Comparators.HostOrderedIff` | app/src/main/cpp/byedpi/mpool.c:39-54 | names over an alphabet with the dot are ordered in that sense if and only if no character is below the dot |
| `Comparators.BelowDot` | app/src/main/cpp/byedpi/mpool.c:39-54 | the bytes below the dot are those less than 0x2e and, where `char` is signed, those from 0x80 on |
| `KeyTrees.ShapeFacts` | app/src/main/cpp/byedpi/kavl.h:81-95 | the shape of a tree of elements has the tree's keys, balance and search results |
| `KeyOrder.CmpFollows` | app/src/main/cpp/byedpi/mpool.c:10-67 | for all keys a comparison that is not zero agrees with one strict order: names by their bytes from the end, a proper end first |
| `KeyOrder.StoredIsFound` | app/src/main/cpp/byedpi/kavl.h:81-95 | in a tree in that order the search for a stored key always finds something, whatever the names |
| `KeyOrder.AllAddedSorted` | app/src/main/cpp/byedpi/mpool.c:105-125 | whatever is added, and whatever is evicted for it, the keys stay strictly in that order |
| `KeyOrder.AllAddedEnds` | app/src/main/cpp/byedpi/mpool.c:105-125 | the additions of any list of keys come to an end |
| `MPool.Pool.Get` | app/src/main/cpp/byedpi/mpool.c:83-90 | a lookup ends where the search of the tree does: it never misses a key that is stored, and without bytes below the dot none comparable with the query |
| `MPool.Pool.Delete` | app/src/main/cpp/byedpi/mpool.c:128-140 | at most one key comparable with the given one goes, and the count with it; deleting by the key of a stored element always takes one out |
| `MPool.Pool.Add` | app/src/main/cpp/byedpi/mpool.c:105-125 | for all keys the eviction loop ends, `count` stays the number of nodes, the tree is a valid AVL tree in key order, and a key that covers the new one is in it; without bytes below the dot the stored prefixes become the minimal set that covers the same |
| `MPool.Pool.Destroy` | app/src/main/cpp/byedpi/mpool.c:143-153 | every element is freed once, in order, and none is left |
| `MPool.Fill` | app/src/main/cpp/byedpi/mpool.c:105-125 | any list of keys can be added, and the tree is one that the insertions and deletions allow; without bytes below the dot the stored set is the antichain of the minimal prefixes added |
| `Prefixes.AddAllFaithful` | app/src/main/cpp/byedpi/mpool.c:105-125 | whatever the order of additions, a query is covered by the stored set if and only if some added prefix covers it |
| `Prefixes.AddAllMinimal` | app/src/main/cpp/byedpi/mpool.c:105-125 | the stored set is exactly the added prefixes that no other added one covers |
| `MPool.CheckIp` | app/src/main/cpp/byedpi/extend.c:255-269 | an address is accepted if and only if an added prefix covers it or begins with it; this is coverage exactly when no added prefix is a longer one, unless one covers it anyway |
| `MPool.LongerPrefix` | app/src/main/cpp/byedpi/extend.c:255-269 | a rule for one IPv6 address accepts an IPv4 address that no rule covers |
| `MPool.CheckHost` | app/src/main/cpp/byedpi/extend.c:238-252 | a host is accepted exactly if the search ends at a name that is not longer, which then is the host or a parent domain of it; with clean names in the pool this is if and only if some added name is |
| `HostLists.LookupExactIff` | app/src/main/cpp/byedpi/extend.c:238-252 | for all lists over an alphabet with the dot, in any order, and all queries the host test is exact, if and only if no character of the alphabet is below the dot |
| `HostWalks.ListExactIff` | app/src/main/cpp/byedpi/extend.c:238-252 | for any one list of names and a tree that came of adding it, the host test is exact for all queries if and only if the search for each listed name ends at a name that covers it, and does not turn left at one that continues the listed name with a byte below the dot |
| `HostWalks.SpreadIsExact` | app/src/main/cpp/byedpi/extend.c:238-252 | in whatever order a list was added, the host test is exact for it if no listed name continues, with a byte below the dot, one that no other listed name covers |
| `HostWalks.AcceptsOnlyListed` | app/src/main/cpp/byedpi/extend.c:238-252 | whatever the names, nothing is accepted that is neither listed nor a sub-domain of a listed name |
| `HostLists.AddedGood` | app/src/main/cpp/byedpi/mpool.c:105-125 | adding a clean name keeps the tree ordered and adds exactly what that name covers |
| `HostLists.Shadowed` | app/src/main/cpp/byedpi/mpool.c:39-54 | with a byte c below the dot, the names cc and c added in this order do not match .c, a sub-domain of c |
| `HostLists.ShadowedParent` | app/src/main/cpp/byedpi/mpool.c:39-54 | the tree after these two insertions is valid and holds both names, and the search for the sub-domain returns null |
| `MemHeap.Heap.constructor` | app/src/main/cpp/lwip/src/core/mem.c:503-535 | the heap starts as one free block between offset 0 and the end marker |
| `MemHeap.Heap.PlugHoles` | app/src/main/cpp/lwip/src/core/mem.c:461-495 | a freed block is merged with free neighbours on both sides and nothing else changes |
| `MemHeap.Heap.LinkValid` | app/src/main/cpp/lwip/src/core/mem.c:538-552 | the link check accepts every block of the list |
| `MemHeap.Heap.Free` | app/src/main/cpp/lwip/src/core/mem.c:604-672 | a legal free is never rejected and releases exactly that block, whose bytes leave the statistics; any other pointer changes nothing but the count of illegal frees |
| `MemHeap.Heap.Trim` | app/src/main/cpp/lwip/src/core/mem.c:686-807 | the block ends at the request rounded up if the next one is free or a free block fits behind it, and where it did otherwise; the rest is merged into the free block behind; the statistics go down by what it loses, other blocks and owners are untouched |
| `MemHeap.Heap.Interrupt` | app/src/main/cpp/lwip/src/core/mem.c:858-868 | whatever actions of a script other contexts get to in a gap, the heap stays sound, room only grows, blocks not released stay and blocks not shrunk keep their size, and without the flag set nothing has moved |
| `MemHeap.Heap.Scan` | app/src/main/cpp/lwip/src/core/mem.c:848-874 | the scan from the cursor never reads a header merged away; it stops at the first block that fits, or at none because none does, or because it was disturbed |
| `MemHeap.Heap.Malloc` | app/src/main/cpp/lwip/src/core/mem.c:818-963 | with frees and trims in every gap: the block handed out was nobody's and free in the heap seen at the choice, which came of the heap at the call by actions of the script, and it is the first that fits there, large enough and aligned; a block that is not released stays with its holder and is not handed out; null means no free block is large enough, and room at the start means success; the block ends at the request, rounded up to four and at least 12 bytes, if a header and 12 bytes fit behind it, which without interruption are then a free block up to the old end, and at the old end otherwise |
| `MemHeap.ServesBoth` | app/src/main/cpp/lwip/src/core/mem.c:876-915 | a free block large enough for two requests serves both of them |
| `MemHeap.Heap.OwnedApart` | app/src/main/cpp/lwip/src/core/mem.c:818-963 | live allocations lie in the heap, disjoint and as large as asked for |
| `MemHeap.Heap.AllFreed` | app/src/main/cpp/lwip/src/core/mem.c:604-672 | once everything is freed the heap is one free block again and the statistics are zero |
| `MemHeap.Run` | app/src/main/cpp/lwip/src/core/mem.c:604-963 | over any run of legal requests the heap stays valid and no free is rejected |
| `MemHeap.Determined` | app/src/main/cpp/lwip/src/core/mem.c:461-495 | the used blocks determine the whole block list: no history of merging leaves another one |
| `OnesComplement.OnesAdd` | app/src/main/cpp/lwip/src/core/inet_chksum.c:79-115 | folding early or late gives the same one's complement sum |
| `Checksum.Chksum1` | app/src/main/cpp/lwip/src/core/inet_chksum.c:79-115 | the byte-pair loop is the folded sum of big-endian words modulo 2^32 |
| `Checksum.Chksum2` | app/src/main/cpp/lwip/src/core/inet_chksum.c:132-169 | the word loop with an odd start is the settled sum of aligned words modulo 2^32 |
| `Checksum.Chksum3` | app/src/main/cpp/lwip/src/core/inet_chksum.c:188-248 | the unrolled loop with end-around carries is the settled sum, for any length |
| `Checksum.Chksum1Exact` | app/src/main/cpp/lwip/src/core/inet_chksum.c:79-115 | the first algorithm is exact if and only if its accumulator does not overflow |
| `Checksum.Chksum2Exact` | app/src/main/cpp/lwip/src/core/inet_chksum.c:132-169 | the second is exact if and only if its accumulator does not overflow |
| `Checksum.NoOverflow` | app/src/main/cpp/lwip/src/core/inet_chksum.c:117-129 | no data of up to 0x20002 bytes overflows it |
| `Checksum.OverflowBeyond` | app/src/main/cpp/lwip/src/core/inet_chksum.c:117-129 | for every greater length some data does, and the result is wrong |
| `Checksum.AllAgree` | app/src/main/cpp/lwip/src/core/inet_chksum.c:79-248 | the three algorithms agree, for every start alignment and byte order, including which of 0 and 0xffff is returned |
| `Checksum.RfcAgrees` | app/src/main/cpp/lwip/src/core/inet_chksum.c:79-248 | the result is the end-around-carry sum of section 2 of RFC 1071 |
| `Checksum.ByteOrderFree` | app/src/main/cpp/lwip/src/core/inet_chksum.c:79-248 | on a machine of the other byte order the sum is the swapped one |
| `PbufChecksum.SumChain` | app/src/main/cpp/lwip/src/core/inet_chksum.c:264-284 | walking a chain with any mix of odd and even segments keeps the sum of the bytes so far, swapped or not; `tot_len` is not looked at |
| `PbufChecksum.InetChksumPbuf` | app/src/main/cpp/lwip/src/core/inet_chksum.c:568-594 | the checksum of a chain equals the checksum of its bytes in one piece |
| `PbufChecksum.InetChksumPseudo` | app/src/main/cpp/lwip/src/core/inet_chksum.c:259-333 | the checksum with a pseudo header is the complement of the sum of its fields and the chain's bytes |
| `PbufChecksum.PseudoHeader` | app/src/main/cpp/lwip/src/core/inet_chksum.c:259-333 | that sum is the Internet sum of the bytes of the pseudo header, in network order, and the data behind them |
| `PbufChecksum.Verifies` | app/src/main/cpp/lwip/src/core/inet_chksum.c:555-594 | a checksum stored in place of two zero bytes makes the whole data sum to 0xffff |
| `PbufRefs.Free` | app/src/main/cpp/lwip/src/core/pbuf.c:729-804 | giving up a handle keeps every reference count equal to links plus handles, and returns the number of pbufs freed as 8 bits |
| `PbufRefs.FreedRun` | app/src/main/cpp/lwip/src/core/pbuf.c:729-804 | exactly the longest run of pbufs at the head with one reference is freed; the next loses one; nothing else changes |
| `PbufRefs.FreedCount` | app/src/main/cpp/lwip/src/core/pbuf.c:738-803 | the number returned is that of the pbufs that are gone, modulo 256 |
| `PbufChains.Cat` | app/src/main/cpp/lwip/src/core/pbuf.c:857-882 | the bytes are joined, the handle on the tail is taken over, and `tot_len` is right everywhere after if and only if no other pbuf links into the head chain or the tail is empty |
| `PbufChains.Ref` | app/src/main/cpp/lwip/src/core/pbuf.c:833-841 | one more handle and one more reference |
| `PbufChains.Chain` | app/src/main/cpp/lwip/src/core/pbuf.c:900-906 | the same as joining, but the caller keeps its handle |
| `PbufChains.SharedTail` | app/src/main/cpp/lwip/src/core/pbuf.c:857-906 | two chains made to share a tail, then one of them extended: the other's `tot_len` is one short |
| `PbufChains.SplicedTotalsIff` | app/src/main/cpp/lwip/src/core/pbuf.c:857-882 | adding to the totals before a new tail keeps all totals right if and only if nothing else links into that part or nothing was added |
| `PbufSplits.Dechain` | app/src/main/cpp/lwip/src/core/pbuf.c:917-945 | the first pbuf is cut off and its reference to the rest given up; totals stay right if and only if nothing links to it or the rest is empty |
| `PbufSplits.TailGone` | app/src/main/cpp/lwip/src/core/pbuf.c:929-944 | for fewer than 256 pbufs the returned count tells whether the rest is gone |
| `PbufSplits.Realloc` | app/src/main/cpp/lwip/src/core/pbuf.c:404-462 | for a length below that of the chain in 16 bits the chain keeps its first bytes in the least number of pbufs that hold them, at least one; of those behind, the ones with a single reference are freed up to the first with more, which loses one; no pbuf outside changes, and totals stay right if and only if nothing else links into what remains; otherwise nothing changes |
| `PbufSplits.FreeHeader` | app/src/main/cpp/lwip/src/core/pbuf.c:676-708 | the chain left has the bytes behind the header; whole pbufs are let go one by one, no more than the header reaches, and the rest is hidden |
| `PbufSplits.HeadlessTotals` | app/src/main/cpp/lwip/src/core/pbuf.c:676-708 | totals are right after that if and only if each pbuf let go is gone or had nothing behind it, and the shortened one is nobody else's tail |
| `PbufSplit64k.FindFront` | app/src/main/cpp/lwip/src/core/pbuf.c:1157-1165 | the 16-bit sums find the longest front of less than 64K |
| `PbufSplit64k.Split64k` | app/src/main/cpp/lwip/src/core/pbuf.c:1153-1187 | front and rest together are the old chain and bytes, the front is less than 64K and could not take one more pbuf; totals are right if and only if nothing else links into the front or the rest's is 0 |
| `PbufSplit64k.ExactTotals` | app/src/main/cpp/lwip/src/core/pbuf.c:1153-1187 | in a chain of less than 64K every `tot_len` is the exact length from there on |
| `PbufBytes.Skip` | app/src/main/cpp/lwip/src/core/pbuf.c:1192-1228 | the pbuf and place of the byte at an offset of the flat bytes |
| `PbufBytes.CopyPartial` | app/src/main/cpp/lwip/src/core/pbuf.c:1061-1095 | exactly the bytes from the offset on are copied, as many as asked for or as there are behind the offset, and the buffer behind them is untouched |
| `PbufBytes.Take` | app/src/main/cpp/lwip/src/core/pbuf.c:1236-1265 | the data is written over the flat bytes from the start, or nothing is |
| `PbufBytes.TakeAt` | app/src/main/cpp/lwip/src/core/pbuf.c:1280-1302 | the data is written at the offset exactly if it fits into the rest of the chain by its length in 16 bits, which below 64K is the whole rest, and otherwise nothing is; all other bytes of the chain and all other pbufs are unchanged |
| `PbufSearch.TakeThenCopy` | app/src/main/cpp/lwip/src/core/pbuf.c:1061-1302 | what was written at an offset is read back there, in chains of any length |
| `PbufSearch.Memcmp` | app/src/main/cpp/lwip/src/core/pbuf.c:1474-1504 | 0 for a match, 0xffff if out of range, otherwise one more than the first difference |
| `PbufSearch.Memfind` | app/src/main/cpp/lwip/src/core/pbuf.c:1516-1533 | the least matching index from the start offset, or 0xffff, and the 16-bit index does not wrap |
| `PbufCopy.CopyPartialPbuf` | app/src/main/cpp/lwip/src/core/pbuf.c:989-1045 | between any two segmentations the bytes are copied over at the offset; the argument errors exactly; for an offset behind the first pbuf, and only then, the first round writes outside it as many bytes as asked for or as the first source pbuf holds, and the assertion after that fails |
| `PbufCopy.WritesInside` | app/src/main/cpp/lwip/src/core/pbuf.c:1007-1024 | with the unsigned differences wrapping around, a round stays inside the pbuf it writes if and only if it starts inside it |
| `PbufCopy.WritesOutside` | app/src/main/cpp/lwip/src/core/pbuf.c:1007-1024 | arguments that are accepted and with which three bytes go behind a pbuf of one byte |
| `PbufCopy.NonEmptyPacket` | app/src/main/cpp/lwip/src/core/pbuf.c:1030-1041 | chains of non-empty pbufs are never taken for packet queues |
| `PbufCopy.Copy` | app/src/main/cpp/lwip/src/core/pbuf.c:962-967 | the flat bytes of one chain replace the start of the other, however both are cut |
| `EventPool.Pool.AddEvent` | app/src/main/cpp/byedpi/conev.c:65-97 | the first free slot is filled and becomes the last active one; refused exactly when the pool is full |
| `EventPool.Pool.DelEvent` | app/src/main/cpp/byedpi/conev.c:100-162 | on any graph of pairs it ends and empties exactly the active slots the pairs lead to, each one generation on; their buffers, in the order of the pairs, come onto the spare ones as long as there are fewer than eight; the others, their timers and the permutation of slots are kept |
| `EventPool.Pool.Destroy` | app/src/main/cpp/byedpi/conev.c:165-186 | the loop ends with no slot active and no timer armed |
| `EventPool.Pool.NextEvent` | app/src/main/cpp/byedpi/conev.c:190-213 | an event is handed out only to a slot that is as it was when polled; exactly the outdated ones are passed over, and a new batch is polled only when nothing is left |
| `EventPool.Pool.NextEventTv` | app/src/main/cpp/byedpi/conev.c:327-345 | the first timer fires if it is due, or if the wait ends with a timeout, or fails after one; it alone is disarmed and the batch stays as polled; otherwise it is the next event, if there is one |
| `EventRounds.LoopEvent` | app/src/main/cpp/byedpi/conev.c:348-367 | the event loop: each turn is one wait, which hands out an event of the batch, polls a new batch, fires the first timer or gives nothing, and then the handler's registrations, deletions, pairs and timers, each from the state the last one left |
| `EventRounds.RoundTells` | app/src/main/cpp/byedpi/conev.c:353-366 | a round runs the handler, deletes its slot exactly if the handler failed, which leaves it inactive, and does nothing without an event |
| `EventRounds.ActTells` | app/src/main/cpp/byedpi/conev.c:65-304 | registering fills a free slot with the descriptor, deleting leaves the slot inactive, pairing and arming set the pair and the time |
| `EventRounds.OncePerBatch` | app/src/main/cpp/byedpi/conev.c:190-213 | over every such run: no event reaches a slot filled or emptied since the poll, the events of a batch go out from the last to the first and each at most once, and when nothing is left of a batch every event of an untouched slot has gone out |
| `EventRounds.WaitTells` | app/src/main/cpp/byedpi/conev.c:190-345 | a due timer comes first, then the next event whose slot is as polled, and only then what the wait gives: new events, the first timer after a timeout, or nothing |
| `EventRounds.FiresEarlyIff` | app/src/main/cpp/byedpi/conev.c:327-345 | when a wait fails before the first timer is due and nothing is left of the batch, the timer fires if and only if the last event was a timeout |
| `EventRounds.EarlyTimer` | app/src/main/cpp/byedpi/conev.c:327-367 | a run of the loop in which a timer set for the time 100 fires at 2 |
| `EventPool.Pool.SetTimer` | app/src/main/cpp/byedpi/conev.c:277-304 | an unarmed slot enters the sorted doubly linked list behind all earlier timers and before all others, an armed one stays where it is |
| `EventPool.Pool.RemoveTimer` | app/src/main/cpp/byedpi/conev.c:307-324 | the slot leaves the list, which stays linked and sorted; nothing happens to an unarmed slot |
| `TimerList.OpenedLinked` | app/src/main/cpp/byedpi/conev.c:284-303 | linking in between two neighbours gives a doubly linked list with one more member |
| `TimerList.ClosedLinked` | app/src/main/cpp/byedpi/conev.c:307-324 | unlinking gives the list without the member, ends moved |
| `EventPool.Pool.PushBuff` | app/src/main/cpp/byedpi/conev.c:399-414 | a buffer goes in front of the spare ones unless there are enough |
| `EventPool.Pool.PopBuff` | app/src/main/cpp/byedpi/conev.c:377-396 | the front spare buffer is taken, or a new one made, and never one that is still spare or in a slot |
| `GroupList.Groups.Swop` | app/src/main/cpp/byedpi/extend.c:322-353 | for any two groups, adjacent or not, the list is the old one with them exchanged, its head updated, and `detect` and `auto_level` stay at their places |
| `GroupList.ExchangeLowers` | app/src/main/cpp/byedpi/extend.c:392-397 | exchanging an earlier larger with a later smaller number strictly lowers the inversions |
| `GroupList.SwopLowers` | app/src/main/cpp/byedpi/extend.c:392-397 | so each swap strictly lowers the `pri` inversions of the list |
| `Fallback.FindDp` | app/src/main/cpp/byedpi/extend.c:571-595 | the cyclic search along the links ends with the first group that is untried, fits, and is the start, has no triggers or shares one with the client, all passed ones marked; or with none, when every untried group that fits is not the start and has triggers that it does not share |
| `Fallback.OnTrigger` | app/src/main/cpp/byedpi/extend.c:356-415 | the first group in the list that answers the failure is chosen, all before it marked; the two groups change places if and only if the failed one is not in the cache mask, the next is to be sorted, has the smaller `pri` and stands behind it; a swap lowers the inversions; the cache entry and the decision to reconnect follow from it |
| `Fallback.Connection` | app/src/main/cpp/byedpi/extend.c:212-235 | each failure runs the trigger and then the search for a group, once more if data comes, each step from the state the last one left; it goes on until all failures are through or a trigger or search ends it |
| `Fallback.RetryTells` | app/src/main/cpp/byedpi/extend.c:356-415 | a new connection is made exactly if there is a next group that allows it and the client can be served again; the group it takes fits, the one data moves it to fits the data, and it takes none only if no untried one fits and is triggered |
| `Fallback.NeverTwice` | app/src/main/cpp/byedpi/extend.c:212-235 | over every such connection the mask only grows, no group fails twice, no two reconnects take the same group, and none takes one that failed before; one group fails per retry, so there are at most as many as groups |
| `TlsTracker.Tracker.Feed` | app/src/main/cpp/byedpi/extend.c:495-541 | the loop over one chunk is the byte-by-byte run of the record automaton, and the timer is armed inside a record only |
| `TlsTracker.RunConcat` | app/src/main/cpp/byedpi/extend.c:495-541 | two chunks lead where their concatenation does |
| `TlsTracker.RunEnds` | app/src/main/cpp/byedpi/extend.c:495-541 | a stream is rejected exactly if a record header in it is bad, and otherwise position and size are equal exactly at a record boundary |
| `TlsTracker.WireWhole` | app/src/main/cpp/byedpi/extend.c:495-541 | records sent one after the other, their lengths in network order, are accepted up to a record boundary if and only if all have a type from 0x14 to 0x18 and none is empty |
| `TlsTracker.WirePart` | app/src/main/cpp/byedpi/extend.c:495-541 | a stream that breaks off inside a record is in it at as many bytes as came of it, with its size known once the header is passed |
| `TlsTracker.FeedAll` | app/src/main/cpp/byedpi/extend.c:495-541 | for every split into non-empty chunks result and position are those of the whole stream |
| `TlsRecords.PartTls` | app/src/main/cpp/byedpi/packets.c:561-577 | the in-place moves cut the record at the place, refuse it, or past the record return the length and write nothing |
| `TlsRecords.Tamp` | app/src/main/cpp/byedpi/desync.c:468-499 | the rounds go on until the places are through or one is refused, for the lengths and the places alone, and the buffer is what these rounds make of it; the places in the record cut it in order, five bytes longer per cut, all behind unchanged; the first place past it adds five bytes without a cut |
| `TlsRecords.ParseFragments` | app/src/main/cpp/byedpi/desync.c:468-499 | the pieces parse as one record more than cuts, all of the type and version, carrying the same payload |
| `TlsMerge.MergeTlsRecords` | app/src/main/cpp/byedpi/packets.c:113-140 | the merging loop takes out one header after another, and writes the lengths at the end |
| `TlsMerge.MergeCut` | app/src/main/cpp/byedpi/packets.c:113-140 | the cuts of a record are undone one by one, after which merging goes on exactly if what is left behind reads as another record of its type |
| `TlsMerge.MergeUndoes` | app/src/main/cpp/byedpi/packets.c:113-140 | a cut single-message record is restored, followed by the stale bytes, if and only if these do not read as a record of its type |
| `TlsMerge.CutEndsIff` | app/src/main/cpp/byedpi/packets.c:113-140 | merging a cut record, with any bytes behind it, never ends if and only if these bytes, and then the stale last five over and over, read record by record of its type, come to an empty one past the former |
| `TlsMerge.NeverEnds` | app/src/main/cpp/byedpi/packets.c:113-140 | a nine-byte message, cut once, on which it never ends |
| `SocketTable.StepKeeps` | app/src/main/cpp/lwip/src/api/sockets.c:373-620 | every locked section of every thread keeps the invariant |
| `SocketTable.UsedCountsHolders` | app/src/main/cpp/lwip/src/api/sockets.c:373-429 | over all interleavings `fd_used` is the number of threads that hold the entry, and its byte does not wrap with fewer than 256 threads |
| `SocketTable.NotReplacedWhileHeld` | app/src/main/cpp/lwip/src/api/sockets.c:430-446 | while a thread holds an entry, no run of the others releases its connection or gives it to another one |
| `SocketTable.NobodyNew` | app/src/main/cpp/lwip/src/api/sockets.c:375-394 | once a free is pending no thread starts to hold the entry, up to the release |
| `SocketTable.LeavesWithLast` | app/src/main/cpp/lwip/src/api/sockets.c:432-597 | a connection leaves its entry exactly when its last holder closes it or leaves it with a free pending, and that thread deletes it, with the right protocol flag |
| `SocketTable.ReleasedExactlyOnce` | app/src/main/cpp/lwip/src/api/sockets.c:373-650 | no run releases a connection twice; whenever all threads are idle the released ones are exactly those closed or refused an entry |
| `SocketTable.LookupAssertsIff` | app/src/main/cpp/lwip/src/api/sockets.c:396-410 | the assertion of the locked lookup holds except for an entry released by its last user and not placed again |
| `SocketTable.LookupAssertsFails` | app/src/main/cpp/lwip/src/api/sockets.c:396-410 | six steps of two threads after which it fails |
| `Sockets.Table.FreeLocked` | app/src/main/cpp/lwip/src/api/sockets.c:575-597 | the locked section of a free: what is handed out, or that the free is left pending |
| `Sockets.Table.DoneSocket` | app/src/main/cpp/lwip/src/api/sockets.c:415-446 | leaving an entry is that one step, followed by the deletion exactly if the thread was the last on a closed one |
| `Sockets.Table.FreeSocket` | app/src/main/cpp/lwip/src/api/sockets.c:619-643 | closing an entry in use deletes the connection exactly if nobody else holds it |
| `Sockets.Table.GetSocket` | app/src/main/cpp/lwip/src/api/sockets.c:455-529 | with other threads at work between the locked sections the thread counts, looks and holds the entry with the connection seen; or it is refused, or leaves an entry without a connection, or does nothing for a descriptor out of range |
| `Sockets.Table.CloseSocket` | app/src/main/cpp/lwip/src/api/sockets.c:811-850 | the thread's own steps in a run of the protocol are the count, the look, and the close or, unprepared, the leaving, followed by the deletion where that falls to it; a failed lookup is all there is otherwise |
| `Sockets.Table.AllocSocket` | app/src/main/cpp/lwip/src/api/sockets.c:531-573 | the thread takes one placing step per entry tried, up to the one that gets the connection, which was free when looked at; after all of them one more, which refuses it; without interference it is the first free one, or none is |

## Left out

- TlsMerge.CutEndsIff: payload, bytes behind and stale bytes together are below 64K, so that the 16-bit length does not wrap.
- PbufCopy.CopyPartialPbuf: after a write outside a pbuf nothing is said of the memory; the two chains share no pbuf; when a zero-length tail makes it report a queue is not characterised, only that chains without one never do.
- MemHeap.Heap.Trim: the assertion at `mem.c:777` is a precondition.
- HostWalks.SpreadIsExact: the condition is sufficient only; which trees a list can give in all its orders, and so the exact condition for all of them, is not characterised.
- EventRounds.LoopEvent: events are reported for registered slots only; what handlers do besides the pool, and the buffers, are left out.
- EventPool.Pool.DelEvent: a slot is not its own pair; every registration links different slots, and `epoll_ctl` succeeds.
- SocketTable.ReleasedExactlyOnce: a thread holds one entry at a time, so an accept is two threads; `lastdata` is left out.
- Fallback.Connection: failure counters, cache ageing and the sockets themselves are left out; the fitting of a group is a parameter. The level read after a swap is the exchanged one, as in the code.
- TlsTracker.Tracker.Feed: `to_bytes_lim` is off.
- TlsRecords.Tamp: the places come as offsets; their computation from parts is a parameter.
- What a pbuf's payload memory is shared with, its allocation and `mem_trim` inside `pbuf_realloc`; in `pbuf_realloc` the link is cut before the rest is freed, not after.
- Allocation failure, statistics other than the bytes in use, `mem_calloc`, the pool and custom allocators of `mem.c`.
- The poll version of the event pool, its control pipe, buffer contents, and the wrap of the 64-bit iteration counter.
- The timer value zero, which the code uses for "not armed", and the cast of the waiting time.
- `kavl_itr_find`; the tree's elements live as objects, the arrays of a path as sequences.
- `lwip_poll` and `select`, whose use counts do not match; the netconn layer under a socket.
- `desync` and its senders, `change_tls_sni`, options, cache files, handshakes of proxies, name resolution and the Kotlin side: input and output, or no clean contract.
