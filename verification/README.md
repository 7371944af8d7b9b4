# A verified model of a small x86_64 kernel

The modelled system is a bootloader and kernel written in Rust. The project covers its memory
manager, its locking and interrupt discipline, the start of its cores, and its network packets
and buffers, and proves what they promise over every input or every run.

- **Page tables** (`PageWords`, `PageShape`, `PageAddr`, `PageCover`, `PageSteps`, `PageTables`,
  `PageTheorems`, `PageRuns`). Four-level tables are words in physical memory. Their meaning is a finite map
  from pages to entries. `PageTables.PageTable` walks, extends and collapses the words exactly as
  the source does; its invariant says that the words are precisely the rendering of a tree of
  tables in separate frames, with each link carrying the number of live entries below it.
- **Physical memory** (`Ranges`, `RangeTheorems`, `Alignment`, `Allocation`, `RangeSets`, `E820`,
  `FreeLists`, `Ownership`). The range set updates an array in place and is compared with plain
  sets of addresses. The per-core free list keeps its pages inside the free pages and is compared
  with a plain stack. `Ownership` runs both on any number of cores at once, together with owners
  that write into their memory, and follows every byte; its steps are the specification functions
  that the methods of the two classes are proved against.
- **Locks and interrupts** (`TicketLocks`, `InterruptNesting`, `CoreBringup`). Protocols as state
  machines; each atomic operation is one step and steps of different actors interleave freely.
- **Network** (`Checksums`, `Packets`, `NicRing`, `NicPaths`, `Dhcp`). The checksum against its definition,
  header building against parsing, the rings shared with the network card as a state machine with
  steps of the card between any two steps of the driver, and the DHCP option codec.

A panic, a failed assertion or a failed `expect` ends a run. A call that may panic returns
`Outcome`; in the state machines it is a step that is not there. Calls into an allocator choose
any suitable block, and the allocator may keep records inside free memory. Atomic operations are
sequentially consistent. 64-bit and 32-bit wrap-around,
saturation and truncation are written out where the code has them.

What the code does differently from what one might expect, each stated exactly below:

- "Deadlock detected" can be wrong. The owner field starts at 0, which is the id of core 0, so core
  0 reports a deadlock while another core has the lock but has not recorded itself for the first
  time. `TicketLocks.FalseAlarm` is such a run; `TicketLocks.DeadlockSound` says exactly when a
  report is right.
- A firmware list of cores that lacks the running core breaks the check-in: the count is one short,
  so a core leaves before the first core is counted (`CoreBringup.EarlyExact`).
- `map_init` that is refused at some page keeps the block it took for that page: exactly one block,
  unless the request was malformed (`PageTables.PageTable.MapInit`, `PageRuns.RefusedRequestLeaks`).
- An allocation gives up altogether when a range of the set lies so close to the top of the address
  space that the sum overflows, even if a later range fits (`Allocation.GivesUpTooEarly`; the exact
  condition is `Allocation.GivesUp`).
- An odd length is summed wrongly unless the last byte is zero (`Checksums.ChecksumIsInternet`).
- The UDP check covers the whole IP payload instead of the datagram (`Packets.UdpChecksumCovers`), so
  it can reject a right datagram and accept a wrong one (`Packets.UdpChecksumWrong`).
- Page zero made a node of a free list loses the list (`FreeLists.ZeroLosesList`). A refill from the
  very top of the address space pushes nothing, since its end wraps to zero; the page handed out is
  then read from address zero (`FreeLists.PageFreeList.Pop`). Boot takes the first MiB out of the set.
- A bare DHCP end mark is dropped by the parser instead of reported (`Dhcp.EndedRoundTrip`).

## Model

| member | source | states |
|---|---|---|
| PageWords.DecodeEncode | shared/page_table/src/lib.rs:481-484 | splitting a table word into its fields and putting them together is a bijection (field side) |
| PageWords.EncodeDecode | shared/page_table/src/lib.rs:481-484 | the same, word side: every 64-bit word is the encoding of its fields |
| PageWords.CountBits | shared/page_table/src/lib.rs:604-606 | masking bits 52..61 out and writing a new count in changes the count field and no other |
| PageWords.NewWordBits | shared/page_table/src/lib.rs:219-222 | the flag words or-ed into a fresh entry are the fields the model gives it |
| PageWords.CellNumber | shared/page_table/src/lib.rs:229-236 | a memory cell written byte by byte and one written as a table word are the same 64-bit number |
| PageAddr.CanonicalMeaning | shared/cpu/src/lib.rs:115-117 | the sign-extending shifts accept exactly the lowest and the highest 2^47 addresses and keep the low 48 bits |
| PageAddr.WalkInverts | shared/page_table/src/lib.rs:54-79 | `virt_base` and `size` of a walk give back the base and size of the page the address lies in |
| PageTables.PhysMem.AllocZeroedPage | shared/page_table/src/lib.rs:120-131 | a fresh frame leaves the pool and is all zero; the allocator may rewrite free frames but nothing else is touched |
| PageTables.PageTable.New | shared/page_table/src/lib.rs:153-161 | the new table satisfies the invariant and maps nothing |
| PageTables.PageTable.Translate | shared/page_table/src/lib.rs:430-513 | the walk through memory reports exactly what the abstract map says, `None` exactly for non-canonical addresses |
| PageTables.PageTable.AddLevel | shared/page_table/src/lib.rs:586-619 | a missing table is linked and counted; the tree invariant holds except that the new table is still empty |
| PageTables.PageTable.BuildLevels | shared/page_table/src/lib.rs:581-621 | every missing level on the way down exists afterwards, built from frames of the pool; every entry address is where the code looks for it |
| PageTables.PageTable.WriteLeaf | shared/page_table/src/lib.rs:623-645 | writing and counting the entry restores the full invariant with one page more |
| PageTables.PageTable.MapRaw | shared/page_table/src/lib.rs:525-648 | succeeds exactly when the entry is usable, the address canonical and nothing there overlaps; then exactly that page is added, taking only fresh frames; otherwise nothing is written or allocated |
| PageTables.PageTable.UnlinkEntries | shared/page_table/src/lib.rs:305-372 | one page leaves the map; exactly the tables that became empty are handed back, each once; the invariant holds again |
| PageTables.PageTable.FreePageAt | shared/page_table/src/lib.rs:276-384 | one turn of the loop finds base and size of the page, unlinks it, and hands back its backing block |
| PageTables.PageTable.Free | shared/page_table/src/lib.rs:263-403 | completes exactly when the range is covered by whole mapped pages of any mix of sizes; then exactly those translations go, and `free_phys` gets one block for each of those pages and one for each emptied table; terminates |
| PageCover.BlocksFreedOnce | shared/page_table/src/lib.rs:344-376 | where no two of the pages share memory no block is freed twice |
| PageTables.PageTable.MapOne | shared/page_table/src/lib.rs:212-254 | one page of `map_init`: taken, filled and mapped, its entry being the block address plus exactly the flags asked for; or everything mapped so far undone, and the pool short by exactly the block taken |
| PageTables.PageTable.MapInit | shared/page_table/src/lib.rs:189-257 | succeeds exactly when every page of the range can be added, and then every entry is its block address plus present, write, large and no-execute bits as asked for, and every byte read through the tables is what `init` gave; otherwise map, tables and table words are as before, and the pool is as before for a malformed request and short by exactly one block for any other |
| PageRuns.RefusedRequestLeaks | shared/page_table/src/lib.rs:239-252 | a request at the first non-canonical address is always refused and always leaves the pool smaller |
| PageTheorems.CountsAreExact | shared/page_table/src/lib.rs:582-645 | in every reachable memory, bits 52..61 of a link equal the number of present entries of the table it leads to, 1 to 512, and no table frame is shared |
| PageTheorems.MapEffect | shared/page_table/src/lib.rs:525-648 | after mapping, addresses inside the page translate to its frame plus offset, every other address as before |
| PageTheorems.UnmapEffect | shared/page_table/src/lib.rs:263-403 | after freeing a covered range no address of it translates, every other address as before |
| PageRuns.MapThenFreeRange | shared/page_table/src/lib.rs:189-403 | for every request: if `map_init` succeeds, `free` of the rounded size completes and restores the abstract map, the tables, every table word and the pool |
| Ranges.OverlapMeaning | shared/rangeset/src/lib.rs:306-342 | `overlaps` is intersection of address sets and `contains` is inclusion |
| Ranges.TouchTest | shared/rangeset/src/lib.rs:74-88 | the saturating test of `insert` is false exactly for ranges that neither overlap nor touch, also at the last address |
| RangeSets.RangeSet.constructor | shared/rangeset/src/lib.rs:35-40 | the new set is empty |
| RangeSets.RangeSet.Delete | shared/rangeset/src/lib.rs:48-58 | one range goes, the others keep their order |
| RangeSets.RangeSet.Insert | shared/rangeset/src/lib.rs:65-111 | exact set union, ranges stay disjoint and non-touching, the restart loop ends, and the exact condition for a panic |
| RangeSets.RangeSet.SplitEntry | shared/rangeset/src/lib.rs:154-167 | one range becomes the two parts on either side of the removed one; fails exactly when the array is full |
| RangeSets.RangeSet.Remove | shared/rangeset/src/lib.rs:119-173 | exact set difference, ranges stay disjoint and non-touching, the restart loop ends, and the exact condition for a panic |
| RangeSets.RangeSet.Subtract | shared/rangeset/src/lib.rs:176-180 | exact difference of two range sets; panics exactly when, after some of the removals, the addresses left take 256 ranges and the next removal splits one |
| RangeSets.RangeSet.Sum | shared/rangeset/src/lib.rs:183-187 | the number of covered addresses; `None` exactly for the full 64-bit range; the unchecked additions never overflow |
| RangeSets.RangeSet.FindBlock | shared/rangeset/src/lib.rs:215-283 | the search settles on a sound choice, inside the region if a range can offer that, else with the least padding; it finds nothing if and only if a range overflows before any could serve the region, or no range can be used |
| RangeSets.RangeSet.AllocatePrefer | shared/rangeset/src/lib.rs:200-292 | the block is aligned, of the size asked for and inside the old set; exactly block and front padding leave the set; the exact condition for finding nothing, with or without a region, and then nothing changes; the exact condition for a panic |
| Alignment.FixMeaning | shared/rangeset/src/lib.rs:213-220 | the masked subtraction is the smallest step up to the next multiple of a power of two |
| Alignment.AlignUpMeaning | shared/rangeset/src/lib.rs:245-248 | the wrapping round-up is the next multiple or wrapped, and the code's comparison tells which |
| Alignment.NextAligned | shared/rangeset/src/lib.rs:220-225 | no multiple lies between the start and the padded start |
| Allocation.RegionTest | shared/rangeset/src/lib.rs:240-250 | the region test succeeds exactly when some aligned block lies in both range and region |
| Allocation.NoLimit | shared/rangeset/src/lib.rs:229-273 | with 64-bit addresses the conditions of the search reduce to: the block fits, and the region test holds |
| Allocation.GivesUpTooEarly | shared/rangeset/src/lib.rs:225-225 | a set and a request for which the search gives up although a later range fits |
| Allocation.AllocateThenInsert | shared/rangeset/src/lib.rs:65-111 | allocating and inserting the block again restores the set less the padding; without padding the very same ranges |
| RangeTheorems.CanonicalForm | shared/rangeset/src/lib.rs:65-111 | two sets covering the same addresses hold the same ranges up to order |
| RangeTheorems.SumIsSize | shared/rangeset/src/lib.rs:183-187 | the sum of the range sizes is the size of the set of covered addresses |
| RangeTheorems.SumFits | shared/rangeset/src/lib.rs:183-187 | the sum stays below 2^64 unless the set is the full range |
| E820.Init | bootloader/src/mm.rs:97-172 | free memory is all free entries minus all other entries minus the first MiB; panics exactly when the end of an entry overflows, or an entry needs a 257th range |
| E820.OrderIrrelevant | bootloader/src/mm.rs:100-160 | whatever the order of the entries, the same addresses are free |
| FreeLists.Pushes | kernel/src/mm.rs:223-250 | pushing is pushing on a plain stack, across node creation; only one page, free afterwards, is written |
| FreeLists.Takes | kernel/src/mm.rs:196-218 | taking is popping the plain stack, across node consumption; only one page, free before, is written |
| FreeLists.ZeroLosesList | kernel/src/mm.rs:227-239 | page zero cannot be a node: pushed where one is needed, it and the whole list are lost |
| FreeLists.BatchPages | kernel/src/mm.rs:190-193 | a refill is 256 distinct pages, 4 KiB apart |
| FreeLists.PageFreeList.constructor | kernel/src/mm.rs:164-167 | the new list is empty |
| FreeLists.PageFreeList.Push | kernel/src/mm.rs:223-250 | the stack grows by the page and all nodes but the first stay full, except that page zero made a node loses the list; the exact condition for a panic |
| FreeLists.PageFreeList.Populate | kernel/src/mm.rs:190-193 | the loop puts exactly the 256 pages of the block on the list, all but page zero for a block at zero, none for a block at the very top; panics exactly when its first page is outside the window |
| FreeLists.PageFreeList.Refill | kernel/src/mm.rs:172-194 | an empty list gets the pages of one block that leaves the set, and nothing else changes; panics exactly when the search gives up, or taking the block out would need a 257th range, or its first page is outside the window |
| FreeLists.PageFreeList.Pop | kernel/src/mm.rs:170-219 | last in, first out; a page from a list that has one never panics and leaves the set alone; otherwise a refill first, panicking exactly when the refill does, and what is read if the refill was empty |
| FreeLists.AllocPhys | kernel/src/mm.rs:271-287 | a page-sized, page-aligned request is served from the list, any other from the set, each with its exact effect and the exact condition for a panic |
| FreeLists.FreePhys | kernel/src/mm.rs:289-304 | an aligned page goes on the list, anything else is united with the set; the exact condition for a panic in each case |
| Ownership.MovedPartition | kernel/src/mm.rs:170-304 | bytes that change hands keep exactly one owner |
| Ownership.AllocBlockKeeps | kernel/src/mm.rs:274-287 | padding and block leave the set, the block to the caller, and no other byte changes hands; the partition of memory is kept |
| Ownership.StartRefillKeeps | kernel/src/mm.rs:178-188 | the batch leaves the set to the refilling core, and no other byte changes hands; the partition is kept while other cores go on |
| Ownership.PushRefillKeeps | kernel/src/mm.rs:190-193 | the next page of the batch goes on top of the list of its core, and no other byte changes hands |
| Ownership.PopPageKeeps | kernel/src/mm.rs:196-218 | the top page of the core's list goes to the caller, and no other byte changes hands |
| Ownership.FreePageKeeps | kernel/src/mm.rs:290-292 | a page freed, on whatever core, goes from its owner to the top of that core's list, and no other byte changes hands |
| Ownership.FreeBlockKeeps | kernel/src/mm.rs:293-303 | a freed block goes from its owner to the set, and no other byte changes hands |
| Ownership.WriteWordKeeps | kernel/src/mm.rs:170-250 | owners writing into their own memory change that word, no ownership, and no free list |
| Ownership.OneOwner | kernel/src/mm.rs:170-304 | after any run on any number of cores each byte of the initial free memory has exactly one owner, and no other byte has one |
| Ownership.StepMoves | kernel/src/mm.rs:170-304 | over every run each operation moves exactly the bytes it is about from their owner to the one that is to have them |
| Ownership.LiveBlocksApart | kernel/src/mm.rs:170-304 | no two live allocations overlap, and none overlaps a free page or the set |
| TicketLocks.PollExact | shared/lockcell/src/lib.rs:140-141 | a waiter sees its number, and gets the lock, exactly when all earlier tickets were released, despite 32-bit wrap-around |
| TicketLocks.SwapExact | shared/lockcell/src/lib.rs:123-130 | the swap of `try_lock` succeeds, and the caller gets the lock, exactly when no ticket is outstanding and none was released since the load |
| TicketLocks.OutstandingBound | shared/lockcell/src/lib.rs:138-141 | no more tickets are outstanding than there are callers, so fewer than 2^32 callers keep the counters from repeating |
| TicketLocks.StepKeeps | shared/lockcell/src/lib.rs:98-158 | every atomic operation of every caller keeps the invariant |
| TicketLocks.MutualExclusion | shared/lockcell/src/lib.rs:119-157 | over every interleaving at most one guard exists |
| TicketLocks.TicketOrder | shared/lockcell/src/lib.rs:138-152 | the lock is handed out in the order the tickets were drawn |
| TicketLocks.LockIsQueue | shared/lockcell/src/lib.rs:119-200 | over every run each operation is the operation on a plain queue of callers: join at the end, win when first, win an empty queue at once with `try_lock`, leave from the front; no other caller is touched |
| TicketLocks.QueueMembers | shared/lockcell/src/lib.rs:119-200 | the queue holds exactly the callers that wait or hold, each once, the holder first |
| TicketLocks.LockThenUnlock | shared/lockcell/src/lib.rs:138-195 | with nobody in line `lock` gets the lock at its first look, and dropping the guard leaves nobody in line and every caller as before |
| TicketLocks.TryOvertakesNobody | shared/lockcell/src/lib.rs:119-137 | when `try_lock` gets the lock nobody holds it or waits for it |
| TicketLocks.SomebodysTurn | shared/lockcell/src/lib.rs:138-152 | while tickets are outstanding the lowest one has the lock or gets it at its next look |
| TicketLocks.DeadlockReport | shared/lockcell/src/lib.rs:141-145 | a deadlock is reported exactly when the caller's core holds the lock, or no owner was ever recorded and the core is core 0 |
| TicketLocks.DeadlockSound | shared/lockcell/src/lib.rs:71-152 | a report is right if and only if an owner was recorded before or the core is not core 0 |
| TicketLocks.FalseAlarm | shared/lockcell/src/lib.rs:71-152 | a run with a wrong report |
| InterruptNesting.StepKeeps | kernel/src/core_locals.rs:182-214 | every operation and every arrival or return of a handler keeps the invariant |
| InterruptNesting.NoInterruptWhileLocked | shared/lockcell/src/lib.rs:98-149 | no maskable interrupt arrives while a no-preempt lock is held or awaited on the core |
| InterruptNesting.HandlerNeverSpinsOnInterrupted | shared/lockcell/src/lib.rs:98-149 | a handler never spins on a lock held or awaited by code it interrupted |
| InterruptNesting.Balanced | kernel/src/core_locals.rs:38-58 | all three counters equal what is outstanding; none is ever lowered from zero |
| InterruptNesting.FlagExact | kernel/src/core_locals.rs:182-214 | interrupts are on exactly when nothing asks for them to be off, and never inside a handler |
| InterruptNesting.TurnedOn | kernel/src/core_locals.rs:196-214 | interrupts go on exactly when the disable count has reached 0 outside all handlers, or at the return to code that had them on |
| InterruptNesting.LockThenUnlock | shared/lockcell/src/lib.rs:98-200 | a free lock is held after taking it, with interrupts off if it asks for that, and dropping the guard restores flag, counters and stack exactly |
| InterruptNesting.FailedTryLock | shared/lockcell/src/lib.rs:127-136 | a `try_lock` that does not get the lock restores them exactly |
| InterruptNesting.DropReleases | shared/lockcell/src/lib.rs:187-200 | a dropped guard gives up its lock and its disable request and nothing else; interrupts are on afterwards exactly if they were on, or this was the last request outside handlers |
| InterruptNesting.BootEnds | kernel/src/core_locals.rs:196-214 | giving up the request outstanding since boot turns interrupts on unless a lock held asks for them to be off |
| InterruptNesting.HandlerReturns | kernel/src/interrupts.rs:272-286 | a handler starts counted and with interrupts off, and its return restores the core exactly |
| InterruptNesting.HandlersAreTransparent | kernel/src/interrupts.rs:272-286 | whatever a handler and the handlers on top of it do, the interrupted code finds flag, counters and stack exactly as they were |
| InterruptNesting.NestingShape | kernel/src/interrupts.rs:272-286 | at most one maskable interrupt is on the stack, right above the kernel's code; all above are exceptions |
| CoreBringup.StepKeeps | kernel/src/acpi.rs:73-99 | every shared access of every core keeps the invariant |
| CoreBringup.InOrder | kernel/src/acpi.rs:272-309 | each application core goes Offline, Launched, Online in that order; no check-in assertion fails |
| CoreBringup.NobodyLeavesEarly | kernel/src/acpi.rs:94-98 | a core leaves the check-in only when all cores are online and counted |
| CoreBringup.EarlyExact | kernel/src/acpi.rs:272-309 | with any list of distinct cores, a core can leave before all are counted if and only if the list is not empty and lacks the first core |
| CoreBringup.LeavesEarly | kernel/src/acpi.rs:94-98 | such a run for every such list |
| CoreBringup.SomebodyMoves | kernel/src/acpi.rs:73-99 | no reachable state has every core waiting |
| CoreBringup.AllCoresReleased | kernel/src/acpi.rs:272-309 | every run ends within 8 operations for each core and 4 more, with all cores released |
| Checksums.Checksum | kernel/src/net.rs:312-331 | the loop and folds compute the specification function for every input; the result is the Internet checksum if and only if the length is even or the last byte is zero |
| Checksums.Finished | kernel/src/net.rs:327-330 | two folds, inversion and the byte swap of a 32-bit sum give 65535 less the residue of 256 times that sum modulo 65535 |
| Checksums.StartedIsInternet | kernel/src/net.rs:312-331 | from any even-length prefix, as long as the 32-bit sum does not wrap: summing in machine order, two folds and a byte swap equal RFC 1071 if and only if the length is even or the last byte is zero |
| Checksums.ChecksumIsInternet | kernel/src/net.rs:312-331 | the same from zero, for all lengths up to 131071 |
| Checksums.SummedExactly | kernel/src/net.rs:312-331 | for every length: what the code computes is the Internet checksum with an odd last byte moved to the low half of its word |
| Checksums.WrongAtOneByte | kernel/src/net.rs:320-325 | the single byte 1 is summed wrongly |
| Checksums.Checks | kernel/src/net.rs:520-529 | a checksum put in its zeroed field makes the checksum of the whole zero |
| Packets.HeaderBits | kernel/src/net.rs:359-385 | the byte tests of the model are the tests on bits that the code makes for version, header length, flags and fragment offset |
| Packets.IpHeaderFields | kernel/src/net.rs:497-525 | the built IP header, whatever its checksum field, passes every other test of the parser and names its addresses and length |
| Packets.IpHeaderChecks | kernel/src/net.rs:527-529 | the built IP header has a checksum that checks |
| Packets.BuildThenParse | kernel/src/net.rs:346-480 | built headers, any message that fits and any padding parse back to the same addresses, ports and message |
| Packets.UdpChecksumCovers | kernel/src/net.rs:433-466 | for every IP payload and UDP length: a nonzero checksum is accepted if and only if pseudo header and whole payload have a zero Internet checksum, as long as the payload has an even length or a last byte of zero; otherwise never both |
| Packets.UdpChecksumExact | kernel/src/net.rs:433-466 | where the datagram fills the payload, right by RFC 768 and accepted are the same if the length is even or the last byte zero, and otherwise exclude each other |
| Packets.UdpChecksumRest | kernel/src/net.rs:462-465 | a right datagram of even length with more bytes behind it is accepted if and only if those sum to a multiple of 65535 |
| Packets.UdpChecksumWrong | kernel/src/net.rs:462-465 | a payload whose right checksum is rejected and one whose wrong checksum is accepted |
| Packets.IpAccepted | kernel/src/net.rs:346-414 | an accepted IP packet has a zero Internet checksum and its parts are the parts of the frame |
| Packets.IpExact | kernel/src/net.rs:346-414 | a frame is accepted as IP if and only if type, version, header length, flags, fragment offset, total length and checksum are as the code asks |
| Packets.UdpExact | kernel/src/net.rs:417-480 | a frame is accepted as UDP if and only if it is accepted as IP, has room for the header, a length that fits, and a checksum that is zero or checks as summed; ports and payload are those of the frame |
| Packets.Packet.SetLen | kernel/src/net.rs:574-578 | lengths above 1514 panic and change nothing |
| Packets.Packet.PutIp | kernel/src/net.rs:497-530 | the writes leave exactly the IP header with its checksum, everything behind it untouched |
| Packets.Packet.CreateUdpRaw | kernel/src/net.rs:484-553 | the writes leave exactly the 42 header bytes and set the length; the exact condition for a panic |
| Packets.SendPath | kernel/src/net.rs:484-553 | a packet built for a message, with the message put in place, parses back to it |
| NicRing.CardWritesRing | kernel/src/e1000.rs:425-456 | the card writes only into the buffer of a slot it owns |
| NicRing.CardReadsSent | kernel/src/e1000.rs:469-495 | the card reads only the packet being sent |
| NicRing.SwapKeeps | kernel/src/e1000.rs:443-446 | swapping buffers in the receive ring keeps the invariant |
| NicRing.AdvanceKeeps | kernel/src/e1000.rs:455-462 | handing the slot back to the card keeps the invariant |
| NicRing.DeliverKeeps | kernel/src/net.rs:153-172 | delivering, queueing or dropping a received packet keeps the invariant |
| NicRing.UnbindKeeps | kernel/src/net.rs:119-122 | taking the queue of a port off the map keeps the invariant while anyone may use the driver |
| NicRing.GiveBackKeeps | kernel/src/net.rs:124-130 | giving its packets back under the driver lock keeps the invariant |
| NicRing.StepKeeps | kernel/src/e1000.rs:422-510 | every step of card, driver and UDP layer keeps the invariant |
| NicRing.OnePlace | kernel/src/e1000.rs:422-510 | over every run each buffer is in exactly one place |
| NicRing.RingIntact | kernel/src/e1000.rs:448-459 | the tail stays one slot behind the head and every descriptor names its slot's buffer, except at the head in the middle of a swap |
| NicRing.CardTouches | kernel/src/e1000.rs:422-510 | the card never touches a buffer that is free, leased, queued or in a caller's hands |
| NicRing.QueuedIsUdp | kernel/src/net.rs:142-172 | every packet queued for a port parses as UDP to it, so serving the queue cannot fail |
| NicRing.NextIsReady | kernel/src/e1000.rs:424-430 | a packet is seen at the head exactly when the card completed one |
| NicPaths.Delivered | kernel/src/net.rs:153-172 | a leased packet for another bound port joins the end of that port's queue with its bytes unchanged, any other is put back; nothing else changes |
| NicPaths.ReceivePath | kernel/src/e1000.rs:422-467 | the packet leased is the one the card completed at the head, with the bytes and the length the card put there; a new buffer is in its slot and the card has one more slot |
| NicPaths.ArrivesAndIsLeased | kernel/src/e1000.rs:422-467 | a frame that arrives when nothing is pending is what the next receive leases |
| NicPaths.BytesKept | kernel/src/e1000.rs:422-510 | no step of card, driver or another caller changes the bytes of a packet that is outside the receive ring |
| NicPaths.PortQueue | kernel/src/net.rs:98-172 | the queue of a port is first in, first out: created empty, added to at the end by receives for other ports, taken from the front by its own, gone when unbound |
| NicPaths.ServedFirst | kernel/src/net.rs:142-151 | a port is served its oldest packet, which is then put back |
| NicPaths.GivenBackAll | kernel/src/net.rs:124-130 | the packets of an unbound port go on the free list in order as far as there is room; the rest no longer exist |
| NicPaths.UnbindPath | kernel/src/net.rs:119-131 | unbinding removes that port's queue, puts its packets back and changes no other queue |
| NicPaths.CardSendsPacket | kernel/src/e1000.rs:469-495 | over every run, what the card is told to send is the buffer and the exact length of the packet handed to the driver |
| NicPaths.SendPath | kernel/src/e1000.rs:469-510 | a packet filled and sent reaches the card with its bytes; afterwards the ring is one slot on and the buffer free |
| NicPaths.Discarded | kernel/src/e1000.rs:498-500 | a packet allocated and dropped leaves nothing behind |
| Dhcp.ParseConsumes | kernel/src/dhcp.rs:112-163 | every option read uses up at least 2 bytes |
| Dhcp.ParseExact | kernel/src/dhcp.rs:112-163 | an option is read if and only if its length fits and is the one its code asks for; code, payload and rest are those of the bytes |
| Dhcp.ParseOptions | kernel/src/dhcp.rs:243-255 | the loop ends on arbitrary bytes with the options up to the first unreadable one |
| Dhcp.Serialize | kernel/src/dhcp.rs:166-217 | the encoding is appended; payloads above 255 bytes panic |
| Dhcp.ParseEncoded | kernel/src/dhcp.rs:112-217 | reading a written option gives it back and leaves the rest |
| Dhcp.OptionsRoundTrip | kernel/src/dhcp.rs:243-255 | every written list reads back as it was |
| Dhcp.EndedRoundTrip | kernel/src/dhcp.rs:243-255 | so does one with an end mark; a bare one is dropped, one with a length and its bytes reported |
| Dhcp.EncodeParsed | kernel/src/dhcp.rs:112-217 | writing what was read restores the bytes, exactly unless it was a message type with no name |

## Left out

- TLB invalidation at the end of `free`, the accessed and dirty bits, and caching: hardware state.
- `PageTable::map`, a call of `map_init` without `init`. The unused `read` argument of `map_init` is dropped.
- PageTables.PageTable.Free: requires that no page of the range maps a live table. The code is `unsafe`; handed such a range it frees a table it still walks, whose words the allocator may overwrite, so no behaviour is promised.
- FreeLists.AllocPhys: page-sized requests with an alignment above 4096 get page alignment only, as in the code.
- Ownership.OneOwner: callers free, split and write only blocks they own; a free list is used by its own core only; the memory at boot holds neither address zero nor the very last address, where `FreeLists.PageFreeList.Populate` says what happens instead.
- TicketLocks.MutualExclusion: fewer than 2^32 tickets are outstanding, also counted from the moment a `try_lock` looks at the lock; with more the 32-bit counters repeat.
- InterruptNesting.StepKeeps: non-maskable interrupts, the panic path and `Apic::drop`, which turn interrupts off for good or bypass the count on purpose.
- CoreBringup.StepKeeps: the firmware lists every core once, the first one included (`CoreBringup.EarlyExact` says what happens otherwise); a machine without the table is the list of the first core alone.
- Checksums.StartedIsInternet: sums that wrap around at 32 bits, which need more than 131071 bytes.
- Packets.Packet.CreateUdpRaw: a message length near 2^64 wraps around in the addition; stated as the code does it, and left out of the round trip.
- A check that the IP protocol is UDP, which the code does not make.
- The bootloader's `alloc_phys` and `free_phys`, which pass requests on to the range set unchanged.
- `alloc_virt_addr_4k`, which adds a size to a counter; the IDT and GDT encoders, the PE loader, and the string and memory routines, which fill in tables or copy bytes. No property stated here depends on them.
- The weakly ordered behaviour of real memory: atomic operations are sequentially consistent, as the code asks for.
- ACPI, MADT and SRAT scanning, PCI, serial, printing, time calibration, real-mode and PXE calls, the register programming of the network card, `get_lease`: input and output, or code that is not visible.
