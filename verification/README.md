# Ethernet driver and flow accelerator: a verified model

This project models the parts of a Broadcom Ethernet driver that keep several structures in step,
and of the offload backend written on top of its flow accelerator. Each part comes in two forms.
One is a state machine on values, about which the properties are proved. The other is the code in
the form it has in the source, with classes, arrays, linked entries and loops, and every method is
proved to be a step of that state machine.

- **Flow cache** (`Polynomials`, `CrcCcitt`, `FlowKey`, `FlowRows`, `NextHopList`, `Counting`,
  `FlowOctets`, `FlowBuckets`, `FlowCache*`, `FlowRequests`, `FlowPools`, `FlowPaths`, `FlowAccel`).
  A NAPT flow lives in a chained hash table, a slot map, a counter, a reference-counted next-hop list
  and two hardware tables. The slot comes from a table-driven CRC over a bit-shifted 5-tuple.
  `FlowCache` is the state machine, `FlowCacheIndex` the map it implements. What holds in all runs,
  timeouts included, is in `FlowCacheRuns`, `FlowCacheReferences` (reference counts),
  `FlowCacheSound` (the free list and the next-hop rows) and `FlowCacheStray` (rows without a flow).
  What holds without timeouts, and exactly when, is in `FlowCacheAgreement` and `FlowCacheExact`.
  `FlowCacheStart`, `FlowCacheLeaks`, `FlowCacheLate` and `FlowCacheFull` reach the states that fail
  from the attach; `FlowBuckets` says which flows cannot share a bucket. `FlowRequests` and
  `FlowPools` say when the rows carry out what was asked for, `FlowPaths` follows a packet through
  the tables, `FlowOctets` is about byte order. `FlowAccel` is the driver's own object with its
  linked entries.
- **Receive** (`Filtering`, `RxChain`, `RxEngine`): sorting packets into at most 32 chains while
  the array of chain descriptors grows inside the loop that searches it.
- **Interrupts** (`IntrProtocol`, `IntrDriver`): the masking protocol of handler, tasklet, up and
  down, with the chip and the handler free to act between any two steps.
- **Transmit** (`TxQueues`, `TxEngine`): four strict-priority queues with a bitmap and counters.
- **Offload backend** (`OffloadTable`, `OffloadDriver`): the 32-slot cookie table, its rows, and
  write, read-back, accept and destroy.
- **Switch access** (`SwitchPages`, `VlanPorts`, `AdmSerial`): page-cached register access, VLAN
  port lists and their register words, and the bit-banged serial interface.
- `Numbers` and `Options` are shared.

## Assumptions

- The hardware tables are 1024 rows of 8 words, 128 of 3 and 4 of 2. The INIT strobes zero them. A
  row changes as a whole when its word 0, which is written last, is stored.
- Every table access may time out, and one that does may or may not have been carried out. Which
  accesses do is an arbitrary function of their number, so a lemma about a run is about all
  patterns of timeouts. "Without timeouts" is the predicate `Quiet` (`Faultless` in the backend).
- The CPU is little-endian. Addresses and ports are kept as the words the CPU loads. `bcmendian.h`,
  `bcmutils.c` and the packet library are not part of this model: byte swaps are written
  out, `bcm_atoi` is a parameter.
- The IPv4 build with software hash is modelled. Device readiness and the outcome of MALLOC are
  fields of a request.
- Frames on the receive ring keep their addresses while a call runs, and whether a frame may be
  chained (all of PKT_CHAINABLE but the key) is a property of the frame. PKTCBND is a parameter.
- et_up and et_down are serialised. All callers of et_down ask for the reset. The tasklet build is
  modelled; et_dpc is cut where its work on the shared state can be interleaved.
- What the transmit loop reads in txavail is an arbitrary function of the number of the look, so
  reclaiming and posting in between are covered.
- A register access over MDIO stores or loads all four data words when the switch carries it out.

## Where code and intent part

- `PUTNEXT_NHIDX` on an exhausted list stores an index in its own cell. `PutOnFullLoops`,
  `DelLoops` and `TwoFlowsOneIndex` show what follows, `SelfLoopFromInit` reaches it from the
  attach; `StepAgreesIffClean` says exactly when agreement survives.
- A zero destination address matches the first zeroed next-hop row, which is still on the free
  list (`ZeroMacAdd`).
- Exits on a timeout keep a reference. There are enough references exactly until an addition makes
  the 16-bit counter of an index in use come round (`CountedIffNeverWraps`), which happens
  (`WrapFromInit`). fa_add_pool_entry's own return code is overwritten by its caller and has no
  effect.
- A next-hop write that is carried out after the driver gave up leaves the address in the row of a
  free index, and the next request finds it there (`LateRowMisdirects`). `StepSoundIff` says
  exactly which steps leave the allocator and its table sound, whatever times out.
- The next hop is looked up by address alone, so a second flow to the same address uses the VLAN
  tag of the first (`TwoTagsFromInit`). `RowIsAskedIff` and `TagIsAskedIff` say exactly when a flow
  gets the row it asked for.
- fa_add_pool_entry writes one slot for each direction. A second source address on one side
  overwrites the entry of the first, unless it is the zero address on the inside, which matches an
  entry that was never written (`PoolKeptIff`).
- fa_napt_add gives up after a late write of its row although the row may be there, and fa_napt_del
  forgets a flow although its row was not reached. Either leaves a valid row without a flow
  (`StrayAddFromInit`, `StrayDelFromInit`); `AddStrayIff` and `DelStrayIff` say exactly when.
- The action of a row always overwrites the address. A request that asks for no translation gets its
  destination replaced all the same (`TranslatesAsAsked`).
- A frame that may not be chained but is looked for uses up all receive slots
  (`UnfitTakesAllSlots`, `UnfitStopsChaining`) and can be overtaken (`UnfitIsOvertaken`, `OrderIff`).
- The comment in et_dpc asks for interrupts to stay off when the chip has to be re-initialised. They
  stay off exactly when the pass used up its quota, error or not (`FatalErrorUnmasks`, `FatalRun`).
- In the backend a refused rule or a destroyed flow can leave a valid row behind
  (`RefusedLeavesRow`, `DestroyLeavesRow`, `CountedTooSoon`). A rewritten destination never
  reaches the rows (`DestinationRewriteLost`): fa_decode_dst_mac accepts a rewritten Ethernet address
  and never decodes it, so the next hop is the one the rule matches on, or zero (`HopAddress`).
- The backend packs the action for addresses alone, so no rewritten port reaches a packet
  (`SportLost`). It packs the rewritten source, or the rule's own, into the field that replaces the
  destination of a flow from outside, whose packets go back to where they came from (`InboundLost`).
  `TranslatesIff` says exactly which rules are translated as they ask.
- The range check on a port number has no lower end, so a negative number in a port list reads below
  the port table, unless it is the auxiliary port (`InsideIff`, `MinusOne`).
- The cached page starts as 0xff, so page 0xff cannot be the first one accessed (`PageFfMissed`).

## Model
| member | source | states |
|---|---|---|
| CrcCcitt.InitCrcCcittTab | hwoffload-research/graveyard-vendor/extracted-source/etc_fa.c:309-334 | entry k of the table is the register after eight clocks of bit-serial division that start from k in the high byte |
| CrcCcitt.ShiftIsClock | hwoffload-research/graveyard-vendor/extracted-source/etc_fa.c:320-331 | one turn of the inner loop is one clock of the division register of section 2 of ITU-T Recommendation V.41 |
| CrcCcitt.LookupIsEightClocks | hwoffload-research/graveyard-vendor/extracted-source/etc_fa.c:336-348 | for every register and byte, one table lookup does what eight clocks of the division register do |
| CrcCcitt.FoldIsSerial | hwoffload-research/graveyard-vendor/extracted-source/etc_fa.c:336-348 | for every byte string and start value, the table-driven fold ends where the bit-serial register ends |
| CrcCcitt.CrcIsRemainder | hwoffload-research/graveyard-vendor/extracted-source/etc_fa.c:309-348 | from a zero register the fold gives the remainder of the string times x^16 on polynomial division by x^16 + x^12 + x^5 + 1, and no other 16-bit value is a remainder of it |
| Polynomials.RemainderUnique | hwoffload-research/graveyard-vendor/extracted-source/etc_fa.c:309-310 | division by the generator has one answer, so the remainder the CRC is compared with is well defined |
| FlowKey.LayOut | hwoffload-research/graveyard-vendor/extracted-source/etc_fa.c:357-361 | the bytes of the key buffer before the shift, for every tuple |
| FlowKey.ShiftKey | hwoffload-research/graveyard-vendor/extracted-source/etc_fa.c:363-370 | the in-place loop shifts the first nine bytes by one bit without losing a bit between bytes and brings the TCP flag in |
| FlowKey.PackedBits | hwoffload-research/graveyard-vendor/extracted-source/etc_fa.c:357-370 | after the shift the buffer is seven zero bits, source address, destination address, one TCP bit, source port, destination port |
| FlowKey.KeyBitsInjective | hwoffload-research/graveyard-vendor/extracted-source/etc_fa.c:357-370 | two tuples have the same key exactly when they agree in addresses, ports and in whether the protocol is TCP |
| FlowKey.PackedCrc | hwoffload-research/graveyard-vendor/extracted-source/etc_fa.c:350-376 | the seven leading zero bits do not change the CRC: it is the remainder of the 97-bit key alone |
| FlowKey.FaCrcCcitt | hwoffload-research/graveyard-vendor/extracted-source/etc_fa.c:350-376 | fa_crc_ccitt returns the remainder of the key, whatever the tuple |
| FlowKey.LowByteIsBucket | hwoffload-research/graveyard-vendor/extracted-source/etc_fa.c:1559-1564 | the low byte of the CRC, which picks the bucket, is the number the last eight coefficients of the remainder write in base two |
| FlowOctets.AddressOctets | hwoffload-research/graveyard-vendor/extracted-source/etc_fa.c:358-359 | octet k of an address in memory is digit k in base 256 of the word the CPU loads, lowest first, and NTOH32 gives the number the octets write, first octet first |
| FlowOctets.PortOctets | hwoffload-research/graveyard-vendor/extracted-source/etc_fa.c:360-361 | the same for a port |
| FlowOctets.KeyDigits | hwoffload-research/graveyard-vendor/extracted-source/etc_fa.c:357-370 | the string the CRC runs over is the binary digits of those numbers, highest first: source, destination, one bit for protocol 6, ports |
| FlowOctets.KeyOfRow | hwoffload-research/graveyard-vendor/extracted-source/etc_fa.c:824-843 | it is the tuple that the row decodes to, for all fields within their widths |
| FlowRows.NhRoundTrip | hwoffload-research/graveyard-vendor/extracted-source/etc_fa.c:107-127 | a next-hop row gives back every destination address that was put into it, whatever the other fields |
| FlowRows.NhTagRoundTrip | hwoffload-research/graveyard-vendor/extracted-source/etc_fa.c:119-127 | and the tag, the tag operation and the frame type |
| FlowRows.NpRoundTrip | hwoffload-research/graveyard-vendor/extracted-source/etc_fa.c:130-147 | a pool row gives back every source address and the direction |
| FlowRows.PrepRoundTrip | hwoffload-research/graveyard-vendor/extracted-source/etc_fa.c:824-843 | for all fields within their widths, what the dump decodes from a NAPT row is what was packed: the fields occupy disjoint bits |
| FlowRows.CountersDoNotShow | hwoffload-research/graveyard-vendor/extracted-source/etc_fa.c:1046-1081 | packets the accelerator counts in a row change none of the decoded fields |
| FlowRows.MarkInvalidOnly | hwoffload-research/graveyard-vendor/extracted-source/etc_fa.c:874-875 | clearing the valid bit changes nothing else a row decodes to |
| NextHopList.ResetIsPartitioned | hwoffload-research/graveyard-vendor/extracted-source/etc_fa.c:452-463 | after the reset the chain from free_idx visits every index once and ends at 128 |
| NextHopList.GetKeepsPartition | hwoffload-research/graveyard-vendor/extracted-source/etc_fa.c:51-57 | an index is handed out only if nobody refers to it, and the chain and the referenced indices still partition 0..127 |
| NextHopList.RefKeepsPartition | hwoffload-research/graveyard-vendor/extracted-source/etc_fa.c:603-606 | another reference to a referenced index keeps the partition |
| NextHopList.UnrefKeepsPartition | hwoffload-research/graveyard-vendor/extracted-source/etc_fa.c:663-664 | so does dropping a reference that is not the last |
| NextHopList.PutKeepsPartition | hwoffload-research/graveyard-vendor/extracted-source/etc_fa.c:59-65 | so does giving back the last reference while the list is not exhausted |
| NextHopList.PutOnFullLoops | hwoffload-research/graveyard-vendor/extracted-source/etc_fa.c:59-65 | on an exhausted list the put stores the index in its own cell: no sequence is a free chain any more |
| NextHopList.PutKeepsPartitionIff | hwoffload-research/graveyard-vendor/extracted-source/etc_fa.c:59-65 | giving back the last reference keeps the list a list if and only if the list was not exhausted |
| NextHopList.SameChain | hwoffload-research/graveyard-vendor/extracted-source/etc_fa.c:49-65 | the free chain of a state is unique |
| NextHopList.RefOfFreeBreaks | hwoffload-research/graveyard-vendor/extracted-source/etc_fa.c:603-606 | counting a reference to an index that is still on the free list destroys the partition |
| NextHopList.SelfLoopExample | hwoffload-research/graveyard-vendor/extracted-source/etc_fa.c:59-65 | from the reset: 128 allocations, one index given back, and the next two allocations hand out the same index |
| FlowCache.FreeSlot | hwoffload-research/graveyard-vendor/extracted-source/etc_fa.c:1562-1574 | the slot that is found lies in the bucket and is unused, and none is found exactly when all four are used |
| FlowCache.ProbeHops | hwoffload-research/graveyard-vendor/extracted-source/etc_fa.c:593-609 | the row that is found holds the address and no row probed before it does; nothing but the access counter of the hardware changes |
| FlowCacheIndex.InsertIndexed | hwoffload-research/graveyard-vendor/extracted-source/etc_fa.c:1655-1660 | linking a new flow keeps chains, slot map and counter in step |
| FlowCacheIndex.RemoveIndexed | hwoffload-research/graveyard-vendor/extracted-source/etc_fa.c:1694-1718 | unlinking any entry of any chain keeps them in step |
| FlowCacheIndex.AsMapIsLookup | hwoffload-research/graveyard-vendor/extracted-source/etc_fa.c:1275-1293 | fa_napt_lkup_ll answers like a map keyed by the 5-tuple |
| FlowCacheIndex.InsertMap | hwoffload-research/graveyard-vendor/extracted-source/etc_fa.c:1655-1660 | adding a flow is the map update and nothing else |
| FlowCacheIndex.RemoveMap | hwoffload-research/graveyard-vendor/extracted-source/etc_fa.c:1694-1718 | deleting one is the map without its tuple and nothing else |
| FlowCacheIndex.CounterIsSize | hwoffload-research/graveyard-vendor/extracted-source/etc_fa.c:1660 | nflows is the number of cached flows |
| FlowCacheIndex.SlotIffFlow | hwoffload-research/graveyard-vendor/extracted-source/etc_fa.c:1655-1659 | ftable[i] is set exactly when a cached flow has napt_idx i, and only one has |
| FlowCacheRuns.AddConsistent | hwoffload-research/graveyard-vendor/extracted-source/etc_fa.c:1514-1670 | whatever accesses time out: an addition that reports success adds exactly the flow that was asked for, one that does not changes no lookup, and every cached row stays valid and decodes to its flow |
| FlowCacheRuns.DelConsistent | hwoffload-research/graveyard-vendor/extracted-source/etc_fa.c:1672-1726 | whatever accesses time out: a deletion takes exactly the named tuple out of the cache, and one that is not cached changes nothing |
| FlowCacheRuns.CachedRowValid | hwoffload-research/graveyard-vendor/extracted-source/etc_fa.c:862-872 | the row of a cached flow is valid, so _fa_napt_del never takes its "not valid" exit for one |
| FlowCacheRuns.AllRunsConsistent | hwoffload-research/graveyard-vendor/extracted-source/etc_fa.c:1514-1726 | after every run of additions, deletions and hardware counting, with any timeouts: chains, slot map, counter and cached rows agree |
| FlowCacheRuns.AllRunsMatch | hwoffload-research/graveyard-vendor/extracted-source/etc_fa.c:1514-1726 | after every run the cache holds exactly the additions that reported success and were not deleted since, each carrying out its own request |
| FlowCacheReferences.AddCountedIff | hwoffload-research/graveyard-vendor/extracted-source/etc_fa.c:593-647 | whatever accesses time out: an addition keeps every ref[i] at least the number of cached flows with nh_idx i if and only if it does not increment a counter that stands at 65535 for an index in use |
| FlowCacheReferences.DelCounted | hwoffload-research/graveyard-vendor/extracted-source/etc_fa.c:649-681 | a deletion always does |
| FlowCacheReferences.CountedIffNeverWraps | hwoffload-research/graveyard-vendor/extracted-source/etc_fa.c:616-681 | in every run with any timeouts the counts stay sufficient throughout if and only if no addition makes a counter in use go round |
| FlowCacheReferences.AllRunsReferenced | hwoffload-research/graveyard-vendor/extracted-source/etc_fa.c:616-681 | and then ref[i] is exactly the number of cached flows with nh_idx i plus the number of steps that left a reference behind at i, modulo 65536 |
| FlowCacheReferences.FewKeptNeverWraps | hwoffload-research/graveyard-vendor/extracted-source/etc_fa.c:1617-1620 | no counter goes round in a run with fewer than 64511 steps that leave a reference behind, however many are refused |
| FlowCacheReferences.FromInit | hwoffload-research/graveyard-vendor/extracted-source/etc_fa.c:1326-1416 | all three from the state after the attach |
| FlowCacheReferences.HopOutcome | hwoffload-research/graveyard-vendor/extracted-source/etc_fa.c:616-647 | whatever times out: a next hop is the row that holds the address, which is left as it is, or the head of the free list with the row that was asked for; without one only the row at the head may have changed |
| FlowCacheStart.FirstAdd | hwoffload-research/graveyard-vendor/extracted-source/etc_fa.c:1514-1670 | the first addition after the attach makes 135 accesses and gets index 0 with the row it asks for |
| FlowCacheSound.StepSoundIff | hwoffload-research/graveyard-vendor/extracted-source/etc_fa.c:556-681 | whatever accesses time out: a step keeps the free list equal to the unreferenced indices, every flow counted, and every cached flow with a row that holds its destination (one index for each destination), if and only if it is safe: an addition is over before it has a next hop, or finds none, or finds an index in use with room in its counter; a deletion is not the last to leave its index, or stops before, or clears the row in time with the list not exhausted |
| FlowCacheSound.SoundFromInit | hwoffload-research/graveyard-vendor/extracted-source/etc_fa.c:556-681 | so from the attach on a run stays sound throughout if and only if each of its steps is safe |
| FlowCacheLate.LateRowMisdirects | hwoffload-research/graveyard-vendor/extracted-source/etc_fa.c:634-640 | it fails from the attach on: one next-hop write that is carried out too late, the same request again, and the next flow to another address overwrites the row of the first |
| FlowCacheStray.AddStrayIff | hwoffload-research/graveyard-vendor/extracted-source/etc_fa.c:1642-1666 | whatever accesses time out: an addition leaves no valid row without a cached flow if and only if it is not given up after a late write of its row was carried out |
| FlowCacheStray.DelStrayIff | hwoffload-research/graveyard-vendor/extracted-source/etc_fa.c:847-888 | a deletion leaves none if and only if the tuple is not cached, or its row is read in time and the write that clears it is not lost |
| FlowCacheStray.StrayFromInit | hwoffload-research/graveyard-vendor/extracted-source/etc_fa.c:1514-1726 | so from the attach on no row is valid without a flow after any step of a run if and only if none of its steps is one of these |
| FlowCacheStray.StrayAddFromInit | hwoffload-research/graveyard-vendor/extracted-source/etc_fa.c:1642-1666 | it fails from the attach on for an addition |
| FlowCacheStray.StrayDelFromInit | hwoffload-research/graveyard-vendor/extracted-source/etc_fa.c:862-872 | and for a deletion: the accelerator goes on translating for a flow that nobody can delete any more |
| FlowBuckets.BucketsApart | hwoffload-research/graveyard-vendor/extracted-source/etc_fa.c:1559-1564 | flows that differ only in the last octet of the destination port never share a bucket |
| FlowCacheFull.HoldsFirst | hwoffload-research/graveyard-vendor/extracted-source/etc_fa.c:1514-1670 | from the attach on, n requests to different addresses in different buckets get the indices 0 to n-1, once each, and are all that is cached |
| FlowCacheFull.SelfLoopFromInit | hwoffload-research/graveyard-vendor/extracted-source/etc_fa.c:59-65 | so without a single timeout 128 of them, one deletion and two more additions end with two flows on one index, and the packets of the first go to the second one's address |
| FlowCacheFull.VariantsSpread | hwoffload-research/graveyard-vendor/extracted-source/etc_fa.c:1559-1564 | there are such requests: up to 256 of them for any request |
| FlowCacheLeaks.LeakRun | hwoffload-research/graveyard-vendor/extracted-source/etc_fa.c:1617-1620 | n additions to a known destination whose pool access times out all report failure, cache nothing, and each leave one reference behind |
| FlowCacheLeaks.CounterComesRound | hwoffload-research/graveyard-vendor/extracted-source/etc_fa.c:603-606 | so with enough of them the 16-bit counter of a next hop in use comes round to zero |
| FlowCacheLeaks.WrapFromInit | hwoffload-research/graveyard-vendor/extracted-source/etc_fa.c:603-606 | and it happens from the attach on: one flow, 65535 requests to its destination that time out, and its counter is zero |
| FlowCacheAgreement.AddNhopFresh | hwoffload-research/graveyard-vendor/extracted-source/etc_fa.c:616-647 | a destination no flow has gets the index at the head of the free list and its row there |
| FlowCacheAgreement.AddNhopShared | hwoffload-research/graveyard-vendor/extracted-source/etc_fa.c:556-647 | a destination some flow has shares that index: one more reference, no row written, and all its flows have the same index |
| FlowCacheAgreement.AddAgree | hwoffload-research/graveyard-vendor/extracted-source/etc_fa.c:1514-1670 | without timeouts and with a non-zero destination an addition keeps the full agreement of cache and hardware; it is refused exactly when it is not admitted or the free list is exhausted |
| FlowCacheAgreement.ExhaustedStays | hwoffload-research/graveyard-vendor/extracted-source/etc_fa.c:622-626 | while the list is exhausted no number of additions changes anything, also to destinations that have an index |
| FlowCacheAgreement.DelAgree | hwoffload-research/graveyard-vendor/extracted-source/etc_fa.c:1672-1726 | without timeouts a deletion zeroes the next-hop row and frees the index exactly for the last user, keeps everything but the free list always, and the free list if and only if no index is freed while the list is exhausted |
| FlowCacheAgreement.DeleteAssertHolds | hwoffload-research/graveyard-vendor/extracted-source/etc_fa.c:655-661 | in an agreeing state the assertion of fa_delete_nhop_entry holds for every cached flow: its cell is clean and its count is not zero |
| FlowCacheExact.ZeroMacAdd | hwoffload-research/graveyard-vendor/extracted-source/etc_fa.c:556-647 | an admitted flow to the zero address always destroys the free list: it matches the first zeroed row, which is still on the list |
| FlowCacheExact.StepAgreesIffClean | hwoffload-research/graveyard-vendor/extracted-source/etc_fa.c:1514-1726 | without timeouts a step keeps the full agreement if and only if it neither admits a zero destination nor frees an index while none is free |
| FlowCacheExact.CleanRunsAgree | hwoffload-research/graveyard-vendor/extracted-source/etc_fa.c:1514-1726 | every run of such steps: each cached flow's row is valid and decodes to its tuple, its nh_idx names a row with its dhost, reference counts equal the number of users, no other NAPT row is valid |
| FlowCacheExact.AgreeThroughoutIff | hwoffload-research/graveyard-vendor/extracted-source/etc_fa.c:1514-1726 | no other run without timeouts stays in agreement after each of its steps |
| FlowCacheExact.CleanRunsFromInit | hwoffload-research/graveyard-vendor/extracted-source/etc_fa.c:1326-1416 | both from the state after the attach |
| FlowCacheExact.BucketFlowsAre | hwoffload-research/graveyard-vendor/extracted-source/etc_fa.c:1550-1582 | the flows in the four slots of bucket b are the cached flows whose CRC has low byte b |
| FlowCacheExact.RefusedExactly | hwoffload-research/graveyard-vendor/extracted-source/etc_fa.c:1531-1595 | a request is refused before anything is touched if and only if a device is not ready, it is IPv6 or PPP, memory is short, its tuple is cached, or four cached flows share its CRC byte |
| FlowCacheExact.RowsTellApart | hwoffload-research/graveyard-vendor/extracted-source/etc_fa.c:824-843 | the rows of two cached flows match the same packets exactly when the flows differ in nothing but a protocol that is not TCP |
| FlowCacheExact.DelLoops | hwoffload-research/graveyard-vendor/extracted-source/etc_fa.c:59-65 | a deletion that frees an index on an exhausted list brings that index back as a self-loop, in any agreeing state |
| FlowCacheExact.TwoFlowsOneIndex | hwoffload-research/graveyard-vendor/extracted-source/etc_fa.c:59-65 | after that, two additions to new destinations get the same index, and the first flow's packets would go to the second one's address |
| FlowRequests.TranslatesAsAsked | hwoffload-research/graveyard-vendor/extracted-source/etc_fa.c:1622-1645 | after any addition that reports success the row of its tuple is valid and matches its packets (addresses, ports, TCP), and rewrites address and port as asked if and only if the request asks for a translation or names its own destination as the new address |
| FlowRequests.HopRowSays | hwoffload-research/graveyard-vendor/extracted-source/etc_fa.c:1601-1609 | the next-hop row that a request asks for decodes to its destination, tag operation and tag control field |
| FlowRequests.RowIsAskedIff | hwoffload-research/graveyard-vendor/extracted-source/etc_fa.c:556-647 | whatever accesses time out: the row in the hardware of an added flow is the one it asked for if and only if no row held its destination, or the row that was found is that one already |
| FlowRequests.TagIsAskedIff | hwoffload-research/graveyard-vendor/extracted-source/etc_fa.c:556-647 | in an agreeing state without timeouts: if and only if its destination is not zero, and no cached flow has it or one that has it goes with that row already |
| FlowRequests.TwoTagsFromInit | hwoffload-research/graveyard-vendor/extracted-source/etc_fa.c:556-647 | of two flows to one address on different VLANs the packets of the second leave with the tag of the first, from the attach on |
| FlowRequests.TciParts | hwoffload-research/graveyard-vendor/extracted-source/etc_fa.c:1607-1608 | that field holds the VLAN number below the precedence bits, and nothing in between |
| FlowPools.PoolHolds | hwoffload-research/graveyard-vendor/extracted-source/etc_fa.c:686-764 | whatever accesses time out: the pool index of a flow that was added leads to its source address and its direction |
| FlowPools.AddPoolRows | hwoffload-research/graveyard-vendor/extracted-source/etc_fa.c:718-764 | only the slot of that direction is ever written, and only when no entry matches |
| FlowPools.AllRunsPoolsHold | hwoffload-research/graveyard-vendor/extracted-source/etc_fa.c:686-764 | in every run whose additions send from one address on each side, with any timeouts, the pool entry of each cached flow stays right for as long as the flow is cached |
| FlowPools.PoolKeptIff | hwoffload-research/graveyard-vendor/extracted-source/etc_fa.c:718-764 | and a further addition leaves the entry of a cached flow of its side right if and only if it sends from the same address, or from the zero address on the inside |
| FlowPools.PoolsFromInit | hwoffload-research/graveyard-vendor/extracted-source/etc_fa.c:686-764 | the run theorem from the state after the attach |
| FlowPaths.RowNames | hwoffload-research/graveyard-vendor/extracted-source/etc_fa.c:829-842 | whatever timed out: the row of a cached flow decodes to its nh_idx, its pool_idx, its tuple, TCP or not, its direction, and no target DMA |
| FlowPaths.SlotFromRow | hwoffload-research/graveyard-vendor/extracted-source/etc_fa.c:1559-1564 | and lies in the bucket that the CRC of the decoded row itself picks |
| FlowPaths.HopPathsFromInit | hwoffload-research/graveyard-vendor/extracted-source/etc_fa.c:556-681 | from the attach on, after every run of safe steps with any timeouts: the next-hop row that the row of a cached flow names holds the flow's destination |
| FlowPaths.PoolPathsFromInit | hwoffload-research/graveyard-vendor/extracted-source/etc_fa.c:686-764 | after every run that sends from one address on each side: the pool entry it names holds the address of its side and its direction |
| FlowPaths.CleanPaths | hwoffload-research/graveyard-vendor/extracted-source/etc_fa.c:556-681 | after every clean run without timeouts its next-hop row holds its destination |
| FlowPaths.EndToEnd | hwoffload-research/graveyard-vendor/extracted-source/etc_fa.c:1514-1726 | from the attach on, after every such run: for each request in force the row of its tuple matches its packets, leads to its destination and to its source address, and translates as asked |
| FlowAccel.Walk | hwoffload-research/graveyard-vendor/extracted-source/etc_fa.c:1275-1293 | the walk along a linked chain stops at the first entry with the tuple, with its predecessor |
| FlowAccel.FlowAccel.constructor | hwoffload-research/graveyard-vendor/extracted-source/etc_fa.c:1326-1416 | a new object stands for the empty cache over zeroed tables |
| FlowAccel.FlowAccel.LookupEntry | hwoffload-research/graveyard-vendor/extracted-source/etc_fa.c:1275-1293 | the entry found by following the pointers is the one the map gives |
| FlowAccel.FlowAccel.CachedIndex | hwoffload-research/graveyard-vendor/extracted-source/etc_fa.c:569-585 | the scan of all 256 linked chains finds the index fa_find_nhop starts from |
| FlowAccel.FlowAccel.GiveBack | hwoffload-research/graveyard-vendor/extracted-source/etc_fa.c:59-65 | the macro on the arrays does what the allocator's specification says, self-loop included |
| FlowAccel.FlowAccel.AddNextHop | hwoffload-research/graveyard-vendor/extracted-source/etc_fa.c:616-647 | the arrays, the row and the entry after giving a flow its next hop |
| FlowAccel.FlowAccel.DeleteNextHop | hwoffload-research/graveyard-vendor/extracted-source/etc_fa.c:649-681 | the arrays and the row after a reference is dropped |
| FlowAccel.FlowAccel.AddPoolEntry | hwoffload-research/graveyard-vendor/extracted-source/etc_fa.c:686-764 | the pool table after a source address is looked for or written |
| FlowAccel.FlowAccel.NaptAdd | hwoffload-research/graveyard-vendor/extracted-source/etc_fa.c:1514-1670 | fa_napt_add on linked entries, pointer arrays, counters and tables is a step of the state machine for every input and every timeout, and keeps the object valid |
| FlowAccel.FlowAccel.Unlink | hwoffload-research/graveyard-vendor/extracted-source/etc_fa.c:1696-1715 | taking an entry out of the middle of its chain and out of its slot |
| FlowAccel.FlowAccel.ReleaseRow | hwoffload-research/graveyard-vendor/extracted-source/etc_fa.c:847-888 | the row is read, marked invalid and its next hop let go, with every exit on a timeout |
| FlowAccel.FlowAccel.NaptDel | hwoffload-research/graveyard-vendor/extracted-source/etc_fa.c:1672-1726 | fa_napt_del likewise is a step of the state machine and keeps the object valid |
| RxChain.Search | hwoffload-research/graveyard-vendor/extracted-source/et_linux.c:2349-2377 | the closed form of the search: it stops below 32 exactly when the slot found has the packet's key and the packet may be chained, and no earlier slot matches |
| RxEngine.SearchSlots | hwoffload-research/graveyard-vendor/extracted-source/et_linux.c:2349-2377 | the loop that opens slots while it runs does exactly that |
| RxEngine.Sort | hwoffload-research/graveyard-vendor/extracted-source/et_linux.c:2325-2426 | the loop body puts the packet where the specification says, for every state of the slots |
| RxEngine.EtRx.RxEvent | hwoffload-research/graveyard-vendor/extracted-source/et_linux.c:2266-2493 | et_rxevent takes a prefix of the ring, hands up chains then loose packets, never processes more than its quota, reschedules exactly when it is used up, and otherwise leaves the ring empty |
| RxChain.AcceptKeepsOrder | hwoffload-research/graveyard-vendor/extracted-source/et_linux.c:2325-2426 | one packet keeps the order of the eligible packets of every flow |
| RxChain.ProcessKeepsOrder | hwoffload-research/graveyard-vendor/extracted-source/et_linux.c:2289-2493 | for every mix of packets: the eligible packets of a flow go up in arrival order, whenever stop_chain is set and whatever fills the slots |
| RxChain.RunKeepsOrder | hwoffload-research/graveyard-vendor/extracted-source/et_linux.c:2266-2493 | the same over any number of calls and arrivals in between |
| RxChain.ProcessConserves | hwoffload-research/graveyard-vendor/extracted-source/et_linux.c:2289-2493 | every packet that is kept goes up exactly once |
| RxChain.RunConserves | hwoffload-research/graveyard-vendor/extracted-source/et_linux.c:2266-2493 | over any run each frame that arrived has gone up once, is a freed management frame, or is still on the ring |
| RxChain.ProcessBounded | hwoffload-research/graveyard-vendor/extracted-source/et_linux.c:2419-2423 | no chain is longer than PKTCBND, and chaining has stopped exactly when one is that long |
| RxChain.ChainSizes | hwoffload-research/graveyard-vendor/extracted-source/et_linux.c:2220 | the assertion of et_sendup_chain: every chain handed up has between 1 and PKTCBND members, all with the key of the first |
| RxChain.ReachQuota | hwoffload-research/graveyard-vendor/extracted-source/et_linux.c:2454-2459 | a call keeps at most its quota and stops short of it only when the ring is empty |
| RxChain.UnfitStopsChaining | hwoffload-research/graveyard-vendor/extracted-source/et_linux.c:2349-2377 | after a packet that is looked for but may not be chained, every packet of any other flow without a slot goes up unchained, whatever else the call takes |
| RxChain.FullStaysFull | hwoffload-research/graveyard-vendor/extracted-source/et_linux.c:2349-2377 | once all slots are taken, no packet of a flow without a slot is chained in this call |
| RxChain.OrderIff | hwoffload-research/graveyard-vendor/extracted-source/et_linux.c:2289-2493 | all packets of a flow, eligible or not, keep their order if and only if none joins a chain while an earlier one is among the loose packets |
| RxChain.JoinsWhen | hwoffload-research/graveyard-vendor/extracted-source/et_linux.c:2349-2379 | a packet joins a chain exactly when it may be chained, no chain is full, and its flow has a slot or one is left |
| RxChain.UnfitIsOvertaken | hwoffload-research/graveyard-vendor/extracted-source/et_linux.c:2349-2426 | any packet that may not be chained is overtaken by the next one of its flow that may |
| IntrProtocol.AllRunsSafe | hwoffload-research/graveyard-vendor/extracted-source/et_linux.c:2069-2136 | every interleaving of chip, handler, tasklet steps, up and down: both assertions of et_isr hold, while the device is up exactly one of "unmasked" and "et_dpc scheduled or running" is true, a masked condition is never served, and the mask is closed while the device goes down |
| IntrProtocol.NoWakeupLost | hwoffload-research/graveyard-vendor/extracted-source/etcgmac.c:1571-1630 | every interleaving: a condition the driver has not dealt with is one et_dpc is on its way for, or the next handler call schedules it with that condition announced |
| IntrProtocol.OneRoundHandlesAll | hwoffload-research/graveyard-vendor/extracted-source/etcgmac.c:1610-1630 | one interrupt and one undisturbed et_dpc leave nothing undone, the mask open and the status register acknowledged: the next call of the handler changes nothing |
| IntrProtocol.IsrTakes | hwoffload-research/graveyard-vendor/extracted-source/et_linux.c:2068-2136 | the handler takes exactly the unmasked conditions out of the status register, announces them, masks and schedules; without one it changes nothing |
| IntrProtocol.LooksWhereAnnounced | hwoffload-research/graveyard-vendor/extracted-source/et_linux.c:2529-2549 | et_dpc looks at the rings that were announced and at no other |
| IntrProtocol.SecondLook | hwoffload-research/graveyard-vendor/extracted-source/et_linux.c:2551-2575 | after an error the receive ring is looked at once more exactly when no re-init is needed and the quota is not used up, and then takes what came since |
| IntrProtocol.ResetClears | hwoffload-research/graveyard-vendor/extracted-source/et_linux.c:1612-1628 | after a reset that clears the status register and the next et_up the handler finds nothing |
| IntrProtocol.QuotaReschedules | hwoffload-research/graveyard-vendor/extracted-source/et_linux.c:2585-2599 | a pass cut short by the quota shrinks the ring, keeps the mask closed and schedules the next |
| IntrProtocol.FatalErrorUnmasks | hwoffload-research/graveyard-vendor/extracted-source/et_linux.c:2551-2600 | however the two looks at the ring end: a pass with an error that asks for a re-init leaves interrupts off, as its comment wants, if and only if its first look used up the quota |
| IntrProtocol.FatalRun | hwoffload-research/graveyard-vendor/extracted-source/et_linux.c:2551-2600 | up, a fatal error, the handler and one pass unmask interrupts, from the attach on |
| IntrProtocol.DownWithoutReset | hwoffload-research/graveyard-vendor/extracted-source/etc.c:226-246 | without the reset the protocol survives the next et_up if and only if nothing was saved when the device went down |
| IntrDriver.EtDriver.EtIsr | hwoffload-research/graveyard-vendor/extracted-source/et_linux.c:2068-2136 | et_isr on the driver's fields is the handler step; its assertions are proved where they stand |
| IntrDriver.EtDriver.EtDpc | hwoffload-research/graveyard-vendor/extracted-source/et_linux.c:2512-2643 | each stretch of et_dpc on the driver's fields is the tasklet step |
| IntrDriver.EtDriver.EtUp | hwoffload-research/graveyard-vendor/extracted-source/et_linux.c:1534-1559 | et_up keeps the protocol |
| IntrDriver.EtDriver.EtFlagDown | hwoffload-research/graveyard-vendor/extracted-source/et_linux.c:1561-1592 | the first half of et_down keeps the protocol |
| IntrDriver.EtDriver.EtFinishDown | hwoffload-research/graveyard-vendor/extracted-source/et_linux.c:1612-1628 | the second half keeps it and leaves the driver at rest |
| IntrDriver.EtDriver.GetIntrEventsBits | hwoffload-research/graveyard-vendor/extracted-source/etcgmac.c:1571-1608 | new conditions are announced and kept, whichever mask applies |
| TxQueues.PriqIsHighest | hwoffload-research/graveyard-vendor/extracted-source/etc.c:79-84 | for all 16 states the selector table gives the highest bit that is set |
| TxQueues.ClassesOrdered | hwoffload-research/graveyard-vendor/extracted-source/etc.c:68-77 | the priority table never puts a packet that ranks higher in IEEE 802.1D on a lower queue, and each queue serves two priorities |
| TxQueues.HighestFirst | hwoffload-research/graveyard-vendor/extracted-source/et_linux.c:1415-1447 | whatever is looked at, all higher queues are empty; what is sent is the head of the highest queue that is not, and fits txavail |
| TxQueues.LookProgress | hwoffload-research/graveyard-vendor/extracted-source/et_linux.c:1415-1449 | every turn of the loop takes an entry or a bit away |
| TxQueues.SendLoopOrder | hwoffload-research/graveyard-vendor/extracted-source/et_linux.c:1414-1483 | one call during which nobody enqueues serves the queues from the highest down, never back up |
| TxQueues.NeverBackUp | hwoffload-research/graveyard-vendor/extracted-source/et_linux.c:1414-1483 | all interleavings: after a packet was sent from a queue, none is sent from a higher one unless one was put on a higher one in between |
| TxQueues.SendLoopStops | hwoffload-research/graveyard-vendor/extracted-source/et_linux.c:1415-1447 | it stops only with all queues empty or the head of the highest one too large |
| TxQueues.DropsFromHighest | hwoffload-research/graveyard-vendor/extracted-source/et_linux.c:1495-1505 | a packet is dropped if and only if the queue looked at last is above the high-water mark, and it is the oldest entry of the highest queue that holds anything |
| TxQueues.StartPlaces | hwoffload-research/graveyard-vendor/extracted-source/et_linux.c:1324-1360 | a packet goes to the end of the queue of its 802.1D class, or of queue 0 without QoS, unless that holds as many packets as the threshold; then it is refused and nothing else changes |
| TxQueues.AllRunsByClass | hwoffload-research/graveyard-vendor/extracted-source/et_linux.c:1343 | every interleaving with QoS on throughout: each entry of queue q has class q; with QoS off throughout all entries are on queue 0 |
| TxQueues.HighestClass | hwoffload-research/graveyard-vendor/extracted-source/et_linux.c:1415-1447 | so what is sent has the highest class of all entries that wait |
| TxQueues.AllRunsWithin | hwoffload-research/graveyard-vendor/extracted-source/et_linux.c:1346-1352 | every interleaving: with a threshold no queue holds that many packets and one whole entry more |
| TxQueues.FlowControl | hwoffload-research/graveyard-vendor/extracted-source/et_linux.c:1487-1494 | without QoS the stack is stopped above the high-water mark, woken below half of it and left as it is in between; with QoS it is left as it is |
| TxQueues.DrainedIsFree | hwoffload-research/graveyard-vendor/extracted-source/et_linux.c:1487-1494 | a send loop without QoS that empties the queues leaves the stack free to send |
| TxQueues.AllRuns | hwoffload-research/graveyard-vendor/extracted-source/et_linux.c:1284-1508 | every interleaving of et_start, the send loop, mode changes and flushes: bits cover non-empty queues, counters count packets, each queue is first in first out, and packets taken equal packets sent plus dropped plus queued |
| TxEngine.EtTx.EtStart | hwoffload-research/graveyard-vendor/extracted-source/et_linux.c:1324-1360 | et_start on the arrays refuses or enqueues as specified |
| TxEngine.EtTx.DequeueHead | hwoffload-research/graveyard-vendor/extracted-source/et_linux.c:1292-1304 | the head is taken and both assertions about the counter hold |
| TxEngine.EtTx.ServeQueues | hwoffload-research/graveyard-vendor/extracted-source/et_linux.c:1414-1483 | the loop on the arrays terminates and does what the recursion says |
| TxEngine.EtTx.SendNext | hwoffload-research/graveyard-vendor/extracted-source/et_linux.c:1396-1508 | et_sendnext with its flow control or drop |
| OffloadTable.SlotsAreLive | hwoffload-research/fa-probe/fa_accel.c:244-289 | every run with any timeouts and corrupted reads: the slots in use hold exactly the cookies accepted and not destroyed since, and slot k names rows k+1 |
| OffloadTable.OneSlotPerCookie | hwoffload-research/fa-probe/fa_accel.c:265-280 | a cookie accepted once is in one slot |
| OffloadTable.ReplaceClean | hwoffload-research/fa-probe/fa_accel.c:473-574 | without faults a rule is accepted if and only if it is supported and a slot is free, and then its rows are in place |
| OffloadTable.AcceptedIff | hwoffload-research/fa-probe/fa_accel.c:527-544 | without faults a rule is accepted if and only if a slot is free, it is TCP, it matches on addresses or rewrites one, and it matches on an Ethernet address or rewrites one |
| OffloadTable.SupportedIff | hwoffload-research/fa-probe/fa_accel.c:527-535 | all of these but the free slot are looked at before anything is touched |
| OffloadTable.DestroyClean | hwoffload-research/fa-probe/fa_accel.c:576-595 | without faults a destroyed flow's row is invalid and its slot free, no other row, slot or next hop changes, and an unknown cookie changes nothing |
| OffloadTable.FaultlessRuns | hwoffload-research/fa-probe/fa_accel.c:473-595 | every run without faults: rows of used slots are those built from their rules, all other NAPT rows are invalid, rows 0 and 33 up are untouched |
| OffloadTable.RowsDecode | hwoffload-research/fa-probe/fa_accel.c:546-557 | in such a run the row of a used slot k is valid, matches TCP packets between the rule's addresses and ports, and names next hop k+1, whose row holds the destination address the rule matches on, or zero, and adds no tag |
| OffloadDriver.NhRowIs | hwoffload-research/fa-probe/fa_accel.c:212-221 | the words fa_set_nh_entry computes are those of the SDK's macro, for all arguments |
| OffloadDriver.NfRowIs | hwoffload-research/fa-probe/fa_accel.c:223-242 | the words fa_prep_napt_ipv4_row computes are those of the SDK's function, for all arguments |
| OffloadTable.DestinationRewriteLost | hwoffload-research/fa-probe/fa_accel.c:341-392 | two rules that differ only in what destinations (IPv4, Ethernet, port) are rewritten to are accepted or declined together, with the same rows |
| OffloadTable.HopAddress | hwoffload-research/fa-probe/fa_accel.c:441-471 | for every rule the next-hop row holds the address the rule matches on, or zero, never a rewritten one |
| OffloadTable.LastSourceWins | hwoffload-research/fa-probe/fa_accel.c:341-359 | the last source rewrite of a rule is the one that counts |
| OffloadTable.LastSportWins | hwoffload-research/fa-probe/fa_accel.c:366-392 | so is the last rewrite of the source port, the upper half of the word |
| OffloadTable.LastRedirectWins | hwoffload-research/fa-probe/fa_accel.c:519-521 | and the last redirection |
| OffloadTable.RewriteInRow | hwoffload-research/fa-probe/fa_accel.c:546-549 | the row carries the rewritten source address and port, or the rule's own; what it does to packets: towards "wan" it replaces the source address, elsewhere the destination, in both cases by the rewritten source or the rule's own source; it never translates a port |
| OffloadTable.TranslatesIff | hwoffload-research/fa-probe/fa_accel.c:513-549 | for every rule: its packets leave with the addresses and ports it wants if and only if it rewrites no port and, towards "wan", neither changes the destination nor sets the source to zero, elsewhere keeps the source and makes it the destination |
| OffloadTable.InboundLost | hwoffload-research/fa-probe/fa_accel.c:546-549 | the packets of an accepted rule that sends an outside flow to an inside host go back to where they came from |
| OffloadTable.SportLost | hwoffload-research/fa-probe/fa_accel.c:546-549 | towards "wan" the source port is the one the actions ask for if and only if they ask for none or for the one it has |
| OffloadTable.RefusedLeavesRow | hwoffload-research/fa-probe/fa_accel.c:551-565 | whatever the accesses do: exactly when a rule is accepted, and exactly when a refused one leaves a valid row in a free slot: the next hop was not verified and the old row is valid, or the row stored is valid and its write was late, or its read-back was late or different |
| OffloadTable.DestroyLeavesRow | hwoffload-research/fa-probe/fa_accel.c:587-590 | whatever the accesses do: exactly when a destroyed flow's row stays valid |
| OffloadTable.CountedTooSoon | hwoffload-research/fa-probe/fa_accel.c:551-565 | a packet that the accelerator counts in the row between write and read-back makes the driver refuse the rule and leave the row, valid and counted, in a free slot |
| OffloadDriver.FaAccel.FlowAlloc | hwoffload-research/fa-probe/fa_accel.c:244-263 | the loop finds the first free slot |
| OffloadDriver.FaAccel.FlowFind | hwoffload-research/fa-probe/fa_accel.c:265-280 | the loop finds the first slot that holds the cookie |
| OffloadDriver.FaAccel.PrepRow | hwoffload-research/fa-probe/fa_accel.c:223-242 | on the buffer, after the memset |
| OffloadDriver.FaAccel.ReplaceLive | hwoffload-research/fa-probe/fa_accel.c:473-574 | fa_flow_replace_live on the table is a step of the specification |
| OffloadDriver.FaAccel.DestroyLive | hwoffload-research/fa-probe/fa_accel.c:576-595 | so is fa_flow_destroy_live |
| SwitchPages.CacheInvisible | hwoffload-research/graveyard-vendor/extracted-source/bcmrobo.c:496-656 | from the attach on, unless the first access is to page 0xff: every sequence of accesses, with any timeouts, answers and changes the switch as a transport that selects the page every time |
| SwitchPages.StepCoherentIff | hwoffload-research/graveyard-vendor/extracted-source/bcmrobo.c:512-518 | after an access the cached page is the selected one if and only if it was before or the access was to another page than the cached one |
| SwitchPages.CoherentIff | hwoffload-research/graveyard-vendor/extracted-source/bcmrobo.c:971 | after any run from the attach the cache is right if and only if some access was to a page other than 0xff (or 0xff was selected) |
| SwitchPages.PageFfMissed | hwoffload-research/graveyard-vendor/extracted-source/bcmrobo.c:512-518 | a first write to page 0xff lands in the page that happens to be selected |
| SwitchPages.PutGet | hwoffload-research/graveyard-vendor/extracted-source/bcmrobo.c:520-555 | for each length the data registers give back the bytes that were put into them |
| SwitchPages.PutWords | hwoffload-research/graveyard-vendor/extracted-source/bcmrobo.c:520-555 | data register i holds the number that bytes 2i and 2i+1 write, the lower one first; the registers beyond the value keep theirs |
| SwitchPages.StepSays | hwoffload-research/graveyard-vendor/extracted-source/bcmrobo.c:496-656 | what one access answers and does: it fails exactly when it is not done within the limit; a read answers the register's bytes and changes none; a write that is carried out stores its bytes in its register and in no other |
| SwitchPages.WriteThenRead | hwoffload-research/graveyard-vendor/extracted-source/bcmrobo.c:496-656 | a register that was written returns the same bytes after any accesses to others, with lengths 1, 2, 4, 6 and 8, unless the read is not done in time |
| SwitchPages.Poll | hwoffload-research/graveyard-vendor/extracted-source/bcmrobo.c:562-573 | the polling loop fails exactly when the switch is not done within 100 polls |
| SwitchPages.RoboInfo.MiiWreg | hwoffload-research/graveyard-vendor/extracted-source/bcmrobo.c:496-575 | mii_wreg on the fields is the write step |
| SwitchPages.RoboInfo.MiiRreg | hwoffload-research/graveyard-vendor/extracted-source/bcmrobo.c:577-650 | mii_rreg on the fields is the read step |
| VlanPorts.TokensAre | hwoffload-research/graveyard-vendor/extracted-source/bcmrobo.c:1865-1876 | for every string: the tokens are its space-separated pieces, none empty, in order, each once |
| VlanPorts.BuildWords | hwoffload-research/graveyard-vendor/extracted-source/bcmrobo.c:1865-1914 | the loop terminates for every string and applies each token once, in order, up to one that leads below the table |
| VlanPorts.InsideIff | hwoffload-research/graveyard-vendor/extracted-source/bcmrobo.c:1879-1896 | for every port list the loop stays inside the port table if and only if no token is a negative number other than the auxiliary port: the range check has no lower end |
| VlanPorts.OutsideAt | hwoffload-research/graveyard-vendor/extracted-source/bcmrobo.c:1879-1896 | and the first negative number is what the table is indexed with |
| VlanPorts.MinusOne | hwoffload-research/graveyard-vendor/extracted-source/bcmrobo.c:1879-1896 | "0 -1 2" reads the entry before the table, unless -1 is the auxiliary port |
| VlanPorts.WordDecodes | hwoffload-research/graveyard-vendor/extracted-source/bcmrobo.c:2461-2462 | the word is built if and only if no token is such a number, and then the dump masks decode it to exactly the ports that in-range tokens lead to, and to exactly those of them the flags leave untagged, whatever the bits above the fields |
| VlanPorts.TableIs | hwoffload-research/graveyard-vendor/extracted-source/bcmrobo.c:1326-1347 | each entry of the port tables has its member bit, its untag bit above the member bits, and only the last one, and one that was marked, is a CPU port |
| VlanPorts.ApplyToken | hwoffload-research/graveyard-vendor/extracted-source/bcmrobo.c:1873-1896 | a token is cut to four characters, ignored when its port is above the table, and otherwise adds the bits of the entry it leads to, if there is one; the auxiliary port leads to the last one |
| VlanPorts.ImpPortUpd | hwoffload-research/graveyard-vendor/extracted-source/bcmrobo.c:1349-1369 | robo_fa_imp_port_upd |
| VlanPorts.UntaggedAreMembers | hwoffload-research/graveyard-vendor/extracted-source/bcmrobo.c:1887-1896 | the untagged ports are members |
| AdmSerial.CommandBits | hwoffload-research/graveyard-vendor/extracted-source/etc_adm.c:220-226 | the 27 bits of the command are 101, the address and the value, for every address and value |
| AdmSerial.AdmBus.AdmWrite | hwoffload-research/graveyard-vendor/extracted-source/etc_adm.c:164-206 | sampling the data pin on each rising clock edge gives exactly the first bits of the buffer, most significant first; select and clock end low |
| AdmSerial.AdmBus.AdmAdclk | hwoffload-research/graveyard-vendor/extracted-source/etc_adm.c:149-162 | extra clocks show the data pin as it is and end low |
| AdmSerial.AdmBus.AdmWreg | hwoffload-research/graveyard-vendor/extracted-source/etc_adm.c:215-242 | while it is selected the chip sees exactly the command; two more edges follow with select low |
| AdmSerial.AdmBus.AdmRead | hwoffload-research/graveyard-vendor/extracted-source/etc_adm.c:440-475 | each byte is the eight input bits of its turn, padded with zeros; select and clock end low |
| AdmSerial.ReadReturnsWritten | hwoffload-research/graveyard-vendor/extracted-source/etc_adm.c:164-206 | reading back what adm_write sends gives the buffer |

## Left out
- IPv6 rows (refused by fa_napt_add), the hardware-hash build, fa_napt_live, fa_conntrack and the flush in fa_down.
- CRC and row packing for big-endian CPUs.
- FlowKey.Hash: which chain of the connection cache a flow is in has no effect outside; nothing is stated about the spread of the hash.
- Register-level access to the accelerator: the WAR777 strobes, busy polling and the order of data words below one row.
- FlowAccel.FlowAccel.NaptDel: clears the slot map entry before the hardware is accessed, where the code does so after; both happen under the lock.
- Receive: PLC, INGRESS_QOS and NAPI builds, multicast filtering, the header rewrite of chained frames, and the byte and frame statistics.
- TxQueues.SendLoopOrder: is about a call during which nobody else enqueues; NeverBackUp is the statement for all interleavings.
- Transmit: checksum offload, VLAN header replication inside a chain, FA headers, and failures inside the DMA engine.
- Interrupts: data races between et_isr and et_dpc on a second processor inside one register access.
- OffloadTable.SlotsAreLive: says nothing about rows; with timeouts the rows are covered by RefusedLeavesRow and DestroyLeavesRow.
- Indirect block setup, logging and statistics of the backend.
- The SPI transport of the switch: it has the same page cache over another bus. The SRAB transport depends on hardware arbitration.
- VlanPorts.WordDecodes: covers the VLAN table word; port tag registers and ARL entries of the same loop are register writes that are not modelled.
- robo_cpu_port_upd: the port it marks is a parameter of the switch. The boards on which flags move a port as the auxiliary one are not modelled.
- AdmSerial.AdmBus.AdmWreg: pin delays and the hand-over of the GPIO pins are not modelled.
- PHY setup, DMA tuning, MIB counters, power saving, the probes and the firmware tools.
