# usque in Dafny

A model of the parts of usque in which a small mistake stays hidden for long: the splitting of
address ranges into prefixes, the in-place packet rewrites with their incremental checksums, the
DNS table, BBR congestion control, the capsule formats, datagrams over HTTP/2, and the shutdown
protocol of a tunnel cycle. Everything is proved for all inputs, all runs or all interleavings.

Code that changes state keeps its form: packets are arrays edited in place, and the DNS
rewriter, the ring buffer, the packet queue, the windowed filter, the pacer, the bandwidth
sampler, the BBR sender, the HTTP/2 stream, the connection and the capsule reader are classes.
Each method is proved against a function of the old state, and the theorems are about those
functions.

| component | files |
|---|---|
| numbers and bytes | `Arithmetic`, `Pow2`, `Bytes`, `Wrappers` |
| ranges to prefixes | `IPRange` (code), `RangeCover` (theorems) |
| checksums and packets | `Checksum`, `Packet` |
| DNS hijacking | `NatTable` (one shard), `DnsHijack` (code), `DnsProofs`, `QueryLaws` |
| MSS clamping | `MssClamp` (code), `ClampProofs`, `SynLaws` |
| sending and receiving a packet | `Compose`, `Outbound` and `Inbound` (the whole paths) |
| BBR | `RingBuffer`, `PacketQueue`, `WindowedFilter`, `AckHeight`, `Pacer`, `SamplerState`, `SamplerRuns` and `Sampler`, `BbrState`, `BbrWhole` and `BbrSender`, `BbrProofs`, `BbrRuns`, `BbrGrowth`, `BbrRounds`, `BbrDivision`; `SampleLaws`, `SamplerHistory`, `TrackerLaws`, `WindowLaws`, `ModeLaws`, `RateLaws`, `RecoveryLaws`, `EstimateLaws`, `WholeLaws` |
| capsules | `Varint`, `CapsuleCodec` (code), `CapsuleProofs`, `ParseLaws` |
| datagrams | `H2Datagram`, `Conn`, `WireLaws` |
| tunnel cycle | `TunnelCycle`, `TunnelReaders` |

`SamplerState`, `BbrState` and `BbrWhole` hold the step functions; `Sampler` and `BbrSender` are
the imperative code. `Sampler` works on the ring buffer and packet queue classes themselves, and
`BbrSender` on the sampler and the pacer. The plain fields of the BBR sender are gathered in one
record, `b := b.(field := value)` being the assignment of a field; its bandwidth filter is a value
of that record, updated by the function that the filter class is proved against, and so is the
sampler's filter of ack heights. Between calls the sender keeps its own invariants and those of
its parts; its handlers follow the step functions, and what those amount to is proved in
`BbrProofs`, `BbrRuns` and `BbrGrowth` for the state machine alone, and in `BbrWhole`, `BbrRounds`
and `BbrDivision` together with sampler and pacer. Times, RTT statistics, the random number of
`enterProbeBandwidthMode`, what reads of a response body return, and the interleaving of
goroutines are arbitrary inputs. `float64` values are reals, and converting them to integers
truncates.

The files named after laws say what the functions behind the methods compute without naming those
functions or their constants: in bytes and encoded headers for packets and capsules, in numbers for
rates, windows and budgets, and in terms of the calls made so far for the sampler's bookkeeping.

## Where the code differs from its documentation

- "Non-DNS packets are returned unchanged" (internal/dns_hijack.go:75): the IPv4 protocol byte
  is not looked at. `DnsProofs.QueryIsUnchangedIff` says which packets are unchanged, and
  `DnsProofs.TcpSequenceIsOverwritten` what happens to a TCP segment.
- "A burst of queries only drops the oldest entry" (internal/dns_hijack.go:18-20): a key that is
  still in the ring when it is queried again can lose its new entry first
  (`NatTable.StaleCopyEvictsNewest`), and a shard can hold up to 2n - 1 entries instead of n
  (`NatTable.PendingBoundIsReached`, `NatTable.PassesRingSizeIff`).
- The IPv6 DNS path can write the UDP checksum 0 (`DnsProofs.Ipv6CanWriteZeroChecksum`); exactly
  when is `DnsProofs.NewChecksumIsZero`.
- An MSS value at an odd offset in the segment gets a wrong TCP checksum unless old and new value
  differ by a multiple of 257 (`ClampProofs.ClampKeepsChecksum`, `ClampProofs.ClampCanBreakChecksum`).
- `composeDatagram` computes the header checksum over 20 bytes whatever the header length
  (`Compose.ForwardedHeaderVerifies`, `Compose.OptionsBreakHeader`).
- The windowed filter does not always report the maximum of its window
  (`WindowedFilter.NotTheWindowMaximum`); when it does is `WindowedFilter.ExactInFirstWindow`,
  `ExactUntilExpiry` and `PromotionIsExactIff`.
- Ack heights are reinserted "after recalculating" (internal/congestion/bbr/bandwidth_sampler.go:153),
  but the events are not told their round, so beyond the first rounds all of them are forgotten at
  the next aggregation (`AckHeight.RecalculationIsForgottenIff`, `SamplerRuns.RecalculationIsWasted`).
- A capsule body that lacks its last byte is accepted without its last entry
  (`CapsuleProofs.MissingLastByteIsAccepted`).
- `readMu` is said to serialise device readers across cycles (api/tunnel.go:187, 570), but every
  cycle has its own (`TunnelReaders.TwoReadersPossible`).

## Model

| member | source | states |
|---|---|---|
| `IPRange.OrFills` | connect-ip/iprange.go:45-63 | bitwise or with k one bits replaces the k lowest bits of a number by ones |
| `IPRange.AndKeeps` | connect-ip/iprange.go:66-79 | bitwise and with k one bits is the remainder modulo 2^k |
| `IPRange.LastIPInPrefix` | connect-ip/iprange.go:45-63 | the byte loop yields the address with all host bits set, within its family |
| `IPRange.IsAligned` | connect-ip/iprange.go:66-79 | the byte loop answers whether the address is a multiple of the block size |
| `IPRange.FindLargestPrefix` | connect-ip/iprange.go:27-42 | the prefix of the largest block that starts at `start` and does not pass `end` |
| `IPRange.GrowIsLargest` | connect-ip/iprange.go:27-42 | stopping at the first size that does not fit loses nothing: no larger block fits |
| `IPRange.RangeToPrefixes` | connect-ip/iprange.go:9-24 | terminates, at the all-ones address too, with the greedy blocks of the range |
| `RangeCover.GreedyTiles` | connect-ip/iprange.go:9-24 | the blocks are aligned CIDR blocks that follow each other without gap from start to end |
| `RangeCover.TilesInOrder` | connect-ip/iprange.go:9-24 | any two of the blocks are disjoint, in increasing order, and inside the range |
| `RangeCover.GreedyCovers` | connect-ip/iprange.go:9-24 | an address is in some block iff it is in the range |
| `RangeCover.GreedyIsSmallest` | connect-ip/iprange.go:9-42 | every set of CIDR blocks whose union is exactly the range has at least as many members |
| `RangeCover.MinimumCover` | connect-ip/iprange.go:9-42 | the blocks returned are themselves such a set, of minimum size |
| `RangeCover.AtMostTwoPerBit` | connect-ip/iprange.go:9-42 | a range of W-bit addresses takes at most 2W - 2 prefixes |
| `RangeCover.TwoPerBitIsNeeded` | connect-ip/iprange.go:9-42 | the range 1 .. 2^W - 2 takes exactly that many |
| `RangeCover.RouteTestIsPrefixTest` | connect-ip/conn.go:363-374 | the route test accepts a destination iff one of the range's prefixes contains it |
| `Checksum.FoldCarry` | internal/dns_hijack.go:287-292 | the loop computes the residue modulo 0xffff, zero only for a zero sum |
| `Checksum.AdjustChecksum` | internal/dns_hijack.go:296-305 | the loops compute the update of section 3 of RFC 1624 for a list of words |
| `Checksum.AdjustTracks` | internal/dns_hijack.go:296-305 | checksum plus covered words keeps its residue when the words are replaced |
| `Checksum.IpChecksum` | internal/dns_hijack.go:374-386 | the complement of the one's-complement sum of the words, an odd last byte padded with zero |
| `Checksum.WordSumIsWeighted` | internal/dns_hijack.go:374-386 | the sum of words is the sum of the bytes, those at even places times 256 |
| `Checksum.SubAgreesWithAdjust` | internal/mss_clamp.go:144-151 | the two update formulas in the repository, which differ in where they complement, agree modulo 0xffff |
| `Packet.SkipIPv6ExtHeaders` | internal/dns_hijack.go:311-344 | the loop follows the extension-header chain to the first other header, or fails |
| `Packet.FindUdp` | internal/dns_hijack.go:348-370 | the offset of a complete UDP header, for IPv6 behind any chain of extension headers |
| `Packet.ComputeUDPChecksum` | internal/dns_hijack.go:388-421 | the checksum of pseudo-header and UDP datagram from scratch |
| `Packet.TransportSumCovers` | internal/dns_hijack.go:388-430 | what is summed are the bytes of the pseudo-header (both addresses, protocol, length) and of the upper-layer packet |
| `Packet.HeaderCorrectIsVerifies` | internal/dns_hijack.go:374-386 | an IPv4 header checksum is the from-scratch one iff the receiver's sum verifies and the field is not 0xffff |
| `Packet.UdpCorrectIsVerifies` | internal/dns_hijack.go:388-421 | a UDP checksum is the from-scratch one, with 0 sent as 0xffff, iff it verifies and is not 0 |
| `NatTable.PendingBound` | internal/dns_hijack.go:34-39 | on every run a shard of n slots holds at most 2n - 1 entries |
| `NatTable.PendingBoundIsReached` | internal/dns_hijack.go:96-104 | for every n there is a run that reaches 2n - 1 |
| `NatTable.RecordGrowsIff` | internal/dns_hijack.go:96-104 | a query adds an entry iff its key is new and none is evicted for it |
| `NatTable.PassesRingSizeIff` | internal/dns_hijack.go:96-104 | a shard passes its ring's size iff a new key meets a full table whose next slot names a key that is not pending |
| `NatTable.LostOnlyByEviction` | internal/dns_hijack.go:96-104 | an untouched entry is lost iff a query meets a full table with a slot naming that key next in turn |
| `NatTable.Retention` | internal/dns_hijack.go:96-104 | a key absent from the ring when recorded keeps its destination over any n - 1 later queries and any responses for other keys |
| `NatTable.StaleCopyEvictsNewest` | internal/dns_hijack.go:96-104 | without that condition, in a ring of any size from three on, the newest entry can be gone after two later queries |
| `NatTable.HoldsLatest` | internal/dns_hijack.go:96-104 | with distinct keys and no responses a shard holds exactly the latest n queries, and nothing else |
| `DnsHijack.Shard.Record` | internal/dns_hijack.go:96-104 | map, ring and position change in place as `Table.Record` says |
| `DnsHijack.Shard.Take` | internal/dns_hijack.go:192-198 | returns the entry of a key and removes it, the ring unchanged |
| `DnsHijack.Redirect` | internal/dns_hijack.go:106-127 | replaces an address in place and adjusts header and UDP checksum, every other byte as before |
| `DnsHijack.DNSRewriter.constructor` | internal/dns_hijack.go:49-67 | sixteen separate empty shards |
| `DnsHijack.DNSRewriter.RewriteQuery` | internal/dns_hijack.go:76-166 | redirects exactly the packets that are queries for a configured family and not IPv4 fragments, and records each in the shard of its port; which packets those are is said in bytes by the `QueryLaws` below |
| `DnsHijack.DNSRewriter.RewriteResponse` | internal/dns_hijack.go:171-273 | restores the recorded source of a response from the configured server and uses the entry up |
| `DnsHijack.DNSRewriter.Record` | internal/dns_hijack.go:96-104 | one shard changes, the one of the key's port |
| `DnsHijack.DNSRewriter.Take` | internal/dns_hijack.go:192-198 | the entry of a key in the shard of its port, which is forgotten |
| `DnsProofs.RedirectKeepsRest` | internal/dns_hijack.go:106-127 | a redirect writes the new address and touches only the address and checksum fields |
| `DnsProofs.RedirectKeepsHeaderVerification` | internal/dns_hijack.go:116-119 | the IPv4 header verifies after a redirect iff it did before |
| `DnsProofs.RedirectKeepsVerification` | internal/dns_hijack.go:121-127 | for any upper-layer protocol the checksum verifies after a redirect iff it did before |
| `DnsProofs.RedirectChecksums4` | internal/dns_hijack.go:106-127 | IPv4: correct checksums give exactly the checksums a recomputation would; the UDP field iff the old one verified |
| `DnsProofs.RedirectChecksums6` | internal/dns_hijack.go:150-162 | IPv6, any extension headers: the same modulo 0xffff, and exactly iff the new address is not congruent to the old one plus the checksum |
| `DnsProofs.NewChecksumIsZero` | internal/dns_hijack.go:296-305 | the updated checksum is zero iff the new address is congruent to the old one plus the checksum and not all of it is zero |
| `DnsProofs.Ipv6CanWriteZeroChecksum` | internal/dns_hijack.go:159-162 | for every verifying IPv6 query some server address makes the update write 0 |
| `DnsProofs.QueryIsUnchangedIff` | internal/dns_hijack.go:76-166 | a packet is returned unchanged iff it is no query, or goes to the configured server already and no checksum field holds the other form of zero |
| `DnsProofs.TcpSequenceIsOverwritten` | internal/dns_hijack.go:348-370 | a TCP segment to port 53 is rewritten: its checksum verifies iff it did before, but the low half of its sequence number is lost |
| `DnsProofs.ShardsRunApart` | internal/dns_hijack.go:69-71 | each shard evolves by the packets of its own ports alone |
| `DnsProofs.DnsRoundTrip` | internal/dns_hijack.go:76-273 | the answer to a query comes back with the address the query was sent to, after any packets that do not use its key and at most 255 further queries of its shard |
| `QueryLaws.WalkPassesChain` | internal/dns_hijack.go:311-344 | the walk passes over any encoded chain of IPv6 extension headers to the protocol behind it |
| `QueryLaws.WalkedIsChain` | internal/dns_hijack.go:311-344 | and passes over nothing else |
| `QueryLaws.QueryIsRedirected4` | internal/dns_hijack.go:76-127 | an IPv4 packet to port 53 (header of five words or more, eight bytes behind it, offset bits zero, any flags) leaves for the configured server, only its address and checksum fields changed, and its own destination is remembered under its source address and port in the shard of that port |
| `QueryLaws.QueryIsRedirected6` | internal/dns_hijack.go:128-166 | the same for IPv6 behind any encoded chain of extension headers, fragments too |
| `QueryLaws.OthersAreLeftAlone` | internal/dns_hijack.go:76-166 | a packet that fails one of these conditions leaves as it came, and nothing is remembered for it |
| `QueryLaws.AnswerIsRestored4` | internal/dns_hijack.go:171-226 | an IPv4 packet from port 53 of the configured server gets the address remembered for its destination address and port as its source, and the entry is gone; with no entry it arrives as it came |
| `QueryLaws.AnswerIsRestored6` | internal/dns_hijack.go:227-273 | the same for IPv6 |
| `QueryLaws.OthersArriveUnchanged` | internal/dns_hijack.go:171-273 | every other packet arrives as it came, and uses no entry up |
| `QueryLaws.QueryThenAnswer4` | internal/dns_hijack.go:76-273 | in bytes: the IPv4 answer to a query comes back from the address the query was sent to, after any packets without its key and at most 255 further queries of its shard of sixteen |
| `QueryLaws.QueryThenAnswer6` | internal/dns_hijack.go:76-273 | the same for IPv6 |
| `MssClamp.FindMSSOption` | internal/mss_clamp.go:105-135 | the loop is the recursive walk over the option bytes |
| `MssClamp.WalkFindsFirstMss` | internal/mss_clamp.go:105-135 | in an encoded option list the walk finds the first MSS option |
| `MssClamp.WalkFindsNoMss` | internal/mss_clamp.go:105-135 | and none if the list has none |
| `MssClamp.FoundIsFirstMss` | internal/mss_clamp.go:105-135 | what the walk finds is always the first MSS of a well-formed option list |
| `MssClamp.FindSyn` | internal/mss_clamp.go:32-78 | accepts exactly SYN segments with a complete header, TCP directly behind the IP header; in bytes they are those of `SynLaws.OfferIsClamped` and `SynLaws.OthersAreNotClamped` |
| `MssClamp.ClampMSS` | internal/mss_clamp.go:32-100 | edits MSS and checksum in place when the advertised MSS is above the limit, else nothing |
| `MssClamp.ClampMSSPacket` | internal/mss_clamp.go:170-177 | the limit follows from the MTU and the family |
| `ClampProofs.ClampKeepsRest` | internal/mss_clamp.go:82-99 | only the MSS value and the checksum change |
| `ClampProofs.ClampIsIdempotent` | internal/mss_clamp.go:32-100 | afterwards the MSS is at most the limit, and clamping again changes nothing |
| `ClampProofs.ClampKeepsChecksum` | internal/mss_clamp.go:32-100 | a valid TCP checksum stays valid iff nothing changes, the value is at an even offset, or old and new value differ by a multiple of 257 |
| `ClampProofs.ClampCanBreakChecksum` | internal/mss_clamp.go:32-100 | for every limit below 1460 not a multiple of 257 away there is a valid SYN that clamping makes invalid |
| `SynLaws.OfferIsClamped` | internal/mss_clamp.go:32-177 | in bytes and encoded options: an IPv4 or IPv6 packet with TCP directly behind the IP header, the SYN bit among any flags, and an MSS v as its first MSS option leaves with min(v, MTU - 40) or min(v, MTU - 60), and nothing else but the checksum changed |
| `SynLaws.OthersAreNotClamped` | internal/mss_clamp.go:32-177 | a packet that changes is of that kind, and its MSS was larger than the MTU allows |
| `SynLaws.NoSynNoChange` | internal/mss_clamp.go:64-84 | without the SYN bit, or with no MSS among the options, the packet leaves as it came |
| `SynLaws.OfferKeepsChecksum` | internal/mss_clamp.go:82-99 | its TCP checksum stays valid iff the options before the MSS fill whole words, or the MSS shrinks by a multiple of 257 or not at all |
| `Compose.CalculateIPv4Checksum` | connect-ip/checksum.go:9-22 | the from-scratch checksum of the 20 bytes with a zero checksum field |
| `Compose.ComposeDatagram` | connect-ip/conn.go:421-454 | one hop less and a new checksum behind context ID zero, or a rejection that leaves the packet alone |
| `Compose.ForwardedKeepsTransport` | connect-ip/conn.go:421-454 | the transport checksum covers none of the bytes changed |
| `Compose.ForwardedHeaderVerifies` | connect-ip/conn.go:430-441 | the new header checksum verifies iff the options, which it leaves out, sum to zero |
| `Compose.OptionsBreakHeader` | connect-ip/conn.go:430-441 | a packet with a valid header checksum that is sent with an invalid one |
| `WireLaws.HopsAreUsedUp` | connect-ip/conn.go:421-454 | a packet can be forwarded exactly as often as it has hops, less one; each time it loses one hop, and no other byte but the IPv4 header checksum changes |
| `Outbound.SendPacket` | api/tunnel.go:469-471 | the three edits of the outbound pump in its order, and the query recorded in the table of its shard |
| `Outbound.OutboundKeepsPacketsValid` | api/tunnel.go:469-471 | a packet of any protocol with valid checksums leaves with valid checksums, one hop less, a query addressed to the configured server, and any SYN's MSS within the limit of its family |
| `Inbound.ReceivePacket` | api/tunnel.go:527-528 | the two edits of the inbound pump in its order, and the entry of an answer used up |
| `Inbound.InboundKeepsPacketsValid` | api/tunnel.go:527-528 | a packet of any protocol and header length reaches the device with a valid transport checksum, the validity of its header checksum, its hop count and its destination kept, an answer with its original source, and any SYN's MSS within the limit |
| `Inbound.AnswerComesBack` | api/tunnel.go:527-528 | through the whole inbound path an answer has as its source the address the query was sent to |
| `RingBuffer.RingBuffer.Grow` | internal/congestion/bbr/ringbuffer.go:103-113 | twice the capacity and the same contents, wherever the ring had wrapped |
| `RingBuffer.RingBuffer.PushBack` | internal/congestion/bbr/ringbuffer.go:38-50 | appends one element to the sequence |
| `RingBuffer.RingBuffer.PopFront` | internal/congestion/bbr/ringbuffer.go:55-67 | removes and returns the first element |
| `RingBuffer.RingBuffer.At` | internal/congestion/bbr/ringbuffer.go:73-79 | the element at an index of the sequence, across the wrap |
| `RingBuffer.RingBuffer.Len` | internal/congestion/bbr/ringbuffer.go:21-29 | the length of the sequence |
| `RingBuffer.RingBuffer.constructor` | internal/congestion/bbr/ringbuffer.go:16-18 | an empty sequence, whatever the capacity |
| `RingBuffer.RingBuffer.Empty` | internal/congestion/bbr/ringbuffer.go:32-34 | whether the sequence is empty |
| `RingBuffer.RingBuffer.Set` | internal/congestion/bbr/ringbuffer.go:73-79 | writing through `Offset` replaces that element of the sequence and no other |
| `RingBuffer.RingBuffer.Front` | internal/congestion/bbr/ringbuffer.go:84-89 | the first element |
| `RingBuffer.RingBuffer.Back` | internal/congestion/bbr/ringbuffer.go:94-99 | the last element |
| `RingBuffer.RingBuffer.Clear` | internal/congestion/bbr/ringbuffer.go:116-122 | the empty sequence |
| `PacketQueue.PacketNumberIndexedQueue.IsEmpty` | internal/congestion/bbr/packet_number_indexed_queue.go:142-144 | whether no packet number is present |
| `PacketQueue.PacketNumberIndexedQueue.LastPacket` | internal/congestion/bbr/packet_number_indexed_queue.go:165-171 | the number of the last slot, or the invalid number |
| `PacketQueue.PacketNumberIndexedQueue.ClearUp` | internal/congestion/bbr/packet_number_indexed_queue.go:173-181 | afterwards the front slot is present or the queue is empty |
| `PacketQueue.PacketNumberIndexedQueue.Emplace` | internal/congestion/bbr/packet_number_indexed_queue.go:58-92 | succeeds iff the queue is empty or the number is past the last one, and fills the gap with absent slots |
| `PacketQueue.PacketNumberIndexedQueue.Remove` | internal/congestion/bbr/packet_number_indexed_queue.go:107-123 | takes one entry out and clears absent slots from the front |
| `PacketQueue.PacketNumberIndexedQueue.RemoveUpTo` | internal/congestion/bbr/packet_number_indexed_queue.go:128-139 | drops the slots below a packet number and clears absent ones |
| `PacketQueue.PacketNumberIndexedQueue.GetEntry` | internal/congestion/bbr/packet_number_indexed_queue.go:96-103 | the map's entry for a number, if there is one |
| `PacketQueue.EmplaceAddsEntry` | internal/congestion/bbr/packet_number_indexed_queue.go:58-92 | as a map: one entry more, all others the same |
| `PacketQueue.RemoveDropsEntry` | internal/congestion/bbr/packet_number_indexed_queue.go:107-123 | as a map: one entry less |
| `PacketQueue.RemoveUpToRestricts` | internal/congestion/bbr/packet_number_indexed_queue.go:128-139 | as a map: the restriction to the numbers not below |
| `PacketQueue.FirstIsLeast` | internal/congestion/bbr/packet_number_indexed_queue.go:153-171 | the first packet is the least number present, and every number lies within the slots used |
| `PacketQueue.CountIsMapSize` | internal/congestion/bbr/packet_number_indexed_queue.go:147-149 | the count of present entries is the size of the map |
| `WindowedFilter.WindowedFilter.Update` | internal/congestion/bbr/windowed_filter.go:106-155 | the array of three estimates becomes the specified next one in every branch, expiry and quarter and half window refreshes included |
| `WindowedFilter.WindowedFilter.Reset` | internal/congestion/bbr/windowed_filter.go:158-162 | all three estimates are the new sample |
| `WindowedFilter.FilterInvariant` | internal/congestion/bbr/windowed_filter.go:106-162 | over any run with times that never decrease: ordered by sample and by time, each estimate a real sample that no later one beats, the best within the window |
| `WindowedFilter.BestLivesItsWindow` | internal/congestion/bbr/windowed_filter.go:106-155 | the best changes only to a sample at least as good, or after a whole window |
| `WindowedFilter.StandInsAre` | internal/congestion/bbr/windowed_filter.go:106-155 | while the best stays: when the new sample becomes the second or third estimate, as no smaller or because those have been copies for a quarter or half of the window |
| `WindowedFilter.OthersMoveUp` | internal/congestion/bbr/windowed_filter.go:106-162 | a new maximum, or a sample after a whole window, replaces all three; else the others move up when the best expires |
| `WindowedFilter.ExactInFirstWindow` | internal/congestion/bbr/windowed_filter.go:106-155 | until a whole window has passed since the first sample the report is the maximum of all samples |
| `WindowedFilter.ExactUntilExpiry` | internal/congestion/bbr/windowed_filter.go:106-155 | an update that does not expire the best estimate keeps an exact report exact |
| `WindowedFilter.PromotionIsExactIff` | internal/congestion/bbr/windowed_filter.go:106-155 | an update that expires the best promotes the second estimate, the third or the new sample, the first of them still in the window and not beaten, and leaves an exact report iff no sample between the expired and the promoted one is still in the window and larger |
| `WindowedFilter.NotTheWindowMaximum` | internal/congestion/bbr/windowed_filter.go:106-155 | a run on which that condition fails |
| `Pacer.Pacer.SentPacket` | internal/congestion/bbr/pacer.go:36-44 | the budget at that time less the packet, not below zero, and the new send time; `Pacer.BudgetIsConserved` says what that leaves over a run |
| `Pacer.BudgetGrows` | internal/congestion/bbr/pacer.go:46-55 | the budget never shrinks with time and grows by at most what the bandwidth delivers, rounded up |
| `Pacer.Pacer.TimeUntilSend` | internal/congestion/bbr/pacer.go:66-80 | from the time returned on there is always budget for a full packet |
| `Pacer.WaitingIsExact` | internal/congestion/bbr/pacer.go:66-80 | when a packet has to wait, that time has come iff the minimal delay has passed and there is budget for it: one nanosecond earlier is too early |
| `Pacer.WaitingIsEnough` | internal/congestion/bbr/pacer.go:66-80 | from the time `TimeUntilSend` gives on, the budget holds a full packet |
| `Pacer.IntervalBound` | internal/congestion/bbr/pacer.go:36-62 | packets sent within budget, the bandwidth changing between them, total at most one burst plus the largest bandwidth times elapsed time |
| `Pacer.BudgetCanBeUsedUp` | internal/congestion/bbr/pacer.go:36-55 | at one time any packets are within budget that together are, and what they do not use is left |
| `Pacer.NewPacerAllowsBurst` | internal/congestion/bbr/pacer.go:27-62 | a new pacer lets any packets pass at once that add up to at most max(4 * delay * bandwidth, 10 datagrams), and keeps the rest |
| `Pacer.BudgetIsConserved` | internal/congestion/bbr/pacer.go:36-55 | at constant bandwidth, with the cap not reached, the budget is what was there plus what was delivered less what was sent, up to one byte of rounding for each packet |
| `Pacer.WaitingSufficesIff` | internal/congestion/bbr/pacer.go:66-80 | waiting gives a pacer budget for datagrams of another size, whatever its state, iff they are not larger than its own |
| `SamplerState.BandwidthFromDelta` | internal/congestion/bbr/bandwidth.go:29-31 | a multiple of 8 below 2^64 |
| `SamplerState.ChoiceOfSuffix` | internal/congestion/bbr/bandwidth_sampler.go:730-757 | a search that starts at a candidate with few enough bytes finds what a full search finds |
| `SamplerState.PruningIsInvisible` | internal/congestion/bbr/bandwidth_sampler.go:730-757 | over any sequence of pushes and choices with arguments that never decrease, the pruning search gives the answers of a search over everything pushed |
| `SamplerRuns.PruningNeverShows` | internal/congestion/bbr/bandwidth_sampler.go:730-858 | on every run of the sampler between two clears with acked totals in order, it measures from the points a search over everything pushed would find (`PruningNeverShowsAfterClear`: from a clear on) |
| `SamplerState.WhatIsLeft` | internal/congestion/bbr/bandwidth_sampler.go:730-757 | a choice keeps the candidates from the chosen one on or, when all fit, the half at the end |
| `SamplerState.PruningNeedsOrder` | internal/congestion/bbr/bandwidth_sampler.go:730-757 | with a decreasing argument an answer can differ |
| `SamplerState.TrackerUpdated` | internal/congestion/bbr/bandwidth_sampler.go:166-213 | the extra bytes are never negative, and zero iff a new epoch starts |
| `SamplerState.SentKeepsInv` | internal/congestion/bbr/bandwidth_sampler.go:555-597 | sending keeps the sampler invariant: remembered byte counts never exceed the totals |
| `SamplerState.AckedKeepsInv` | internal/congestion/bbr/bandwidth_sampler.go:759-830 | so does an acknowledgement, which counts the packet's bytes |
| `SamplerState.CongestionEventKeepsInv` | internal/congestion/bbr/bandwidth_sampler.go:599-676 | so does a whole event; totals never go down and the reported bandwidth is a multiple of 8 |
| `SamplerState.RunsKeepInv` | internal/congestion/bbr/bandwidth_sampler.go:555-858 | every reachable state keeps it, so a sample is always a non-negative byte count over a positive time |
| `SamplerHistory.EventIs` | internal/congestion/bbr/bandwidth_sampler.go:599-676 | an event counts the bytes lost and the bytes of the remembered packets acked, later packets are measured from the last of those, and the app-limited phase ends iff one of them was sent after it |
| `SamplerHistory.RunsAreHistories` | internal/congestion/bbr/bandwidth_sampler.go:555-830 | on every run: the bytes sent are those of the calls; measuring starts at the last remembered packet acked or the last send with nothing in flight, whichever was later; each remembered packet is what was known when it was sent |
| `SamplerHistory.SettingsAre` | internal/congestion/bbr/bandwidth_sampler.go:526-549 | what neutering counts, how far an app-limited phase reaches, and what the setters and the reset of the heights set |
| `SampleLaws.SampleIsSmallerSlope` | internal/congestion/bbr/bandwidth_sampler.go:759-830 | a sample, without 64-bit overflow: at most 8 * 10^9 bytes over nanoseconds for both slopes, and less than 8 bit/s below the smaller; there is one iff the packet has a point before it and is acked after the ack point, which is the last ack before it was sent or the candidate its acked bytes choose |
| `SampleLaws.RateWrapsAround` | internal/congestion/bbr/bandwidth.go:29-31 | 2^55 bytes more give the same rate, in 64-bit arithmetic |
| `SampleLaws.EventReports` | internal/congestion/bbr/bandwidth_sampler.go:599-676 | an event reports the largest bandwidth of its samples with the flag of the first packet that reached it, their smallest RTT, the largest inflight, and the state of the last packet |
| `SampleLaws.EventBandwidthIsSlope` | internal/congestion/bbr/bandwidth_sampler.go:599-830 | so the bandwidth reported is zero or such a slope of one of the packets acked |
| `TrackerLaws.LessRecentIs` | internal/congestion/bbr/bandwidth_sampler.go:258-284 | the less recent ack point is the last ack before the newest time |
| `TrackerLaws.BackInTime` | internal/congestion/bbr/bandwidth_sampler.go:258-267 | an ack whose time goes back replaces the newer point and keeps the older one |
| `TrackerLaws.OpeningClears` | internal/congestion/bbr/bandwidth_sampler.go:568-580 | sending with nothing in flight clears points and candidates but for the time of the send |
| `TrackerLaws.ToldIs` | internal/congestion/bbr/bandwidth_sampler.go:166-213 | in numbers: when an ack event starts an epoch, and by how much its bytes else exceed what the bandwidth explains |
| `TrackerLaws.ThresholdOfRun` | internal/congestion/bbr/bandwidth_sampler.go:542-549 | on every run the threshold of an epoch is twice the bandwidth with overestimate avoidance, and else the bandwidth |
| `TrackerLaws.ExcessOfEpoch` | internal/congestion/bbr/bandwidth_sampler.go:166-213 | over a run: the bytes acked in the epoch less the bandwidth times the time since its start |
| `TrackerLaws.HeightsAre` | internal/congestion/bbr/bandwidth_sampler.go:146-213 | an aggregation enters the filter with its round, after heights have been computed anew for a new maximum |
| `TrackerLaws.RecalculatedBest` | internal/congestion/bbr/bandwidth_sampler.go:146-165 | computed anew, the best height is the largest excess of the three events |
| `TrackerLaws.EventAggregates` | internal/congestion/bbr/bandwidth_sampler.go:664-676 | what an event tells the tracker, and that its less recent ack point becomes a candidate when nothing exceeds the bandwidth |
| `Sampler.BandwidthSampler.OnPacketSent` | internal/congestion/bbr/bandwidth_sampler.go:555-597 | the object's fields, queue and ring become the specified next state: totals, the snapshot of the packet, and a fresh start when nothing is in flight |
| `Sampler.BandwidthSampler.ChooseA0Point` | internal/congestion/bbr/bandwidth_sampler.go:730-757 | the candidate found, and exactly the pruning the loops with their re-read length do |
| `Sampler.BandwidthSampler.OnPacketAcknowledged` | internal/congestion/bbr/bandwidth_sampler.go:759-830 | the specified next state and sample, none for an unknown packet, a first packet, or an ack no later than its point; the sample is that of `SampleLaws.SampleIsSmallerSlope` |
| `Sampler.BandwidthSampler.OnAckEventEnd` | internal/congestion/bbr/bandwidth_sampler.go:832-858 | the aggregation epoch and the candidate pushed when it ends |
| `Sampler.BandwidthSampler.OnCongestionEvent` | internal/congestion/bbr/bandwidth_sampler.go:599-676 | losses, acknowledgements in order, and the report |
| `Sampler.BandwidthSampler.OnPacketNeutered` | internal/congestion/bbr/bandwidth_sampler.go:686-690 | the packet is forgotten and its bytes counted as neutered |
| `Sampler.BandwidthSampler.OnAppLimited` | internal/congestion/bbr/bandwidth_sampler.go:692-695 | the app-limited phase lasts to the last packet sent |
| `Sampler.BandwidthSampler.RemoveObsoletePackets` | internal/congestion/bbr/bandwidth_sampler.go:697-704 | the packets below a number are forgotten |
| `Sampler.BandwidthSampler.EnableOverestimateAvoidance` | internal/congestion/bbr/bandwidth_sampler.go:542-549 | once, with the aggregation threshold 2 |
| `Sampler.MaxAckHeightTracker.Update` | internal/congestion/bbr/bandwidth_sampler.go:135-213 | when an aggregation epoch starts anew, else the bytes acked in it beyond what the bandwidth explains; the heights remembered are recalculated on a new maximum bandwidth, and an aggregation is added |
| `AckHeight.Updated` | internal/congestion/bbr/windowed_filter.go:106-155 | the filter of extra-acked events is the windowed filter of their extra bytes |
| `SamplerRuns.HeightsCarryNoRound` | internal/congestion/bbr/bandwidth_sampler.go:206-211 | on every run without a reset of the heights no remembered event carries its round |
| `AckHeight.RecalculationIsForgottenIff` | internal/congestion/bbr/bandwidth_sampler.go:146-170 | so the next event makes the filter forget all recalculated heights iff its round is beyond the window or it is no smaller than they are |
| `SamplerRuns.RecalculationIsWasted` | internal/congestion/bbr/bandwidth_sampler.go:146-213 | beyond the first rounds, an aggregation found together with a new maximum bandwidth is the only height remembered |
| `WindowLaws.TargetIs` | internal/congestion/bbr/bbr_sender.go:663-689 | in numbers: at most gain * R * B / 8e9 (R the minimum RTT in ns, B the estimate in bit/s), less than gain + 1 bytes below that, the gain times the initial window without an estimate, and at least the minimum window |
| `WindowLaws.WindowAfterEvent` | internal/congestion/bbr/bbr_sender.go:965-995 | the window after an event in every mode, in terms of such a target |
| `WindowLaws.WindowFollowsProduct` | internal/congestion/bbr/bbr_sender.go:965-995 | at full bandwidth: at most gain * R * B / 8e9 plus the ack height, and not more than gain + 1 bytes below, unless all bytes acked were added or the maximum is reached |
| `WindowLaws.WindowReachesProduct` | internal/congestion/bbr/bbr_sender.go:965-995 | over any run of events that aim at a level or more, the window is there once that many bytes have been acked |
| `ModeLaws.ModeAfterEvent` | internal/congestion/bbr/bbr_sender.go:820-885 | the mode after every event: DRAIN at full bandwidth, PROBE_BW once no more than the bandwidth-delay product is in flight, PROBE_RTT after ten seconds without a new minimum RTT unless just idle, and out of it after 200 ms and a round; when the minimum RTT was taken |
| `ModeLaws.CycleAfterEvent` | internal/congestion/bbr/bbr_sender.go:753-785 | in PROBE_BW: when the cycle moves on, and to which gain |
| `ModeLaws.CycleStarts` | internal/congestion/bbr/bbr_sender.go:720-741 | a cycle starts at the time of the event, at the offset the random number gives |
| `ModeLaws.EveryOffsetStarts` | internal/congestion/bbr/bbr_sender.go:720-733 | each offset but 1 for one random number in seven |
| `ModeLaws.GainsOfRun` | internal/congestion/bbr/bbr_sender.go:708-741 | in every reachable state the gains of window and pacing are those of the mode |
| `RateLaws.RateAfterEvent` | internal/congestion/bbr/bbr_sender.go:925-962 | the rate after every event: gain times estimate rounded down at full bandwidth, before that the initial window once in a minimum RTT, then never less than the target, but for one slow-down on losses |
| `RateLaws.PacerBandwidthIs` | internal/congestion/bbr/bbr_sender.go:635-660 | the pacer gets an eighth of the rate in bytes per second, at least 65536 |
| `RecoveryLaws.InFlightIsConserved` | internal/congestion/bbr/bbr_sender.go:533-633 | what was in flight is acked, lost or still in flight |
| `RecoveryLaws.RecoveryAfterEvent` | internal/congestion/bbr/bbr_sender.go:889-1027 | the recovery state after every event, conservation for a round and then growth, and the recovery window it goes with |
| `RecoveryLaws.LossesAfterEvent` | internal/congestion/bbr/bbr_sender.go:585-632 | losses are counted for the round, and forgotten at its end |
| `RecoveryLaws.TooManyLossesIs` | internal/congestion/bbr/bbr_sender.go:1030-1041 | losses end STARTUP iff eight events of the round had some, and more than a fiftieth of the bytes in flight was lost |
| `RecoveryLaws.WindowInUse` | internal/congestion/bbr/bbr_sender.go:459-527 | the window a sender keeps to is the minimum in PROBE_RTT and the smaller of both windows in recovery |
| `RecoveryLaws.PacingWindowOfRun` | internal/congestion/bbr/bbr_sender.go:410-422 | the window behind the smallest pacing rate is 32 datagrams in every reachable state |
| `RecoveryLaws.ResizedIs` | internal/congestion/bbr/bbr_sender.go:403-422 | in numbers: windows of four and of 32 datagrams stay that, any other keeps its bytes within the new limits |
| `RecoveryLaws.ProfilesInOrder` | internal/congestion/bbr/bbr_sender.go:134-167 | a more aggressive profile has larger gains, and which profile has which flags |
| `EstimateLaws.EventEstimate` | internal/congestion/bbr/bbr_sender.go:560-576 | which samples an event gives the filter, and its app-limited flags |
| `EstimateLaws.EstimateIsSample` | internal/congestion/bbr/bbr_sender.go:560-576 | over any run the estimate is zero or the bandwidth reported for an event at most ten rounds before the last sample taken, and no later sample was larger |
| `EstimateLaws.EstimateIsMeasured` | internal/congestion/bbr/bbr_sender.go:533-576 | over any run of the whole sender it is zero or a slope that the sampler measured in an earlier event |
| `WholeLaws.NewSenderIs` | internal/congestion/bbr/bbr_sender.go:330-397 | what a new sender, its sampler and its pacer start with |
| `WholeLaws.SamplerAfterEvent` | internal/congestion/bbr/bbr_sender.go:533-633 | what an event reports and what the sampler is then: packets below the last acked less two forgotten, limited by the application while few bytes are in flight or in PROBE_RTT |
| `WholeLaws.ResetsHeightsIff` | internal/congestion/bbr/bbr_sender.go:789-803 | when the ack heights are dropped, in numbers |
| `WholeLaws.SendAfterCall` | internal/congestion/bbr/bbr_sender.go:439-457 | sending takes the bytes out of the pacer's budget, and remembers that the connection was idle |
| `BbrState.ConfigFor` | internal/congestion/bbr/bbr_sender.go:134-167 | every profile, with all its flags, meets what the theorems ask of a configuration |
| `BbrState.StartOffset` | internal/congestion/bbr/bbr_sender.go:723-733 | a cycle offset other than 1 |
| `BbrState.BandwidthForPacer` | internal/congestion/bbr/bbr_sender.go:650-659 | never below the floor, so the pacer never divides by zero |
| `BbrSender.BbrSender.constructor` | internal/congestion/bbr/bbr_sender.go:330-375 | sampler, pacer and state machine in order from the start: STARTUP, a window of 32 datagrams, and an idle connection can send |
| `BbrSender.BbrSender.OnCongestionEventEx` | internal/congestion/bbr/bbr_sender.go:533-633 | the sampler takes the event and the state machine its report, obsolete packets and app-limited phases included; all invariants hold; the window stays between its limits, grows by at most the bytes the sampler counts as acked and does not shrink before full bandwidth; in recovery there is room for what was acked; only the allowed mode changes |
| `BbrSender.BbrSender.OnPacketSent` | internal/congestion/bbr/bbr_sender.go:439-457 | pacer and sampler record the packet, and window and mode stay |
| `BbrWhole.NextKeepsInv` | internal/congestion/bbr/bbr_sender.go:439-633 | every call keeps the invariants of state machine, sampler and pacer together: no remembered packet and no send of the pacer later than now, estimates multiples of 8 below 2^64 |
| `BbrWhole.WholeRunIsRun` | internal/congestion/bbr/bbr_sender.go:533-633 | a run of the whole sender is a run of the state machine whose reports are the sampler's: multiples of 8, with RTT samples above zero |
| `BbrWhole.WholeMinRttIsMinimum` | internal/congestion/bbr/bbr_sender.go:696-705 | so over any run of it without expiry the minimum RTT is positive and the smallest of its old value and the samples |
| `BbrWhole.WholeStartupEnds` | internal/congestion/bbr/bbr_sender.go:789-810 | on every run of the whole sender whose checks see an estimate above zero, full bandwidth is reached once more than 244 * numStartupRtts rounds have started with a sample that is not app-limited |
| `BbrRounds.WholeRoundsGoOn` | internal/congestion/bbr/bbr_sender.go:439-633 | for every profile without overestimate avoidance there are such runs with any number of such rounds |
| `BbrWhole.PacerSize` | internal/congestion/bbr/bbr_sender.go:484-504 | the pacer's datagram size is the sender's once it has been set, else the one it started with |
| `BbrWhole.WaitingSenderCanSend` | internal/congestion/bbr/bbr_sender.go:428-436 | in every reachable state there is pacing budget from the time `TimeUntilSend` gives on, and room for an idle sender, if the pacer does not start with a smaller datagram size than the sender |
| `BbrSender.BbrSender.TimeUntilSend` | internal/congestion/bbr/bbr_sender.go:428-436 | from the time returned on `HasPacingBudget` holds, at the bandwidth of the moment |
| `BbrRuns.LossStartsRecovery` | internal/congestion/bbr/bbr_sender.go:889-922 | at full bandwidth an event with losses and acknowledgements ends in recovery, to last until a packet sent after it is acked |
| `BbrRuns.LossAloneIsIgnored` | internal/congestion/bbr/bbr_sender.go:554-559 | an event with losses alone neither starts recovery nor extends it |
| `BbrRuns.RecoveryEndsIff` | internal/congestion/bbr/bbr_sender.go:889-922 | over any run without a further event with losses and acknowledgements: recovery is over iff a packet sent after the loss has been acked |
| `BbrRuns.RoundsAreRoundTrips` | internal/congestion/bbr/bbr_sender.go:743-750 | over any run: between two round starts a packet is acked that was sent after the first |
| `BbrRuns.EventMinRtt` | internal/congestion/bbr/bbr_sender.go:696-705 | an event's sample replaces a missing or expired minimum, else the smaller one stays |
| `BbrRuns.MinRttIsMinimum` | internal/congestion/bbr/bbr_sender.go:696-705 | over any run without expiry the minimum RTT is the smallest of its old value and the samples, and one of them |
| `BbrSender.BbrSender.UpdateGainCyclePhase` | internal/congestion/bbr/bbr_sender.go:753-785 | when the cycle advances, as one order of priority, and that the low gain is kept past its place while the queue is above the target |
| `BbrGrowth.FullBandwidthIff` | internal/congestion/bbr/bbr_sender.go:789-810 | on any run an action reaches full bandwidth iff it is a check that completes n in a row staying less than a quarter above the bandwidth before them, or one such check with too many losses |
| `BbrRuns.ProbeRttLasts` | internal/congestion/bbr/bbr_sender.go:837-885 | over any run PROBE_RTT ends at least 200 ms after an event that found few bytes in flight, and after a round started since |
| `BbrRuns.PacingRateInProbeBw` | internal/congestion/bbr/bbr_sender.go:925-962 | in PROBE_BW the pacing rate lies between 0.75 and 1.25 times the bandwidth estimate |
| `BbrProofs.WindowClamped` | internal/congestion/bbr/bbr_sender.go:965-995 | the congestion window stays within its limits and does not shrink before full bandwidth |
| `BbrWhole.ResetIsNotMissed` | internal/congestion/bbr/bbr_sender.go:795-803 | an event that drops the ack heights does not reach full bandwidth, before which the window does not depend on them (`WindowWithoutHeights`) |
| `BbrRuns.WindowGrowsByAcked` | internal/congestion/bbr/bbr_sender.go:965-995 | an event lets it grow by at most the bytes acked |
| `BbrRuns.PacketConservation` | internal/congestion/bbr/bbr_sender.go:998-1027 | in recovery the recovery window leaves room for as many bytes as the event acked |
| `BbrSender.BbrSender.SetMaxDatagramSize` | internal/congestion/bbr/bbr_sender.go:484-504 | keeps all invariants at the new datagram size, which the pacer gets too, shrinks no congestion window and leaves the mode alone |
| `BbrProofs.ResizeKeepsWindows` | internal/congestion/bbr/bbr_sender.go:403-422 | rescaling keeps the limits exact multiples of the datagram size, the congestion window within them and the recovery window at least the minimum |
| `BbrProofs.EventKeepsWindows` | internal/congestion/bbr/bbr_sender.go:533-633 | every event leaves the congestion window within the limits and the recovery window, zeroed or not, at least at the minimum; before full bandwidth the congestion window never shrinks |
| `BbrProofs.EventKeepsModes` | internal/congestion/bbr/bbr_sender.go:720-885 | mode, gain and full-bandwidth flag stay consistent, the flag never resets, PROBE_BW never starts at offset 1, only PROBE_RTT returns to STARTUP |
| `BbrProofs.WindowAlwaysInBounds` | internal/congestion/bbr/bbr_sender.go:517-527 | in every state of every run the window is between the minimum and the maximum, so an idle connection can always send |
| `BbrProofs.StepKeepsInv` | internal/congestion/bbr/bbr_sender.go:439-633 | every event, sent packet and change of datagram size keeps the window and mode invariants |
| `BbrProofs.HoldAdvancesEveryRtt` | internal/congestion/bbr/bbr_sender.go:753-785 | while the low gain is held the cycle advances once a minimum RTT has passed |
| `BbrProofs.HoldEndsWithinCycle` | internal/congestion/bbr/bbr_sender.go:753-785 | a stretch with the low gain held contains at most five advances |
| `BbrGrowth.SearchMovesByChecks` | internal/congestion/bbr/bbr_sender.go:789-810 | an event moves the full-bandwidth search only by its check |
| `BbrGrowth.EventKeepsOctets` | internal/congestion/bbr/bbr_sender.go:571-576 | the filter's estimates stay multiples of 8 |
| `BbrGrowth.StartupChecksAreBounded` | internal/congestion/bbr/bbr_sender.go:789-810 | m checks without full bandwidth mean k raises by a quarter with m <= (k + 1) n and (5/4)^k <= bound / 8 |
| `BbrGrowth.StartupEnds` | internal/congestion/bbr/bbr_sender.go:789-810 | on any run with estimates between 1 and a bound at its checks, full bandwidth is reached once more than (bound / 2 + 1) * numStartupRtts rounds have started with a sample that is not app-limited |
| `BbrGrowth.RoundsGoOn` | internal/congestion/bbr/bbr_sender.go:789-810 | there are such runs with any number of such rounds |
| `BbrGrowth.PacingRateRises` | internal/congestion/bbr/bbr_sender.go:925-962 | before full bandwidth the pacing rate drops at most in the event that stops watching for overshooting |
| `BbrDivision.RunCanDivideByZero` | internal/congestion/bbr/bbr_sender.go:925-962 | a run of the whole sender, created with the conservative profile, that comes to a division by the minimum RTT zero of statistics without a sample |
| `Varint.ParseVarint` | connect-ip/client_h2.go:177-191 | the loop decodes the varint at the start of the buffer, below 2^62, or reports that it is incomplete |
| `Varint.DecodeEncode` | connect-ip/client_h2.go:177-191 | decoding an encoded number with anything behind it gives the number and its length |
| `Varint.EncodeIsShortest` | connect-ip/client_h2.go:177-191 | whatever decodes to a number is at least as long as its encoding, and equal to it if as short |
| `ParseLaws.DecodeIff` | connect-ip/client_h2.go:177-191 | a varint is read from exactly the inputs that hold the bytes their first one announces, longer forms included |
| `ParseLaws.AnyLength` | connect-ip/client_h2.go:177-191 | every number is read in each of the lengths it fits in |
| `ParseLaws.CapsuleIff` | connect-ip/client_h2.go:157-175 | a capsule is read from exactly the inputs that start with a type, a length and that many bytes, the two in any form |
| `H2Datagram.ParseCapsule` | connect-ip/client_h2.go:157-175 | the first complete capsule; the error for an overflowing length is never returned |
| `H2Datagram.CapsuleIsStable` | connect-ip/client_h2.go:157-175 | more bytes never change a capsule that is complete |
| `H2Datagram.CapsuleOfBytes` | connect-ip/client_h2.go:157-175 | an encoded capsule is read back with its type, payload and size |
| `H2Datagram.CutCapsuleIsIncomplete` | connect-ip/client_h2.go:157-175 | no proper prefix of a capsule is taken for one |
| `H2Datagram.H2DatagramStream.ReceiveDatagram` | connect-ip/client_h2.go:87-117 | however reads split the stream, the next DATAGRAM payload in order, other types skipped, the buffer the unconsumed suffix, and no read made that is not needed |
| `H2Datagram.H2DatagramStream.SendDatagram` | connect-ip/client_h2.go:119-140 | one DATAGRAM capsule for a datagram with context ID zero; every other is refused |
| `H2Datagram.DatagramsOfWire` | connect-ip/client_h2.go:87-117 | a stream of capsules yields exactly its DATAGRAM payloads, in order |
| `H2Datagram.CutStream` | connect-ip/client_h2.go:87-117 | a stream cut inside a capsule yields the datagrams before it and keeps the cut capsule |
| `WireLaws.DatagramBytes` | connect-ip/client_h2.go:87-140 | a capsule of type 0 adds its payload to the datagrams of a stream, and one of any other type adds nothing |
| `Conn.HandleIncomingProxiedPacket` | connect-ip/conn.go:309-381 | accepts exactly well-formed packets of allowed source and destination; an assigned address makes allowAny void |
| `WireLaws.AcceptsIff` | connect-ip/conn.go:309-381 | in bytes: accepted iff the header is complete, the source bits agree with a peer prefix, and the destination is assigned, routed for its protocol or for all or as ICMP, or free when nothing is assigned |
| `WireLaws.JudgedIs` | connect-ip/conn.go:282-307 | a datagram of another context ID is dropped, whatever it holds |
| `Conn.Conn.WritePacket` | connect-ip/conn.go:386-419 | over HTTP/2 a forwardable packet becomes one capsule; others are dropped without an error, an empty one with one |
| `Conn.Conn.ReadPacket` | connect-ip/conn.go:282-307 | the first datagram that is not dropped, cut to the buffer |
| `Conn.ReadsAdmitted` | connect-ip/conn.go:282-307 | over HTTP/2 that is the first admitted payload, never a malformed one |
| `Conn.PacketsArriveInOrder` | connect-ip/conn.go:386-454 | what is written at one end of a fresh connection arrives at the other, in order, with only hop count and header checksum changed |
| `CapsuleCodec.AppendAddresses` | connect-ip/capsule.go:65-85 | type, a length equal to the length of the body, and the body, for ADDRESS_ASSIGN and ADDRESS_REQUEST |
| `CapsuleCodec.AppendRoutes` | connect-ip/capsule.go:201-221 | the same for ROUTE_ADVERTISEMENT |
| `WireLaws.CapsuleTypes` | connect-ip/capsule.go:65-122 | the capsules that assign addresses, request them and advertise routes start with the byte 1, 2 and 3 |
| `WireLaws.AddressLayout` | connect-ip/capsule.go:65-85 | an entry is its request ID, 4 or 6, the address and the prefix length |
| `WireLaws.RouteLayout` | connect-ip/capsule.go:201-221 | a range is 4 or 6, its first and last address and the protocol |
| `CapsuleCodec.ParseAddress` | connect-ip/capsule.go:124-163 | one entry, the clean end of the input, or an error, as each read finds none, all or some of its bytes |
| `CapsuleCodec.ParseAddressCapsule` | connect-ip/capsule.go:50-63 | the entries up to a clean end |
| `CapsuleCodec.ParseIPAddressRange` | connect-ip/capsule.go:223-268 | one range, the clean end of the input, or an error |
| `CapsuleCodec.ParseRouteAdvertisementCapsule` | connect-ip/capsule.go:186-199 | the ranges up to a clean end |
| `CapsuleProofs.AddressRoundTrip` | connect-ip/capsule.go:50-163 | an appended body parses to the same list iff every prefix is masked, else the whole capsule is rejected |
| `CapsuleProofs.CutAddresses` | connect-ip/capsule.go:50-163 | a body cut at any byte gives an error, or exactly the whole entries before the cut, and which cuts give which |
| `CapsuleProofs.MissingLastByteIsAccepted` | connect-ip/capsule.go:148-151 | without its last byte a body is accepted without its last entry |
| `CapsuleProofs.RouteRoundTrip` | connect-ip/capsule.go:186-268 | an appended route list parses to itself iff every range is of one family and in order |
| `CapsuleProofs.CutRoutes` | connect-ip/capsule.go:186-268 | the same as for addresses when a body is cut |
| `CapsuleProofs.AppendedCapsuleIsRead` | connect-ip/capsule.go:65-122 | an appended capsule is found at the start of any stream, with its entries and the right end |
| `ParseLaws.AddressesIff` | connect-ip/capsule.go:50-163 | from any input: a list is accepted iff the input spells its entries, valid and masked, one after the other, up to a clean end |
| `ParseLaws.RoutesIff` | connect-ip/capsule.go:186-268 | the same for ranges, in order |
| `TunnelCycle.RunsKeepInv` | api/tunnel.go:393-560 | in every interleaving the channel holds the errors sent and not taken, and teardown and shutdown signal go together |
| `TunnelCycle.NoSendBlocksAfterReceive` | api/tunnel.go:423-547 | a pump's send blocks only while the supervisor can receive, and never after its receive |
| `TunnelCycle.ShutdownClosedOnce` | api/tunnel.go:393-419 | the shutdown channel is closed at most once in a cycle and exactly once in one that is over |
| `TunnelCycle.HelperHelps` | api/tunnel.go:393-547 | while the supervisor sleeps on an empty channel after a cancellation or a pump's failure, some goroutine's step is possible that brings an error closer |
| `TunnelCycle.NobodyHinders` | api/tunnel.go:393-547 | no other step takes that back |
| `TunnelCycle.NoLostWakeup` | api/tunnel.go:393-547 | in every interleaving at most six such steps pass before the channel has an error |
| `TunnelCycle.HelpPersists` | api/tunnel.go:393-547 | such a step stays possible and helpful until its own goroutine moves or the way is shorter, so a fair scheduler takes it |
| `TunnelCycle.WatcherEnds` | api/tunnel.go:403-419 | after the shutdown signal the watcher can always move, and each move brings it closer to its end |
| `TunnelCycle.InboundPumpEnds` | api/tunnel.go:503-541 | so can the inbound pump, once arrived packets are delivered |
| `TunnelCycle.OutboundPumpEnds` | api/tunnel.go:423-501 | so can the outbound pump, and only a parked device read can hold it |
| `TunnelCycle.NoEndWithoutReason` | api/tunnel.go:393-547 | over any run: without a cancellation, a device error or a fatal error of the connection the cycle goes on, whatever other errors there are |
| `TunnelCycle.PacketsAreWritten` | api/tunnel.go:423-501 | over any run: every packet read from the device is written to the connection, but for one at the end of a cancelled cycle |
| `TunnelCycle.ReportCanBeDropped` | api/tunnel.go:396-419 | a run on which both pumps have filled the channel of two, and the watcher's report is dropped |
| `TunnelReaders.OneReaderWithoutTimeout` | api/tunnel.go:562-571 | as long as no pump is left behind at a reconnect, at most one reader is in the device |
| `TunnelReaders.LeavingTakesTimeout` | api/tunnel.go:562-571 | a pump is left behind only when the grace period expired |
| `TunnelReaders.NewReaderIsNotSerialised` | api/tunnel.go:434-436 | the next cycle's reader is alone in the device iff no pump left behind is still in it |
| `TunnelReaders.TwoReadersPossible` | api/tunnel.go:396 | a run with two readers in the device at once |
| `TunnelReaders.StaleReaderLosesPacket` | api/tunnel.go:448-450 | over any run: a left-behind pump that is in the device takes at most one more packet from it, keeps it until it ends, and writes none |

## Left out

- DNSRewriter: each operation on a shard is one step, as its lock makes it; the locks themselves are not modelled.
- Checksum.FoldCarry: sums are unbounded, while the code's 32-bit sums would wrap for packets above about 128 KiB.
- SamplerState.RunsKeepInv: byte counters are unbounded; only `BandwidthFromDelta` wraps at 64 bits.
- Sampler.BandwidthSampler: the setters that no profile uses (`SetMaxAckHeightTrackerWindowLength`, `SetStartNewAggregationEpochAfterFullRound`, `SetLimitMaxAckHeightTrackerBySendRate`).
- BbrSender: `MaybeExitSlowStart` and the other empty callbacks, and debug output.
- BbrState.CheckOvershoot: where the code divides by a minimum RTT of zero and panics (`BbrDivision.EventDivides` says when), the model goes on with the target rate. Whether the statistics can be without a sample at that point is up to the QUIC library, which is not part of this model.
- BbrGrowth.StartupEnds: assumes estimates of at least 1 at the checks, as does BbrWhole.WholeStartupEnds; a path slower than one byte a second would have none.
- Pacer.IntervalBound: assumes no 64-bit overflow of budget times bandwidth.
- SampleLaws.SampleIsSmallerSlope: gives no bound for a rate whose 64-bit arithmetic wraps around, which takes more than 18 GB between two points; so does RateLaws.RateAfterEvent for the rates of a window.
- Packet.TransportSumCovers: packets of 65536 bytes and more, whose length has no 16-bit form.
- RingBuffer.Offset: the pointer it returns is modelled as a read (`At`) and a write (`Set`); panics on an empty ring are preconditions.
- BbrSender.SetMaxDatagramSize: the panic on a smaller datagram size is a precondition.
- SendDatagram: a write to the request body is complete or fails; payloads of 2^62 bytes and more are excluded.
- ReceiveDatagram: the 4096-byte read buffer, as reads may split the stream in any way; closing a stream while it is read.
- Conn.Conn.WritePacket: the ICMP answer to a packet that is too large for a QUIC datagram, which needs a library not shown here; over HTTP/2 that error does not occur.
- CapsuleCodec.ParseAddress: whether an end of input inside a varint is a clean one depends on the varint library, so it is a parameter; zoned and invalid addresses are excluded.
- Capsule dispatch: ADDRESS_ASSIGN and ADDRESS_REQUEST have the same body, so one pair of methods stands for both.
- TunnelCycle: hooks, state callbacks, traffic counters, noise injection and the address-family filter change nothing in the protocol; a write to the device or the connection is one step.
- TunnelReaders: the delay between cycles, and cancellation while reconnecting.
- Dialing over TLS, QUIC and HTTP, configuration, the Cloudflare API, the proxy servers, routing, TUN and firewall code, the Brutal sender: plumbing over libraries and system calls.
