# Verified model of tcptrack

tcptrack watches frames on a network interface and reconstructs the TCP connections behind them. This project
models its pipeline in Dafny and proves what it does for all inputs, all runs and all thread interleavings:

- `Packets.dfy` — machine words, addresses, decoded packets.
- `Gate.dfy` — link-layer stripping (`getnlp`), validation (`checknlp`) and parsing of captured bytes.
- `ConnectionSpec.dfy`, `TCPConnection.dfy` — one tracked connection as a value and as the object that is updated
  in place; every method of the class is proved to do what the value-level functions say.
- `ConnectionHistory.dfy`, `CloseTheorems.dfy` — the handshake and close fields as a function of the packets taken;
  soundness and completeness of "closed".
- `TrafficTheorems.dfy` — the byte counters, the three-second window, the reported rate and when it is wrong.
- `SocketPairs.dfy` — equality and hash of endpoint pairs; a bucket table built on them is a map over unordered pairs.
- `Guesser.dfy` — detection of connections already running.
- `TrackerSpec.dfy`, `TrackerTheorems.dfy`, `TCContainer.dfy` — the connection table as a value, its whole-run
  theorems, and the object with its packet and maintenance methods.
- `HashedTracker.dfy` — the tracker on buckets of hash table entries, with the loop over the equal keys. It refines the
  tracker of `TrackerSpec.dfy`, in which the two hash tables are maps keyed by the set of the two endpoints.
- `PacketBufferSpec.dfy`, `PacketBufferTheorems.dfy`, `PacketBuffer.dfy` — the double-buffered queue: the step
  relation of the five threads that share its locks, what every interleaving keeps, and the object with one method
  per critical section.
- `DeliveryTheorems.dfy` — what becomes of every frame, destination call, tick and redraw handed to those threads.
- `SortedIterator.dfy` — comparators, sorting and the display cursor.

The clock is a parameter everywhere: seconds for packet times, microseconds for ticks (one reading per tick for the
purge, a later one for the new entry). Bytes of multi-byte words that the program reads without byte swapping are
taken as a little-endian host reads them. The hash of an IPv6 address uses its fourth 16-bit group, as the code does,
although a comment there (src/IPv6Address.cc:50) speaks of the last four bytes.

## Properties that the code does not have

Each of these expectations turns out false. For each the exact condition is proved, and a concrete run or frame on which it fails.

- *A closed connection had a FIN from both sides, acknowledged by the other.* The expected acknowledgement numbers start
  at 0, so an ACK numbered 0 stands in for the FIN of a side that has sent none (`ZeroAckExample`). Between distinct
  addresses closed is exactly "for each side, its last FIN acknowledged or, without one, such an ACK taken"
  (`ClosedIffBothSidesDone`); `ClosedTooEarlyIff` and `ClosedWithoutFinOf` say when that falls short of two FINs, and
  without such stand-ins closed is exactly "both FINs acknowledged" (`ClosedIffBothFinsAcked`).
- *It takes both ends to close a connection.* Not between two ports of one address, where sides are told apart by address
  alone: one ACK of the last FIN is enough, whoever sent either (`LoopbackClosedIff`), even the closer itself
  (`LoopbackExample`).
- *A close by the book is noticed.* Over IPv4 this holds exactly when each side's last FIN has a prescribed acknowledgement
  that follows some FIN sent after the handshake (`Ipv4ByTheBookIff`). The packet that ends the handshake only ends the
  handshake: if it carries the first FIN too, the acknowledgement of that FIN goes unexamined (`EarlyFinExample`). Without
  a FIN before the end of the handshake every such close is noticed (`Ipv4ClosesAfterHandshake`). For IPv6 the code
  subtracts the 40-byte header from a length field that does not include it (RFC 8200 section 3), so it waits for a wrong
  acknowledgement number (`FinAckIsRfcIffIpv4`, `Ipv6NeverCloses`, `Ipv6Example`).
- *Loopback interfaces are tracked*, as ChangeLog:45-46 says of the link type NULL. Its frames start with a four-byte
  address family word that is never stripped, so none passes (`LoopbackFramesAreRefused`, `LoopbackFrameExample`); a frame
  of that type can pass exactly when its first byte already reads as an IP header (`NullFrameCanPassIff`). Over the other
  link types properly encoded segments pass (`EncodedSegmentPasses`, `EncodedIpv6SegmentPasses`).
- *A VLAN tag makes no difference.* Only for one tag: a second one hides the frame (`TagIsTransparentIff`,
  `DoubleTagIsRefused`, `DoubleTagExample`).
- *The rate is the bytes received over the time they took.* The bytes are added up in 32 bits and the quotient is stored
  in an int, so this holds exactly when the windowed intervals received less than 2^32 bytes and the rate is less than 2^31
  (`RateIsSoundIff`). Either can fail alone (`OverflowExample`, `NarrowingExample`).
- *The totals count every packet and byte.* As whole numbers they do (`TotalsCountLog`); the signed counters hold them
  exactly below 2^31 packets and 2^63 bytes (`TotalsFitIff`, `TotalsExample`).
- *Purging the window drops the entries older than three seconds and no others.* Exactly when no fresh entry stands behind a
  stale one; a clock that steps back brings that about (`ClockStepExample`). Within three seconds of the epoch the limit
  wraps around, and practically everything is dropped (`PurgeIsThreeSecondsIff`, `EarlyPurgeExample`).
- *A finished connection leaves the table in time.* A closed one does (`ClosedStaysUntilDue`). A reset one goes on taking
  packets and being kept by them, and leaves exactly after a pause longer than the timeout (`ResetStaysUntilSilent`,
  `ResetExample`).
- *A connection compares equal to itself.* Exactly when no second passes between the two clock readings of "less", if the
  compiler evaluates its left operand first, nor between those of "greater", if its right operand first
  (`SelfComparisonIff`, `SelfComparisonExample`).

Pausing the display also stops the purging of connections; this is the `purge` flag of a tick here.

## Model

| member | source | states |
|---|---|---|
| ConnectionHistory.HistoryDeterminesClose | src/TCPConnection.cc:230-307 | for every run of packets and ticks, state, expected ACK numbers and confirmation flags are exactly those an independent reading of the accepted-packet log gives: last FIN of each side, an ACK with its number after it during the close, handshake phases, RST |
| ConnectionHistory.FollowMatchesHistory | src/TCPConnection.cc:247-299 | one accepted packet moves the close fields exactly as appending it moves the log |
| ConnectionHistory.ConfirmedStep | src/TCPConnection.cc:249-267 | a FIN withdraws an earlier confirmation; a later matching ACK during the close gives it back |
| ConnectionHistory.PhasesNest | src/TCPConnection.cc:269-283 | closing implies established implies SYN and ACK seen, for every log |
| CloseTheorems.StateStep | src/TCPConnection.cc:269-299 | each event keeps the state number, raises it by one, or resets; CLOSED and RESET are final |
| CloseTheorems.StatesGoForward | src/TCPConnection.cc:235-299 | over whole runs the state number never decreases and CLOSED and RESET never end |
| CloseTheorems.ClosedIsFrozen | src/TCPConnection.cc:235-236 | once closed, no run of packets, ticks and redraws changes anything but the averaging window and the rate shown |
| CloseTheorems.OpenTakesAll | src/TCPConnection.cc:235-239 | a connection not closed in the end has taken every packet of its pair |
| CloseTheorems.UpMeansEstablished | src/TCPConnection.cc:269-278 | outside RESET, up or beyond means that a SYN with ACK and later an ACK were taken (or the connection was picked up running) |
| CloseTheorems.SynWaitsForAnswer | src/TCPConnection.cc:103-106 | a connection opened by a SYN is in SYN_SYNACK exactly while no SYN with ACK and no RST was taken, in SYNACK_ACK exactly until the next ACK, and up or beyond only after the whole handshake |
| CloseTheorems.OthersAreUpAtOnce | src/TCPConnection.cc:103-106 | a connection opened by any other packet is never in the handshake, and up exactly until a FIN or RST is taken |
| CloseTheorems.LastPacketIsLastTaken | src/TCPConnection.cc:301 | after every run the time of the last packet is that of the last packet taken, in whatever state, or of the start if none was |
| CloseTheorems.LastPacketIsLastOffered | src/TCPConnection.cc:235-301 | until the connection closes that is the last packet of its pair, the opening one included |
| CloseTheorems.CloseIsComplete | src/TCPConnection.cc:247-297 | without RST, once each side's last FIN is acknowledged during the close, the connection is closed, whatever else arrives in whatever order |
| CloseTheorems.ClosedIffBothSidesDone | src/TCPConnection.cc:247-299 | between distinct addresses closed holds exactly when no RST was taken and, for each side, its last FIN was acknowledged during the close or it sent none and an ACK numbered 0 was taken from the other during the close |
| CloseTheorems.ClosedIffBothFinsAcked | src/TCPConnection.cc:249-297 | where no zero ACK stands in for a FIN never sent (zero ACKs of a FIN that expects 0 included), closed is exactly: no RST, both last FINs acknowledged |
| CloseTheorems.ClosedTooEarlyIff | src/TCPConnection.cc:118-119 | a connection counts as closed without both FINs acknowledged exactly when both sides are done and one of them sent no FIN |
| CloseTheorems.ClosedWithoutFinOf | src/TCPConnection.cc:118-119 | exactly when a connection counts as closed although the given side, client or server, sent no FIN |
| CloseTheorems.ClosedWithoutServerFin | src/TCPConnection.cc:118-119 | the case of the server, told by the confirmation flag of the client's FIN |
| CloseTheorems.ZeroAckExample | src/TCPConnection.cc:288-295 | between any two IPv4 hosts, a three-packet run that closes without a FIN from the server |
| CloseTheorems.LoopbackClosedIff | src/TCPConnection.cc:247-297 | with equal addresses closed holds exactly when no RST was taken and some ACK, of either end, confirms the last FIN, of either end, during the close |
| CloseTheorems.LoopbackClosesOnOneFin | src/TCPConnection.cc:251-266 | with equal addresses one acknowledged FIN among the packets offered closes the connection, whatever else is offered |
| CloseTheorems.LoopbackExample | src/TCPConnection.cc:288-293 | between any two ports of one IPv4 address, a run that closes on two packets of the client alone |
| CloseTheorems.FinAckIsRfcIffIpv4 | src/TCPPacket.cc:78-81 | the acknowledgement number expected for a FIN is the one RFC 793 prescribes exactly for IPv4 packets |
| CloseTheorems.Ipv4ByTheBookIff | src/TCPConnection.cc:247-297 | whatever packets of a pair of distinct IPv4 addresses are offered, without RST and with each side's last FIN acknowledged by the other as RFC 793 prescribes: closed holds exactly when each of these FINs has such an acknowledgement behind some FIN that came after the handshake |
| CloseTheorems.Ipv4ClosesAfterHandshake | src/TCPConnection.cc:269-297 | any IPv4 close by the book is noticed if every FIN comes after the handshake or the connection was picked up running, one address or two |
| CloseTheorems.EarlyFinExample | src/TCPConnection.cc:269-283 | between any two IPv4 hosts, a close by the book whose first FIN also ends the handshake and which stays half closed |
| CloseTheorems.Ipv4ClosesByTheBook | src/TCPConnection.cc:247-297 | over IPv4, prescribed acknowledgements of both last FINs that come during the close, as the tracker sees it, close the connection, one address or two |
| CloseTheorems.Ipv6NeverCloses | src/TCPPacket.cc:32-33 | an IPv6 connection whose client's FIN is acknowledged only by the book is never closed |
| CloseTheorems.Ipv6Example | src/TCPConnection.cc:233 | between any two IPv6 hosts, a run closed by the book on both sides that stays half closed |
| TrafficTheorems.TailEraseIsFilterIff | src/TCPConnection.cc:145-153 | erasing from the first stale entry equals filtering exactly when no fresh entry stands behind a stale one |
| TrafficTheorems.PurgeIsThreeSecondsIff | src/TCPConnection.cc:135-153 | for every window and every clock reading, exactly when the purge leaves the entries of the last three seconds: past the first three seconds of the epoch when no such entry stands behind an older one, within them when every stamp lies above the wrapped limit |
| TrafficTheorems.EarlyPurgeExample | src/TCPConnection.cc:140-150 | two seconds past the epoch a purge erases an entry a tenth of a second old |
| TrafficTheorems.ClockStepExample | src/TCPConnection.cc:145-153 | for any connection, three ticks on a clock that steps back, after which an entry less than three seconds old is gone |
| TrafficTheorems.WindowIsHistory | src/TCPConnection.cc:135-171 | under a forward clock the window is the history of all ticks restricted to three seconds before the last purge |
| TrafficTheorems.WindowIsPrefixOfHistory | src/TCPConnection.cc:145-168 | under any clock the window is a newest part of the tick history |
| TrafficTheorems.WindowIsBounded | src/TCPConnection.cc:140-168 | with ticks at least r microseconds apart the window's length stays below 3000000 / r + 1 (plus the time between the two readings) |
| TrafficTheorems.TotalsCountLog | src/TCPConnection.cc:222-245 | total bytes and packets are the opening values plus those of all accepted packets, for every interleaving with ticks |
| TrafficTheorems.CountsFromTheFirst | src/TCPConnection.cc:101-116 | for every run since the opening packet: totals count that packet and all accepted ones, the true interval counts sum to the total, and the rate is 0 before the first redraw |
| TrafficTheorems.TotalsFitIff | src/TCPConnection.cc:222-241 | the int and the long hold the totals after a run exactly when the accepted log leaves both below their limits |
| TrafficTheorems.TotalsExample | src/TCPConnection.cc:241 | a run of 2^31 packets of one connection, more than the counter holds |
| TrafficTheorems.IntervalsWrap | src/TCPConnection.cc:165-170 | each stored size is its interval's true byte count modulo 2^32 and the true counts sum to the total |
| TrafficTheorems.BytesAreConserved | src/TCPConnection.cc:145-170 | total equals purged plus windowed plus running-interval bytes exactly when no interval reached 2^32 bytes |
| TrafficTheorems.QuotientIsSoundIff | src/TCPConnection.cc:176-192 | on every reachable window, the empty one included, and every reachable refresh interval, the span does not underflow and the quotient is floor(true bytes of the windowed intervals * 10^6 / (span + refresh interval)) exactly when those bytes number less than 2^32, and never more |
| TrafficTheorems.FirstStampIsFirstNonZero | src/TCPConnection.cc:181-187 | the end of the span is the first stamp of the window that is not 0, wherever it stands |
| TrafficTheorems.RateIsSoundIff | src/TCPConnection.cc:174-198 | after a redraw in any reachable state the int that stores the rate holds that true rate exactly when the bytes number less than 2^32 and the rate is less than 2^31, whatever a conversion out of range leaves |
| TrafficTheorems.OverflowExample | src/TCPConnection.cc:176-183 | 65538 packets of 65535 bytes between two ticks: the rate shown is wrong for every refresh interval |
| TrafficTheorems.NarrowingExample | src/TCPConnection.cc:192 | 1025 packets of 65535 bytes between two ticks and five + keys: the sum and the quotient are right, the rate stored is wrong |
| TrafficTheorems.RefreshAfter | src/TextUI.cc:171-182 | no sequence of + and - keys takes the refresh interval out of [31250, 32000000] |
| TrafficTheorems.RefreshIsALevel | src/TextUI.cc:171-182 | after any keys the interval is 31250 * 2^level, where the level starts at 5 and each key moves it by one between 0 and 10 |
| TcpConnections.TCPConnection.constructor | src/TCPConnection.cc:95-133 | a new connection is the specified opening state of its packet |
| TcpConnections.TCPConnection.AcceptPacket | src/TCPConnection.cc:230-307 | takes a packet exactly when open and of the same pair; the new state is the specified one, a refused packet changes nothing |
| TcpConnections.TCPConnection.PurgeAvgStack | src/TCPConnection.cc:135-154 | leaves the entries in front of the first stale one |
| TcpConnections.TCPConnection.UpdateCounters | src/TCPConnection.cc:158-171 | performs one specified tick and nothing else |
| TcpConnections.TCPConnection.RecalcAvg | src/TCPConnection.cc:174-198 | the accumulator loop computes the specified quotient and stores it as an int; nothing but the rate changes |
| Packets.MatchIsSamePair | src/TCPConnection.cc:205-215 | comparing four fields directly or reversed is equality of unordered endpoint pairs |
| SocketPairs.EqualsIffSameEnds | src/SocketPair.cc:32-46 | pair equality coincides with equality of the unordered endpoint sets, IPv4 and IPv6 mixed |
| SocketPairs.EqualsIsEquivalence | src/SocketPair.cc:32-51 | pair equality is reflexive, symmetric and transitive |
| SocketPairs.EqualPairsHashAlike | src/SocketPair.cc:53-64 | equal pairs have equal hashes and the 32-bit sum never wraps |
| SocketPairs.AddressHashIff | src/IPv4Address.cc:37-40 | different IPv4 addresses give different words; for IPv6 only the fourth 16-bit group counts |
| SocketPairs.InsertRefinesMap | src/TCContainer.h:80 | inserting into the bucket table refines inserting an absent key into a map over unordered pairs |
| SocketPairs.EraseRefinesMap | src/Guesser.cc:35 | erasing from the bucket table refines removing the unordered pair |
| GuesserSpec.MemoryIsHistory | src/Guesser.cc:21-99 | the stray kept for a pair is its last relevant packet exactly when plain and not spent on a detection, for every packet history |
| GuesserSpec.DetectionIffHistory | src/Guesser.cc:40-89 | a connection is detected exactly when the packet completes a detection in the history; it is up, of the pair, with the lower port as server |
| GuesserSpec.HalfCheckSuffices | src/Guesser.cc:59-60 | for packets of one pair, comparing one address and one port settles that the directions are opposite |
| GuesserSpec.TwoStraysDetectIff | src/Guesser.cc:21-89 | two packets of a pair in a row make a connection exactly when neither has SYN, FIN, RST or ECE, they run in opposite directions and lie less than 60 seconds apart; the end with the higher port is the client |
| GuesserSpec.InterruptedDetection | src/Guesser.cc:21-38 | a FIN or RST between two such packets prevents the detection, a SYN or ECE packet does not |
| Guessers.Guesser.AddPacket | src/Guesser.cc:21-99 | remembers and detects as specified; no NULL entry survives a call |
| TrackerTheorems.LookupRefinesBroadcast | src/TCContainer.cc:111-153 | looking a packet up under its unordered pair gives the same table and verdict as offering it to every connection; the buckets are joined to this by HashedTracker.BucketsRefineBroadcast |
| HashedTracker.OfferRefines | src/TCContainer.cc:122-131 | offering a packet to every equal entry of one bucket takes it exactly when the pair's connection does, keeps the keys of the table distinct, and is the update of the map at that pair |
| HashedTracker.GuessRefines | src/Guesser.cc:21-99 | the guesser on buckets, which stores a stray under the key of the one it replaces, remembers and detects as on a map of unordered pairs |
| HashedTracker.ProcessRefines | src/TCContainer.cc:111-153 | one packet through the buckets gives the verdict and the table of the map over unordered pairs |
| HashedTracker.HashedStepRefines | src/TCContainer.cc:111-204 | packet, purge and redraw on buckets keep: keys distinct, each entry in the bucket of its hash, the maps represented |
| HashedTracker.HashedAll | src/TCContainer.h:80 | for any number of buckets, every run from empty tables represents the tracker on maps |
| HashedTracker.BucketsRefineBroadcast | src/TCContainer.cc:122-148 | after every run the loop over the equal keys gives the verdict and table of offering the packet to every connection |
| HashedTracker.OneEntryPerPair | src/TCContainer.cc:134-148 | after every run no two entries anywhere in the buckets share an unordered pair, and each is the listed connection of its pair |
| TrackerTheorems.AlwaysConsistent | src/TCContainer.cc:118-148 | every run keeps each connection under its own pair and each stray under its own |
| TrackerTheorems.PairsAreIndependent | src/TCContainer.cc:111-204 | what is known of a pair after any run equals what a run on that pair's packets, the ticks and the redraws alone gives |
| TrackerTheorems.EntriesAreRuns | src/TCContainer.cc:118-148 | every listed connection was opened, at an event that delivered a packet of its pair and at that event's time, by that packet if it is an opening SYN and otherwise by a packet without SYN, delivered no later, from the end with the higher port; it faces as that packet does and is the single-connection run of all events since |
| TrackerTheorems.StraysWereDelivered | src/Guesser.cc:40-99 | every remembered stray is the capture of some delivery of the run |
| TrackerTheorems.ListedCloseIsHistory | src/TCContainer.cc:124-131 | the close fields of every listed connection are those its accepted packets call for since the delivered packet that opened it |
| TrackerTheorems.ListedHandshake | src/TCContainer.cc:134-148 | a listed connection is shown in the handshake exactly as the packets taken since its opening SYN call for; one that was detected never is |
| TrackerTheorems.ListedLastPacket | src/TCContainer.cc:122-148 | after every run the last packet of a listed connection is the last of its pair that opened it or found it not closed, with the time of that delivery |
| TrackerTheorems.StraysAreHistory | src/TCContainer.cc:143-148 | the guesser's memory is the one for exactly the packets no connection took or opened |
| TrackerTheorems.EntryAppearsIff | src/TCContainer.cc:134-148 | an absent pair gets an entry exactly on a SYN without ACK, or on a packet completing a detection |
| TrackerTheorems.PacketVerdict | src/TCContainer.cc:111-153 | the verdict is "found" exactly when a connection takes the packet or it is an opening SYN, detections notwithstanding; no packet removes or touches another entry |
| TrackerTheorems.TickDropsExactlyExpired | src/TCContainer.cc:178-204 | a tick refreshes every entry and drops exactly the expired ones, only when purging; up and SYN-answered connections stay |
| TrackerTheorems.TickTimeouts | src/TCContainer.cc:184-196 | a purging tick drops an entry exactly when it has been idle more than 30 seconds in SYN_SYNACK, 60 in FIN_FINACK, or the configured time in CLOSED or RESET |
| TrackerTheorems.NextTickTimeouts | src/TCContainer.cc:184-196 | after every run the next purging tick drops a listed connection exactly when that much time has passed since the last packet of its pair that it took |
| TrackerTheorems.WaitsUntilSilent | src/TCContainer.cc:187-188 | an unanswered SYN stays listed until the first purging tick more than 30 seconds after the last packet of its pair, a half-closed connection nobody concludes 60 |
| TrackerTheorems.ClosedStaysUntilDue | src/TCContainer.cc:184-196 | no packets, new SYNs included, change a closed entry or its lifetime; the first purging tick past the timeout removes it |
| TrackerTheorems.ResetStaysUntilSilent | src/TCPConnection.cc:235-301 | a reset entry takes every packet of its pair, new SYNs included, and stays listed and reset as long as no purging tick comes more than the timeout after the last of them; such a tick removes it |
| TrackerTheorems.ResetExample | src/TCContainer.cc:184-196 | from the empty table and for any timeout: SYN, RST, a later packet, a new SYN past the timeout, a purging tick that leaves the reset entry listed |
| Containers.TCContainer.ProcessPacket | src/TCContainer.cc:111-153 | new table, strays and verdict are the specified ones |
| Containers.TCContainer.Maintain | src/TCContainer.cc:178-204 | the erase-while-iterating loop ends, refreshes each entry once, leaves the specified table, collects each dropped connection exactly once |
| Containers.TCContainer.RecalcShown | src/TextUI.cc:345-351 | recalculates the rate of each connection shown, once, and changes nothing else |
| Gate.NetworkBytes | src/util.cc:41-106 | what is handed on is a tail of the frame with at least 16 bytes |
| Gate.GetNlp | src/util.cc:41-106 | the fresh buffer holds exactly the network-layer bytes, null exactly when there are none |
| Gate.GateDischargesAssertions | src/util.cc:108-182 | for all four link types and any bytes, what passes the gate parses without out-of-bounds read or failed assertion, and ports, header lengths and IPv4 payload length meet the later assertions |
| Gate.GateIsExact | src/util.cc:116-182 | the gate accepts exactly what the parser handles with non-zero ports, a whole TCP header captured, and room for it in the IPv4 length |
| Gate.OnlyTcpPasses | src/util.cc:116-182 | what passes is IP version 4 or 6 with protocol number 6 |
| Gate.FramesLookedInto | src/util.cc:50-103 | exactly which frames are handed on, by number: lengths for each link type, ether types 0x0800, 0x86dd and, once, 0x8100 |
| Gate.ParserFailures | src/TCPPacket.cc:10-45 | on a buffer with both headers captured the parser reports another protocol or fails an assertion exactly under the conditions named, and never reads past the end |
| Gate.TagIsTransparentIff | src/util.cc:50-73 | inserting one 802.1Q tag leaves verdict and bytes unchanged exactly when the frame does not already pass with a tag |
| Gate.DoubleTagIsRefused | src/util.cc:60-78 | a doubly tagged frame never passes |
| Gate.DoubleTagExample | src/util.cc:60-78 | one Ethernet frame that passes untagged and with one tag and is refused with two |
| Gate.TcpRoundTrip | src/TCPHeader.cc:7-20 | the parser recovers ports, seq, ack, flags and header length from any encoded TCP header |
| Gate.Ipv4RoundTrip | src/TCPPacket.cc:14-44 | parsing any encoded IPv4 packet returns it |
| Gate.Ipv6RoundTrip | src/TCPPacket.cc:28-44 | parsing any encoded IPv6 packet returns it |
| Gate.EncodedSegmentPasses | src/util.cc:80-103 | over every link type but NULL a properly encoded IPv4 segment passes with its bytes unchanged and parses to the original |
| Gate.EncodedIpv6SegmentPasses | src/util.cc:80-103 | the same for IPv6 |
| Gate.LoopbackFramesAreRefused | src/util.cc:92-103 | a frame of type NULL made of an address family word, in either byte order, and any bytes is never admitted |
| Gate.NullFrameCanPassIff | src/util.cc:92-103 | a frame of type NULL with a given first byte can be admitted exactly when that byte is version 6, or version 4 with at least five header words |
| Gate.LoopbackFrameExample | src/util.cc:92-103 | one packet that is admitted from a raw link and refused behind its loopback word |
| PacketBufferTheorems.AlwaysInv | src/PacketBuffer.cc:90-169 | in every interleaving: mutual exclusion, no loss or reordering, no lost wakeup, no failed parser assertion, deliveries only to a set destination, the table a sequential outcome |
| PacketBufferTheorems.QueueIsFifo | src/PacketBuffer.cc:115-168 | admitted packets are pushed or dropped in turn, pushed ones are handled in turn or on outq then inq; outq is empty at every swap; the queues never alias; the tracker was shown the packets let through, parsed, in order and with their capture times |
| PacketBufferTheorems.NoDeadlock | src/PacketBuffer.cc:121-163 | in every reachable state some thread can go on by itself unless all are at rest with empty queues |
| PacketBufferTheorems.LocksAreTakenInOrder | src/Sniffer.cc:166-196 | no step of any thread takes a lock while holding a later one of the order sniffer, destination, queue or table |
| PacketBufferTheorems.InternalProgress | src/PacketBuffer.cc:115-168 | each step a thread takes by itself lowers a rank |
| PacketBufferTheorems.LeftAloneItDrains | src/PacketBuffer.cc:90-169 | without outside events every run ends within the rank, and then all admitted packets are accounted for and all queued ones handled in order |
| PacketBufferTheorems.WakeupStep | src/PacketBuffer.cc:104-125 | every step keeps: a consumer asleep on a non-empty queue is signalled or about to be |
| PacketBufferTheorems.DiscardedOnlyWithoutDest | src/PacketBuffer.cc:95-100 | a packet is dropped at push or discarded at delivery exactly when that step finds no destination |
| PacketBufferTheorems.NothingDiscardedWhileSet | src/PacketBuffer.cc:153-163 | while nobody clears the destination every pushed packet is queued and every handled one delivered |
| DeliveryTheorems.EveryFrameIsDelivered | src/Sniffer.cc:164-197 | while both destinations stay set, in every interleaving: the packets handled since are those that were on the way followed by those of every arriving frame that passes the gate, in order, short of what is still on the way; all were delivered, and the tracker was shown exactly these with their capture times |
| DeliveryTheorems.AtRestAllIsDelivered | src/PacketBuffer.cc:90-169 | and once the threads are at rest nothing is left on the way |
| DeliveryTheorems.AllArrivalsAdmitted | src/Sniffer.cc:166-194 | while the sniffer's destination stays set every arriving frame that passes is admitted, in order of arrival |
| DeliveryTheorems.NothingAdmittedWhileUnset | src/Sniffer.cc:168-172 | while it stays unset nothing is admitted |
| DeliveryTheorems.AdmittedStep | src/Sniffer.cc:164-197 | every step accounts for the frame under way: admitted if the destination is set when it is looked at, dropped otherwise |
| DeliveryTheorems.CallsTakeEffect | src/PacketBuffer.cc:71-76 | in every interleaving each destination is, once the caller is done, what the last call for it made it |
| DeliveryTheorems.EveryTickIsRun | src/TCContainer.cc:161-206 | in every interleaving the ticks carried out are those that fell due, once each and in order, but for one under way; the same of redraws |
| DeliveryTheorems.SpuriousWakeupSwaps | src/PacketBuffer.cc:123-139 | a wakeup nobody signalled swaps the empty queues and loses nothing |
| PacketBufferTheorems.LocksStep | src/Sniffer.cc:166-196 | every step of the five threads keeps each lock held by exactly the thread whose position says so |
| PacketBufferTheorems.EveryInterleavingTracksRuns | src/PacketBuffer.cc:157-161 | end to end: in every interleaving each listed connection was opened by a packet the log delivered and is the single-connection run of the logged events since, and every packet seen meets the header and hash assertions |
| PacketBufferTheorems.EveryInterleavingSuitsBuckets | src/PacketBuffer.cc:157-161 | in every interleaving the hash tables run on the logged events meet the assertions of the hash and represent the shared table |
| PacketBuffers.PacketBuffer.PushPacket | src/PacketBuffer.cc:90-109 | appends to the input queue, or drops without a destination |
| PacketBuffers.PacketBuffer.SwapQueues | src/PacketBuffer.cc:130-139 | exchanges the two queues |
| PacketBuffers.PacketBuffer.DrainOutq | src/PacketBuffer.cc:145-168 | the drain loop empties the output queue first come first served, delivers each packet that finds a destination at its own time, discards the others, and leaves the input queue and the destination alone |
| PacketBuffers.DeliveriesAreThrough | src/PacketBuffer.cc:145-168 | what a drain delivers are the buffers whose turn finds a destination, parsed, in order, with their capture times and the time of their turn |
| SortedIterators.SelfComparisonIff | src/SortedIterator.cc:86-170 | for every order in which the operands of "less" and "greater" are evaluated, a connection compares equal to itself exactly when no second passes between readings where the left operand of "less" or the right one of "greater" comes first |
| SortedIterators.SelfComparisonExample | src/SortedIterator.cc:138-170 | in three of the four orders of evaluation, clock readings with which any connection comes before or after itself |
| SortedIterators.ComparatorsAreTotalPreorders | src/SortedIterator.cc:86-170 | with one clock value the four comparators are sign-antisymmetric and transitive, idle and active are reverses |
| SortedIterators.OrderedMeans | src/SortedIterator.cc:86-170 | a list is ordered exactly when, pair by pair, the faster, the larger, the longer idle or the more recently active connection comes first, equal rates and totals by recent activity |
| SortedIterators.SortIsUniqueUpToTies | src/SortedIterator.cc:48-60 | any two ordered permutations of one snapshot agree position by position up to ties |
| SortedIterators.IdleIsActiveBackwards | src/SortedIterator.cc:138-170 | a list is ordered by activity exactly when its reverse is ordered by idle time |
| SortedIterators.SortedIterator.constructor | src/SortedIterator.cc:30-44 | the snapshot holds every connection of the table once |
| SortedIterators.SortedIterator.Sort | src/SortedIterator.cc:48-60 | the snapshot becomes a permutation of itself in which the faster, larger, longer idle or more recently active connection comes first |
| SortedIterators.SortedIterator.VisitAll | src/TextUI.cc:343-351 | rewinding and taking connections until none is left visits each exactly once, in order |

## Left out

- Display, keyboard handling and formatting, except the refresh interval keys: user interface.
- Capture set-up, thread creation and cancellation, signals, option parsing: calls into libraries.
- Name lookup and address printing: no effect on tracking.
- Freeing of memory: several objects are dropped without being freed (the packet pushed without a destination, the stray erased by a FIN, the connection whose insertion finds its key taken), so no ledger of memory is claimed.
- The timed lock of the container is taken as a plain lock; a lock that cannot be had within two seconds is an error exit there.
- Teardown of the container and the guesser, and starting and stopping of the maintenance thread.
- The byte order of a big-endian host, which changes only the values of address hashes.
- TcpConnections.TCPConnection.AcceptPacket: packet and byte totals are unbounded numbers; what is left of the signed counters once a total no longer fits (TotalsFitIff) is undefined in the original. The activity light of the display is not kept.
- TcpConnections.TCPConnection.RecalcAvg: the quotient is exact and rounded down, the rounding of doubles is not modelled; the undefined result of a conversion out of range is a parameter of the redraw, the same for all connections it shows.
- TrafficTheorems.WindowIsHistory: assumes that the clock starts at least three seconds past the epoch; PurgeIsThreeSecondsIff covers the earlier readings.
- TrafficTheorems.RateIsSoundIff: assumes a clock that does not step back and two readings within one tick less than 120 years apart; beyond that the 64-bit span itself could hide an overflow of the sum.
- Containers.TCContainer.Maintain: one reading of the seconds clock serves a whole tick.
- SortedIterators.SortedIterator.Sort: an insertion sort stands in for the library's qsort; the iterator holds values, so later changes of the connections during a pause are not seen through it.
- PacketBufferTheorems.AlwaysInv: threads are modelled as a step relation on values, since their critical sections interleave; failures of the lock operations themselves are not modelled.
- PacketBuffers.PacketBuffer.DrainOutq: the destination and the clock each packet finds are parameters; other threads between two packets of a drain, and waiting on the condition variable, are part of the step relation only.
- Containers.TCContainer.ProcessPacket: the table of the object is a map over unordered pairs; the buckets are modelled on values, and they answer as that map does. Growing of the bucket array is not modelled.
- The display's very first snapshot, which the original takes before it holds the container's lock.
- Frames of link types that the sniffer refuses to open.
