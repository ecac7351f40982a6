# Verified model of the Confundo transfer and the simple router

The project models two programs in Dafny and proves what their users rely on.

**Confundo** (`CS118-Project2`) is a go-back-N file transfer over UDP. The client keeps a log of
outstanding packets with an unusual discipline: a timeout erases only the front entry and sends that
chunk again at once, so the log is a rotating cycle and not a sorted window; an acknowledgement erases
everything up to the first entry that expects it. Sequence numbers are file offsets modulo 102401.

- `ConfundoWire` — sequence numbers, chunk boundaries and when two boundaries collide
- `ConfundoClient` — the client's loop body, as a class and as functions on its state
- `ConfundoServer` — the server's ten slots, as a class over an array and as functions on a slot
- `ConfundoTransfer` — client, server and a network that loses, duplicates and reorders; the invariant
- `ConfundoRuns` — theorems over all runs, and runs that break the promise
- `ConfundoRecovery` — runs in which things are lost and the transfer gets on all the same
- `ConfundoWindow` — the congestion window over all runs

The promise is `Sound`: the server's file is a prefix of the client's, every byte the server lacks and
the client has moved past is outstanding, and after the client's loop the file is complete. There are
two main results about it.

`NearRunsAreSound` holds for a file of **any** length, with other clients connecting meanwhile: the
promise is kept in every state of every run in which nothing old is acted on. A packet that the server
writes must come from less than 102401 bytes away from where the server is, and a number that the
client finds in its log must have been sent less than 102401 bytes away from the end of the entry
found; an echoed SYN that the client finds in its log counts as old. The network model records the offsets next to packets and headers for this purpose; no step
looks at them. `UndisturbedEnds` shows that every file has such a run to its end.

`SoundExactlyForSafeLengths` says when that hypothesis is not needed: **all** runs keep the promise
exactly when the file's length is safe, however late anything arrives. If no echo of a SYN can reach the
client, safe means `len < 102401 * r`, where `r` is the size of the last chunk (1 to 512). A file of
102401 bytes is the shortest unsafe one: a late copy of its first chunk is written after its end. An
echo is a SYN that the server sends back to opened slots without converting the header; the client reads
it as an acknowledgement of number 0. If SYNs arrive during the transfer, or an echo is left over from a
SYN that a handshake repeated, no chunk boundary may have number 0 either (`len < 5926912` and
`len mod 102401 != 90055`), and 90055 bytes is the shortest unsafe length.

A transfer begins in any state a handshake can leave, with replies to SYNs still on their way.
`HandshakeLeadsHere` says when a history of the server leads to one: exactly if no FIN with id 0 arrived
while the client's slot was the first free one. A slot so struck never stores a byte
(`EarlyFinLosesConnection`).

Losses are repaired: for every file and every pattern of losses, chunk by chunk and however often, of the
chunk or of its acknowledgement, there is a run with exactly these losses, one timeout each, that ends
with the whole file at the server (`EveryLossRepaired`). A single acknowledgement can do for a whole
window (`OnlyLastAckNeeded`).

**The router** (`CS118-Project3`) forwards IPv4 frames and resolves link addresses.

- `Checksum` — the Internet checksum against the ones' complement sum of section 1 of RFC 1071
- `RoutingTable` — lookup by masks compared in the wrong byte order, against longest-prefix match
  (section 5.2.4.3 of RFC 1812)
- `ArpCache` — the cache and request queue, as a class over two lists
- `ArpRuns` — all interleavings of the packet handler with the ticker and with clearing
- `ArpDrain` — the request queue left to itself
- `Router` — forwarding, ICMP errors, ARP replies
- `RouterRuns` — the packet handlers as runs of the ARP cache, over whole sessions

Three findings of the same kind: `cksum` judges all buffers of a length correctly exactly up to 131074
bytes (`RightExactlyUpTo`); the time to live of a packet in transit falls exactly if its
destination was resolved when it came and it was not 0 (`TimeToLiveRule`): with 0 it is passed on with
255 (`ZeroBecomes255`), and a packet that waited leaves with its own; after a client's timeout
the bytes in flight fit in the window exactly if they were at most 512 before (`TimeoutKeepsBytes`),
and a run leads to more (`Overcommitted`).

Imperative parts are classes whose methods are proved equal to functions on the old state; what the
functions promise is proved as lemmas and preserved invariants. `Bytes` holds octets and fixed-width
arithmetic. Both programs are modelled on a little-endian host.

## Model

| member | source | states |
|---|---|---|
| `ConfundoWire.SeqOfInjective` | CS118-Project2/client.cpp:234-238 | chunk boundaries of a file are told apart by their numbers modulo 102401 exactly when the length is below 102401 times the size of the last chunk |
| `ConfundoWire.ZeroFreeExact` | CS118-Project2/client.cpp:234-238 | exactly which file lengths have no chunk boundary numbered 0 |
| `ConfundoClient.HandshakeCwnd` | CS118-Project2/client.cpp:362-363 | after any number of accepted packets the window is whole chunks between 512 and 10240 bytes, at least 1024 once one was accepted |
| `ConfundoClient.HandshakeWindow` | CS118-Project2/client.cpp:362-363 | the window after n accepted packets in closed form: 512 (n + 1), at most 10240 |
| `ConfundoClient.TimeoutExactly` | CS118-Project2/client.cpp:194-213 | the front entry is taken out exactly if it was sent more than 500 whole milliseconds ago; it joins the log at the back and the threshold is half the old window; before that nothing is taken out |
| `ConfundoClient.PassSends` | CS118-Project2/client.cpp:194-262 | what a pass sends, from where, and what it logs: one packet after a timeout or with room and file left, otherwise none |
| `ConfundoClient.AckStrikesThrough` | CS118-Project2/client.cpp:275-294 | an acknowledgement erases everything up to the first entry that expects it, wherever that is, and makes room |
| `ConfundoClient.AckUnexpected` | CS118-Project2/client.cpp:275-297 | a number no entry expects changes nothing |
| `ConfundoClient.LastAckEnds` | CS118-Project2/client.cpp:275-334 | at end of file the acknowledgement of the last byte alone ends the loop, however many entries are logged |
| `ConfundoClient.Client.constructor` | CS118-Project2/client.cpp:158-187 | a client starts the transfer in the state the handshake leaves |
| `ConfundoClient.Client.RollBackIfExpired` | CS118-Project2/client.cpp:194-213 | the timeout branch: nothing below 501 ms, else roll back to the front entry, erase it alone, halve the threshold, window of one packet |
| `ConfundoClient.Client.TimeoutAndSend` | CS118-Project2/client.cpp:191-262 | the first half of the loop body: its packets and its whole new state |
| `ConfundoClient.Client.GrowWindow` | CS118-Project2/client.cpp:281-292 | slow start or congestion avoidance, and one or two packets of room |
| `ConfundoClient.Client.ReceiveAck` | CS118-Project2/client.cpp:274-297 | the search finds the first entry expecting the number and erases up to it; an unexpected number changes nothing |
| `ConfundoClient.Client.Listen` | CS118-Project2/client.cpp:265-334 | the second half of the loop body and the exit test |
| `ConfundoServer.Server.constructor` | CS118-Project2/server.cpp:79 | the server starts with ten zeroed slots, which are in order |
| `ConfundoServer.Server.OpenSlot` | CS118-Project2/server.cpp:266-326 | a SYN echoes to opened slots up to the first free one, which it opens |
| `ConfundoServer.Server.Receive` | CS118-Project2/server.cpp:234-478 | all slots and all replies after any received packet, and slots opened in order stay so |
| `ConfundoServer.Server.ReceiveData` | CS118-Project2/server.cpp:337-401 | in-order data is appended and acknowledged, other data only re-acknowledged, after FIN the file is closed |
| `ConfundoServer.Server.ReceiveFin` | CS118-Project2/server.cpp:409-475 | a FIN is answered with an acknowledgement and a FIN and freezes the slot |
| `ConfundoServer.SynScanEffect` | CS118-Project2/server.cpp:269-325 | a SYN leaves opened slots alone, keeps slots opened in order, and reaches every opened slot with an echo |
| `ConfundoServer.StepKeepsSlots` | CS118-Project2/server.cpp:234-478 | no packet disturbs the order in which slots are opened and numbered |
| `ConfundoServer.StepIsolated` | CS118-Project2/server.cpp:335-476 | one packet changes an opened slot only if it carries that slot's id |
| `ConfundoServer.ConnectionsIsolated` | CS118-Project2/server.cpp:234-478 | for any interleaving with other connections and SYNs an opened slot is a fold over its own packets |
| `ConfundoServer.IsolatedFromTheStart` | CS118-Project2/server.cpp:79-478 | over the whole life of a server, from the moment a connection is open its slot is a fold over its own packets |
| `ConfundoServer.SynOpensFirstFree` | CS118-Project2/server.cpp:269-316 | a SYN opens the first free slot and changes no other |
| `ConfundoServer.ClosedExactlyIfStruck` | CS118-Project2/server.cpp:409-475 | after any history a slot that is still free has is_FIN set exactly if a FIN with id 0 came when it was the first free one |
| `ConfundoServer.OpenedSlot` | CS118-Project2/server.cpp:273-285 | whatever came before, an opened slot has fresh numbers and an empty file until a packet of its own arrives; its is_FIN is set exactly if it was struck |
| `ConfundoServer.EarlyFinLosesConnection` | CS118-Project2/server.cpp:340-475 | after any history, a connection never stores a byte whatever arrives exactly if its slot was struck by a FIN with id 0 |
| `ConfundoServer.FirstConnectionLost` | CS118-Project2/server.cpp:340-475 | such a history: a FIN with id 0 before the first SYN |
| `ConfundoServer.FinFreezesFile` | CS118-Project2/server.cpp:340-345 | after a FIN no packet changes the file |
| `ConfundoServer.DataAnswered` | CS118-Project2/server.cpp:337-401 | every data packet of an open connection is answered with the number the slot waits for afterwards, taken or not; after a FIN none is |
| `ConfundoServer.DataTaken` | CS118-Project2/server.cpp:346-363 | a packet in order is stored and the slot then waits for the number behind it |
| `ConfundoServer.FinAnswered` | CS118-Project2/server.cpp:409-475 | every FIN is answered by an acknowledgement, one further if it is in order, and a FIN |
| `ConfundoServer.OthersIgnored` | CS118-Project2/server.cpp:234-478 | packets with other flags or with an id no slot has change nothing and are not answered |
| `ConfundoServer.SynAnswered` | CS118-Project2/server.cpp:266-326 | the exact replies to a SYN: an echo to each slot opened before, then the SYN-ACK of the slot it opens |
| `ConfundoServer.PlainSynEcho` | CS118-Project2/server.cpp:318-324 | how the SYN every client sends reads when it comes back: octets reversed |
| `ConfundoTransfer.SynIsAnswered` | CS118-Project2/server.cpp:269-310 | the SYN that opens a slot is answered with 4321, 12346 and the id of the slot |
| `ConfundoTransfer.HandshakeLeadsHere` | CS118-Project2/server.cpp:269-326 | after any history of the server, with any replies to SYNs still on their way, a client whose SYN was answered, as it was, is where a transfer begins, exactly if its slot was not struck |
| `ConfundoTransfer.RepeatedSynLeavesEcho` | CS118-Project2/client.cpp:393-423 | a SYN sent again is echoed to the slot the first one opened, and that echo can still be on its way |
| `ConfundoTransfer.Rotated` | CS118-Project2/client.cpp:199-206 | timeout and resend keep the cyclic no-gap property of the log |
| `ConfundoTransfer.ResendOk` | CS118-Project2/client.cpp:194-261 | after a timeout the client is consistent again in the same pass |
| `ConfundoTransfer.SendPhaseOk` | CS118-Project2/client.cpp:194-262 | any pass keeps the log without gaps above the server's point and sends only true chunks of the file |
| `ConfundoTransfer.NearSame` | CS118-Project2/client.cpp:236 | offsets less than 102401 apart with the same number are the same |
| `ConfundoTransfer.AckDropsOk` | CS118-Project2/client.cpp:276-280 | whichever entry a recent acknowledgement matches, erasing up to it leaves no gap above the server's point |
| `ConfundoTransfer.OnAckOk` | CS118-Project2/client.cpp:274-294 | for files of any length, a recent acknowledgement keeps the log without gaps wherever it matches |
| `ConfundoTransfer.InOrder` | CS118-Project2/server.cpp:346-347 | for files of any length, a recent packet that is accepted carries exactly the bytes at the server's offset |
| `ConfundoTransfer.OnDataOk` | CS118-Project2/server.cpp:346-363 | for files of any length, a recent packet keeps the server's file a prefix and its number tied to its length |
| `ConfundoTransfer.FinishedIsComplete` | CS118-Project2/client.cpp:332-334 | when the exit test succeeds the server has the whole file |
| `ConfundoTransfer.StepKeeps` | CS118-Project2/client.cpp:189-335 | for files of any length, every step of client, server and network that acts on nothing old keeps the invariant |
| `ConfundoRuns.LinkedLosesNothing` | CS118-Project2/client.cpp:194-294 | every byte between the server's point and the furthest the client has been is in some logged packet |
| `ConfundoRuns.NearRunsAreSound` | CS118-Project2/client.cpp:189-335 | files of any length, every run in which nothing older than 102401 bytes is acted on: prefix always, nothing lost, complete after the loop and through the closing packets |
| `ConfundoRuns.SafeRunIsNear` | CS118-Project2/client.cpp:234-238 | for files of safe length no run can act on anything old: numbers leave no choice |
| `ConfundoRuns.TransferIsSound` | CS118-Project2/client.cpp:189-335 | hence for files of safe length every run keeps the promise, however late anything arrives, leftovers of the handshake included |
| `ConfundoRuns.ShortFilesAreSafe` | CS118-Project2/client.cpp:236 | all files below 102401 bytes are safe without echoes and 102401 is the first unsafe length |
| `ConfundoRuns.FirstLengthEndingAtZero` | CS118-Project2/client.cpp:236 | with echoes the first unsafe length is 90055, which is safe without |
| `ConfundoRuns.NumbersNameOffsets` | CS118-Project2/client.cpp:201-241 | in every run of any file the client's number, each entry's two numbers and the server's acknowledgement name their offsets |
| `ConfundoRuns.Rounds` | CS118-Project2/client.cpp:189-335 | on an undisturbed network any number of chunks is transferred, one round each |
| `ConfundoRuns.UndisturbedEnds` | CS118-Project2/client.cpp:189-335 | every file has a run that acts on nothing old and ends with the whole file at the server |
| `ConfundoRecovery.ReceivedAgain` | CS118-Project2/server.cpp:364-397 | a chunk the server has already is not stored again and is acknowledged once more |
| `ConfundoRecovery.TimeoutResends` | CS118-Project2/client.cpp:194-261 | after more than 500 ms with nothing heard the chunk is sent again from the same place |
| `ConfundoRecovery.ChunkGetsThrough` | CS118-Project2/client.cpp:189-335 | a chunk gets through after any number of losses of itself and of its acknowledgement, in any order |
| `ConfundoRecovery.EveryLossRepaired` | CS118-Project2/client.cpp:189-335 | every file and every pattern of losses chunk by chunk: a run with exactly these losses, one timeout each, ends with the whole file at the server |
| `ConfundoRecovery.LastAckEndsLoop` | CS118-Project2/client.cpp:275-334 | hearing the acknowledgement of the last byte moves the client past its loop, however many entries are logged |
| `ConfundoRecovery.OnlyLastAckNeeded` | CS118-Project2/client.cpp:189-335 | a file that fits in the first window is transferred with its last acknowledgement alone |
| `ConfundoRecovery.ClosingEnds` | CS118-Project2/client.cpp:427-508 | after the loop the FIN is answered and acknowledged, and the file stays as it is |
| `ConfundoRuns.StaleChunkAppended` | CS118-Project2/server.cpp:346-363 | for every unsafe length a run in which an old chunk is written after the end and the client's loop still ends |
| `ConfundoRuns.EchoLosesChunk` | CS118-Project2/server.cpp:318-324 | for every length with a boundary numbered 0 a run in which a SYN echo strikes off a chunk never received |
| `ConfundoRuns.OldEchoLosesChunk` | CS118-Project2/server.cpp:318-324 | the same without any SYN during the transfer, by an echo left over from the handshake |
| `ConfundoRuns.SoundExactlyForSafeLengths` | CS118-Project2/client.cpp:189-335 | all runs keep the promise exactly for files of safe length: with and without SYNs during the transfer, and with and without an echo left over from the handshake |
| `ConfundoWindow.AvoidanceStep` | CS118-Project2/client.cpp:286-287 | x + 262144/x neither falls below x nor passes 262145 |
| `ConfundoWindow.GrowthOk` | CS118-Project2/client.cpp:281-292 | one acknowledgement widens the window by at most one packet, and the room added is one more than that |
| `ConfundoWindow.AckGrows` | CS118-Project2/client.cpp:281-287 | an accepted acknowledgement adds 512 below the threshold, and exactly 262144/CWND rounded down from it on |
| `ConfundoWindow.WholePacketExactly` | CS118-Project2/client.cpp:281-287 | the window grows by a whole packet exactly below the threshold or at a single packet, and grows at all exactly below the threshold or up to 262144 |
| `ConfundoWindow.SlowStart` | CS118-Project2/client.cpp:281-284 | over any run below the threshold the window grows by 512 per accepted acknowledgement |
| `ConfundoWindow.OneWindowOnePacket` | CS118-Project2/client.cpp:285-287 | over any run in congestion avoidance a whole window of acknowledgements adds at most one packet |
| `ConfundoWindow.SlowStartToHalf` | CS118-Project2/client.cpp:205-211 | after a timeout slow start from one packet lasts exactly while the window is below half the old one |
| `ConfundoWindow.SlowStartFromTheStart` | CS118-Project2/client.cpp:158-291 | from the start of the transfer slow start runs up to 10000 |
| `ConfundoWindow.PacketsOfTransfer` | CS118-Project2/client.cpp:216-232 | in every run the first packet acknowledges 4322 and all later ones carry neither acknowledgement nor flags |
| `ConfundoWindow.RunKeepsWindow` | CS118-Project2/client.cpp:194-294 | over any run, entries plus room fit in the window plus the backlog left by the last timeout |
| `ConfundoWindow.WindowRespected` | CS118-Project2/client.cpp:158-335 | every run keeps 512 <= CWND <= 262145 and 256 <= SS_THRESH <= 131072; the bytes in flight exceed CWND at most by the entries left from before the last timeout, and not at all until the first |
| `ConfundoWindow.TimeoutKeepsBytes` | CS118-Project2/client.cpp:194-261 | a pass with a timeout leaves the bytes in flight as they were and CWND at 512, so they fit exactly if they were at most 512 |
| `ConfundoWindow.Overcommitted` | CS118-Project2/client.cpp:194-261 | a run with 1024 bytes in flight and a window of 512, for every file of at least 1024 bytes |
| `Checksum.SumWords` | CS118-Project3/core/utils.cpp:44-47 | the first loop adds the big-endian words modulo 2^32 |
| `Checksum.ComputeCksum` | CS118-Project3/core/utils.cpp:38-52 | the folding loop ends with the representative of the sum modulo 65535 that is 0 only for 0; its complement in network order is returned |
| `Checksum.FoldStep` | CS118-Project3/core/utils.cpp:48-49 | one fold lowers the sum, keeps it modulo 65535 and never makes it 0 |
| `Checksum.OnesSumIsFolded` | CS118-Project3/core/utils.cpp:44-49 | summing first and folding last equals adding word by word with end-around carry |
| `Checksum.CksumIsRfc1071` | CS118-Project3/core/utils.cpp:38-52 | up to 131074 bytes the result is the complement of the RFC 1071 sum |
| `Checksum.ChecksOut` | CS118-Project3/core/utils.cpp:50-51 | up to 131074 bytes 0xffff is returned exactly when the word sum is a multiple of 65535 |
| `Checksum.RightExactlyUpTo` | CS118-Project3/core/utils.cpp:42-45 | that equivalence holds for all buffers of a length exactly up to 131074 bytes |
| `Checksum.StoredChecksOut` | CS118-Project3/simple-router.cpp:237-238 | zeroing an aligned field and storing the checksum there makes the buffer check out |
| `RoutingTable.Table.Find` | CS118-Project3/routing-table.cpp:31-51 | the scan computes the specified lookup |
| `RoutingTable.Table.AddEntry` | CS118-Project3/routing-table.cpp:103-107 | entries are appended in order |
| `RoutingTable.BestIsLargest` | CS118-Project3/routing-table.cpp:36-48 | the scan ends at the last of the largest matching masks and fails only without a match |
| `RoutingTable.LongerIsLarger` | CS118-Project3/routing-table.cpp:42 | masks of longer prefixes are larger numbers although their bytes are read in the wrong order |
| `RoutingTable.MaskedIsPrefix` | CS118-Project3/routing-table.cpp:38-41 | equality under a prefix mask is agreement on that many leading bits |
| `RoutingTable.LookupIsLongestPrefix` | CS118-Project3/routing-table.cpp:31-51 | on tables of prefixes: the last longest match, or failure exactly when nothing matches |
| `ArpCache.Cache.Lookup` | CS118-Project3/arp-cache.cpp:184-195 | the first valid entry for the address, if any |
| `ArpCache.Cache.QueueRequest` | CS118-Project3/arp-cache.cpp:198-217 | the packet joins the request for its address, which is created if missing |
| `ArpCache.Cache.InsertArpEntry` | CS118-Project3/arp-cache.cpp:227-248 | a valid entry is appended and the waiting request, if any, returned |
| `ArpCache.Cache.SendPendingPackets` | CS118-Project3/arp-cache.cpp:28-66 | all waiting packets leave in order under the new Ethernet header and the request is removed |
| `ArpCache.Cache.HandleArpRequest` | CS118-Project3/arp-cache.cpp:68-132 | a due request is broadcast again, or removed after five broadcasts |
| `ArpCache.Cache.CheckRequests` | CS118-Project3/arp-cache.cpp:140-147 | the pass over the requests, which stops at the first removal |
| `ArpCache.Cache.RemoveInvalid` | CS118-Project3/arp-cache.cpp:149-162 | exactly the valid entries remain, in order |
| `ArpCache.Cache.Tick` | CS118-Project3/arp-cache.cpp:266-277 | invalidating and removing leaves exactly the fresh entries; the request pass runs once |
| `ArpCache.Cache.Clear` | CS118-Project3/arp-cache.cpp:250-257 | both lists are emptied |
| `ArpRuns.FreshLookup` | CS118-Project3/arp-cache.cpp:188-192 | with one entry per address, expiring the list is expiring the answer |
| `ArpRuns.LookupIsFirst` | CS118-Project3/arp-cache.cpp:184-195 | a look-up answers with the first valid entry for the address, if there is one |
| `ArpRuns.SweepAt` | CS118-Project3/arp-cache.cpp:72-129 | what a tick does to each request: nothing within a second of its last broadcast, then a broadcast, after five of them removal and the end of the pass |
| `ArpRuns.AskedOnlyIfDue` | CS118-Project3/arp-cache.cpp:72-129 | a tick broadcasts for no other addresses |
| `ArpRuns.NewRequestIsDue` | CS118-Project3/arp-cache.cpp:198-217 | a packet for a new address makes the next tick ask for it |
| `ArpRuns.JoinKeepsSchedule` | CS118-Project3/arp-cache.cpp:198-217 | a packet that joins a request changes neither its time nor its count |
| `ArpRuns.SweepWaiting` | CS118-Project3/arp-cache.cpp:143-147 | a tick drops or keeps every waiting packet, in order |
| `ArpRuns.ReaddressKeepsPayload` | CS118-Project3/arp-cache.cpp:45-53 | only the first 14 bytes of a waiting frame are rewritten |
| `ArpRuns.StepKeeps` | CS118-Project3/simple-router.cpp:104-138 | every step of handler, ticker and clear keeps the invariant |
| `ArpRuns.CacheIsExpiringMap` | CS118-Project3/arp-cache.cpp:184-279 | in every interleaving one valid entry per address, and lookup answers like a map whose entries expire |
| `ArpRuns.AnswersAreFresh` | CS118-Project3/arp-cache.cpp:260-278 | an answer is never older than 30 seconds plus the time since the last tick |
| `ArpRuns.TickLeavesFresh` | CS118-Project3/arp-cache.cpp:268-276 | right after a tick exactly the valid entries of at most 30 seconds remain |
| `ArpRuns.PacketsConserved` | CS118-Project3/arp-cache.cpp:28-257 | in every interleaving, per address: one request, and what was queued is in order what was sent, dropped or still waits |
| `ArpRuns.BroadcastsBounded` | CS118-Project3/arp-cache.cpp:74-129 | no request is broadcast more than five times, and no address more than five times per request created for it |
| `ArpRuns.WaitingCanLeave` | CS118-Project3/arp-cache.cpp:28-66 | any packet can wait and then be sent, under any link addresses |
| `ArpDrain.SweepPays` | CS118-Project3/arp-cache.cpp:138-147 | every broadcast and removal lowers the sum of (6 - nTimesSent) by one, and a tick does at least one |
| `ArpDrain.QueueDrains` | CS118-Project3/arp-cache.cpp:138-147 | without replies k requests are gone after at most 6k ticks |
| `ArpDrain.UnansweredRequest` | CS118-Project3/arp-cache.cpp:72-129 | a new request that is never answered is broadcast exactly five times and dropped |
| `Router.ForwardedFrameOk` | CS118-Project3/simple-router.cpp:235-250 | a forwarded frame's header checks out, its time to live is one lower (0 becomes 255), only bytes 0-11, 22, 24 and 25 differ |
| `Router.ErrorFrameOk` | CS118-Project3/simple-router.cpp:330-416 | an error frame is known byte for byte: both checksums check out, it returns to the original sender and carries the first 28 bytes of the packet |
| `Router.SentFrames` | CS118-Project3/simple-router.cpp:193-268 | exactly when a frame is sent for a good packet, and which: an error to its sender or the packet passed on along the longest match |
| `Router.TransitPackets` | CS118-Project3/simple-router.cpp:234-268 | a packet in transit waits exactly if its destination is unresolved and is discarded exactly if it is resolved and no prefix matches |
| `Router.RefusedPackets` | CS118-Project3/simple-router.cpp:210-232 | exactly which packets for the router, or out of time to live, take the echo branch or are dropped |
| `Router.FoundByIp` | CS118-Project3/simple-router.cpp:566-577 | the first interface with the address, or none exactly if none has it |
| `Router.FoundByMac` | CS118-Project3/simple-router.cpp:580-591 | the first interface with the link address, or none exactly if none has it |
| `Router.FoundByName` | CS118-Project3/simple-router.cpp:594-605 | the first interface with the name, or none exactly if none has it |
| `Router.LearnedIsKnown` | CS118-Project3/simple-router.cpp:198-208 | after learning an unknown address is answered with its sender, and every other as before |
| `Router.TimeToLiveFalls` | CS118-Project3/simple-router.cpp:175-250 | a packet in transit with a resolved destination that can be passed on is, with a lower time to live exactly if it was not 0 |
| `Router.WaitingKeepsTimeToLive` | CS118-Project3/arp-cache.cpp:43-56 | in every run of the cache a frame that waited leaves with its time to live unchanged |
| `Router.TimeToLiveRule` | CS118-Project3/simple-router.cpp:175-268 | a packet in transit that leaves, at once or after waiting, has a lower time to live exactly if its destination was resolved when it came and it was not 0 |
| `Router.ZeroBecomes255` | CS118-Project3/simple-router.cpp:175-250 | with a default route and a resolved destination every well-checksummed packet with a time to live of 0 is passed on with 255 |
| `Router.SimpleRouter.constructor` | CS118-Project3/simple-router.cpp:515-518 | a router starts with an empty cache |
| `Router.SimpleRouter.LearnSource` | CS118-Project3/simple-router.cpp:198-208 | an unknown sender is added and from then on found, a known one is left as it is, all other addresses are answered as before |
| `Router.SimpleRouter.HandleIpPacket` | CS118-Project3/simple-router.cpp:167-274 | a bad header changes nothing; else the sender is known from then on, the decided action taken and only a waiting packet queued |
| `Router.SimpleRouter.Dispatch` | CS118-Project3/simple-router.cpp:210-268 | the action for a packet with a good header |
| `Router.SimpleRouter.Forward` | CS118-Project3/simple-router.cpp:234-256 | the frame built for a cached destination, nothing without a route |
| `Router.SimpleRouter.HandleArpReply` | CS118-Project3/simple-router.cpp:125-139 | a reply for an unknown address makes it known and its packets are sent; one for a known address is discarded |
| `RouterRuns.IpPacketIsRun` | CS118-Project3/simple-router.cpp:193-268 | what handling an IP packet does to the cache is a look-up, an insertion and a queueing of the cache model |
| `RouterRuns.ArpReplyIsRun` | CS118-Project3/simple-router.cpp:125-139 | what handling an ARP reply does and sends is a look-up, an insertion and a flush of the cache model |
| `RouterRuns.SessionIsRun` | CS118-Project3/simple-router.cpp:125-268 | every session of packets, ticks and resets is a run of the cache model |
| `RouterRuns.RouterCacheSound` | CS118-Project3/simple-router.cpp:125-268 | hence after any session of a router one entry and one request per address, and at most five broadcasts of a request |

## Left out

- Sockets, threads, signals, real clocks, file streams and the Ice/POX proxy: steps, time parameters and byte sequences stand for them.
- Printing, including the decision to mark a packet DUP.
- The two handshake loops and the retry timing of the closing exchange: the transfer starts from any state the handshake can leave, with any of the replies to SYNs sent so far still on their way, and the closing packets may be sent any number of times.
- Liveness beyond the loss patterns of `EveryLossRepaired`, in which one chunk is in flight at a time, and the ten-second aborts.
- Received datagrams shorter than a header, for which the server's length arithmetic underflows.
- Frames too short for the headers read from them, and null interfaces or link addresses: they end in the action `Undefined`, about which nothing is claimed.
- SYNs with contents no client of this repository sends; the transfer model lets any number of the client's own SYN arrive and counts every reply to one as heard by the client.
- Runs of a transfer in a slot that a FIN with id 0 struck while it was the first free one: it stores nothing, as `EarlyFinLosesConnection` shows, and `Initial` leaves it out.
- The ICMP echo branch, which passes the size of the vector object to `cksum`: it is the action `EchoBranch`.
- The total length of generated ICMP errors, which is written as the program writes it, but not claimed to be right.
- ARP requests answered for the router's own addresses, and the contents of broadcast ARP requests.
- Missing routes while waiting packets are sent: the outgoing interface of that path is not modelled.
- `RoutingTable::load`, `loadIfconfig`, `reset` beyond clearing the cache, Project1, the dumper, `main` and the scripts.
- ArpCache.Cache.RemoveInvalid: removes by filtering values, while the source removes recorded shared pointers one by one; the entries that remain are the same.
- Router.SimpleRouter.HandleIpPacket: runs without ticks in between; interleavings are covered at the level of the cache in `ArpRuns`.
- ArpCache.Cache.SendPendingPackets: is one step in `ArpRuns`, although the source iterates without the lock; the outgoing interface, found by a look-up of the address, is not modelled.
- ArpCache.Cache.HandleArpRequest: does not model the broadcast frame and its interface, only the address asked for and the request's new state; one clock reading serves the test and the time recorded.
- ArpCache.Cache.CheckRequests: uses one clock reading for the whole pass, while the source reads the clock for each request.
- ArpCache.Cache.Tick: uses one clock reading for the entries and all requests, while the source reads it once for the entries and then for each request.
- Router.SimpleRouter.HandleArpReply: runs without ticks between look-up, insertion and sending; interleavings are covered at the level of the cache in `ArpRuns`.
