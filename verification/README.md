# Verified model of DartNet

DartNet is a small network stack in C: an overlay, a network layer that routes by distance
vectors, and a transport layer with Go-Back-N on top. This project models the stack's two
distributed protocols and the algorithms they rest on, and proves what they promise over every
run. `dafny verify dfyconfig.toml` checks all of it.

Code that works step by step is modelled as classes and methods with loops, each proved equal to
a pure step function; the protocols are transition systems over those same step functions, and
the theorems are about all their runs.

**Routing** (`Topology`, `DistanceVector`, `RoutingNet`, `RoutingTheorems`, `RoutingUpdate`,
`RoutingSettles`, `RoutingTextbook`, `RoutingFifo`, `RoutingQuiescence`; concrete code in
`RoutingTable`, `DvTable`, `Router`). An arbitrary finite graph with symmetric link costs in 1..998. In `RoutingNet` a route
update may be lost, duplicated and reordered without bound; the update daemon may broadcast a
vector whose entries have different ages, because it reads without the lock and sleeps before it
sends. The two assignments made under the locks are one step, together with the broadcast that
reports them (the handler is the only thread that changes the vector, so it still has the same
content when it is sent); relaxations of different destinations are separate steps. `RoutingUpdate`
proves that a whole update handled in one go is a run of these steps. `RoutingFifo` has the same
small steps over first-in-first-out links with each vector built and sent at once: the daemon may
announce, and neighbours may act, between any two relaxations. Each of its steps is one step of
`RoutingNet`.

**Transport** (`Segment`, `SendBuffer`, `Stream`, `Client`, `Server`, `Session`,
`SessionTheorems`, `Progress`, `Rounds`, `Calls`, `Delivery`, `Handshake`). Events are the critical sections of
the code. The network is the set of all segments ever sent, and any of them may arrive at any time,
any number of times, among segments of any other host; a DATA segment may also arrive with another
type, the only single-bit error that can pass the checksum in segments as the code builds them
(`Layout.ParsedIsSentOrHit`). `Session` is one connection from SYN to FIN with fewer than 2^32
bytes; `Handshake` is any number of clients against one accept. `Basics` and `Sums` hold what the
other modules share.

**Checksum, framing, link** (`Checksum`, `SegmentImage`, `Framing`, `Link`, `Layout`, `Transit`,
`Passage`). The fold, the error injector, the four-state receiver, and all of them together as a
segment's way from `snp_sendseg` to `snp_recvseg`: over one connection in `Link`, and through every
enclosing frame of the network and overlay processes on the way in `Transit`. `Layout` adds the
fields of a segment in memory, and proves that the losses and type hits of `Session`'s network
cover whatever the loss simulator and the check make of what is sent. `Passage` lets the packet's own
header and the changing tables of the nodes decide the way, and joins it with the theorems about
routing. Both byte orders of the host are covered.

Where the code does something other than its comments or documents say, the model follows the code:

- A send of a positive multiple of 200 bytes queues all but its last 200 bytes, then an empty
  segment (`SendBuffer.FragmentsAreFaithful`). That segment is never acknowledged away, so the
  buffer and its timer stay until something else is queued (`SessionTheorems.EmptyTailStays`);
  the acknowledgement of the whole stream empties the buffer if and only if the last segment is
  not empty (`SessionTheorems.WholeAckEmpties`). A send of exactly 200 bytes is such a run
  (`Delivery.SomeEmptyTail`).
- The window test is `<=`, so eleven segments may be outstanding, not GBN_WINDOW (ten)
  (`SendBuffer.SendMaxFills`).
- A timeout sends one segment more than the outstanding counter counts and does not count it. Once
  such a burst is acknowledged whole, the counter wraps to 2^32 - 1
  (`SendBuffer.AcknowledgedBurstWraps`). Every connection with more buffered than counted, nothing
  empty among it, and room at the server can come to that (`Rounds.WindowShuts`), and so can a new
  one between any two addresses (`Delivery.SomeWindowShuts`). From then on `sendMaxSegments` sends nothing, in every later state
  of the connection, as long as no more than 2^32 - 12 segments have been freed since its start;
  only timeouts send (`SessionTheorems.ShutWindowStays`).
- A receive of exactly RECEIVE_BUF_SIZE bytes passes the length check and then polls for ever
  (`SessionTheorems.WholeBufferNeverServed`). It is the only such length: some run serves a receive
  of n bytes if and only if n is below RECEIVE_BUF_SIZE (`Delivery.ServableLengths`).
- An accept can return -1 and close the socket although its client connected: when that client's
  FIN, too, is handled between two looks (`SessionTheorems.AcceptAnswers`,
  `Delivery.SomeAcceptRefuses`).
- A flipped bit in the type field of a DATA segment can pass the check; exactly when is
  `SegmentImage.FlippedDataType`, and `SegmentImage.FlippedDataCanPass` gives a family of segments.
- The fixed two-step fold agrees with the loop of section 4.1 of RFC 1071 up to 65538 words, and
  not beyond (`Checksum.TwoStepsReach`).
- `Routing` states a full recomputation over all neighbours. The code only ever takes a minimum
  with one neighbour's vector. Handling an update leaves the two equal exactly when the vector just
  heard gives no more than the distance held, or the distance is as good elsewhere
  (`RoutingTextbook.NextUpdateMeetsTextbook`); from equality, exactly when the vector is no worse
  than the copy it replaces, or the distance is as good elsewhere
  (`RoutingTextbook.UpdateKeepsTextbook`). Vectors heard in the order in which they were built are
  never worse, so over first-in-first-out links the two agree for good
  (`RoutingQuiescence.IncrementalIsTextbook`). Reordered vectors can break it: a run that leaves an
  idle node strictly below the recomputation is `RoutingTextbook.ReorderingUndercuts`. A distance is
  never above the recomputation (`RoutingTextbook.NeverAboveTextbook`) and always the cost of a real
  walk (`RoutingTheorems.EveryEntryIsAWalk`).
- A segment that the transport addresses to its own node is given the next hop -1
  (`Router.Router.Inject` with `RoutingTheorems.NextHopsKnown`).
- There is no escaping: the receiver's machine takes a frame for its own payload and delimiter if
  and only if the payload does not contain `!#` (`Framing.FrameRoundTrip`). Because a fixed size is
  copied out, a payload with `!#` at its very end only still crosses whole; any earlier one does not
  (`Transit.CrossesWhole`). A stray `!` right before a frame loses the frame
  (`Framing.NoiseBeforeFrame`).

## Model

| member | source | states |
|---|---|---|
| DistanceVector.RelaxUpToIsPointwise | network/network.c:207-217 | After relaxing the first k destinations in order, each of them holds the smaller of its own old entry and link plus copy, its next hop changed exactly where that was strictly smaller, and every other destination is untouched |
| DistanceVector.UpdateReportsFalls | network/network.c:206-246 | Handling an update broadcasts one vector for each destination that came nearer, each strictly below the one before it and the last the vector the node ends with; none when nothing came nearer |
| RoutingNet.InitHolds | network/dvtable.c:33-50 | The initial tables satisfy the invariant: next hops account for the rest of the way, copies are never below the sender's vector, finite entries are costs of real walks |
| RoutingNet.CandidateIsSafe | network/network.c:208 | The unsigned sum of link cost and copy never wraps, and is at least the link cost plus the sender's present distance, however old the copy |
| RoutingNet.MixedVectorIsOld | network/network.c:103-122 | A vector the daemon broadcasts after an unlocked read, entries of different ages included, is nowhere below the node's present vector and every finite entry is the cost of a real walk |
| RoutingNet.DeliverKeepsTight | network/network.c:185-198 | Overwriting a copy keeps every distance at most link plus copy or still queued for relaxation, although an unchanged vector skips relaxation |
| RoutingNet.RelaxKeepsOrder | network/network.c:208-217 | A relaxation keeps D_x(d) >= c(x,next) + D_next(d) for every node and destination, and keeps a next hop exactly for finite distances |
| RoutingNet.StepKeeps | network/network.c:187-217 | Delivery, relaxation and broadcast each keep the whole invariant and raise no distance |
| RoutingNet.RunKeeps | network/network.c:149-252 | The invariant holds in every state of every run with loss, duplication and reordering |
| RoutingNet.RunFalls | network/network.c:207-217 | Over any stretch of a run no node's distance ever rises |
| RoutingTheorems.NextHopFalls | network/network.c:212-217 | A next hop is a neighbour, is strictly nearer by at least the link cost, and is the destination or has a next hop itself |
| RoutingTheorems.LoopFreedom | network/network.c:207-217 | In every reachable state, not only at convergence, no chain of next hops visits a node twice and distances strictly fall along it |
| RoutingTheorems.RouteIsSimple | network/network.c:158-166 | The chain of next hops from a node at a finite distance reaches the destination through at most as many nodes as there are |
| RoutingTheorems.NoDeadEnd | network/network.c:158-166 | In every reachable state a node at a finite distance has a loop-free chain of next hops to the destination that costs no more than the advertised distance |
| RoutingTheorems.NextHopsKnown | network/network.c:336-339 | In every reachable state a next hop is known exactly for the other nodes at a finite distance; never for the node itself |
| RoutingTheorems.WorldStepPays | network/network.c:152-169 | A hop, or any routing step in between, never raises what a packet has spent plus the distance its present node advertises |
| RoutingTheorems.PacketMeetsItsBudget | network/network.c:152-169 | A packet forwarded while tables change never overspends the distance at which it was injected, pays at least one per hop, and short of its destination always has a next hop |
| RoutingTheorems.PacketArrives | network/network.c:331-345 | A packet that has made as many hops as its injection distance is at its destination, whatever route updates happened meanwhile |
| RoutingTheorems.SettledBelowWalks | network/network.c:207-217 | When no node is mid-update and copies are current, a distance is at most the cost of every walk |
| RoutingTheorems.Convergence | network/network.c:187-217 | In every such state of every run, D is the smaller of 999 and the true shortest-path cost, and following next hops is a shortest path |
| RoutingTheorems.SettledStatesAgree | network/network.c:187-217 | However two runs over the same graph went, settled states of either hold the same distances |
| RoutingTheorems.EveryEntryIsAWalk | network/network.c:207-217 | In every reachable state every finite entry of any vector, copy or message is the cost of a real walk |
| RoutingTheorems.CaughtUp | network/network.c:187-217 | Once x has handled an update from s no staler than moment i, D_x(d) is for ever at most c(x,s) plus D_s(d) as it was at i |
| RoutingTheorems.RoundRaisesLevel | network/network.c:207-249 | A full exchange round takes distances from at most any walk of k+1 edges to at most any walk of k+2 |
| RoutingTheorems.RoundBound | network/network.c:207-249 | After k rounds every distance is at most the cheapest walk of at most k+1 edges |
| RoutingTheorems.RoundsReachDistances | network/network.c:102-112 | With n nodes, n-2 rounds give the exact capped distances, whatever else is lost, repeated or reordered |
| RoutingSettles.OnlyFallsAreReported | network/network.c:201-249 | Of the steps of an update, a relaxation broadcasts exactly when it lowered the vector, and then the lowered vector; hearing broadcasts nothing; nothing else changes a vector |
| RoutingSettles.TriggeredArePaidFor | network/network.c:201-249 | On any network, lossy, duplicating and reordering ones included: in any run a node makes at most as many update-triggered broadcasts as its distances have fallen by, so at most the sum of its link costs |
| RoutingSettles.CanSettle | network/network.c:187-249 | From every state that keeps the invariant some continuation of the lossy network settles: all idle, all copies current |
| RoutingSettles.EveryRunCanSettle | network/network.c:187-249 | Every run on the lossy network continues to a state in which all distances are the exact capped ones |
| RoutingUpdate.MidwayIsReached | network/network.c:187-217 | The state after k relaxations of one update is reached by the small steps of the lossy system |
| RoutingUpdate.UpdateRefines | network/network.c:170-251 | Handling a whole update in one go, broadcasts included, is a run of the small steps and keeps the invariant |
| RoutingFifo.DoRefines | network/network.c:187-249 | Over first-in-first-out links, hearing an update, relaxing one destination and announcing at any moment are each exactly one step of the lossy system |
| RoutingFifo.TakenIsHandled | network/network.c:170-251 | A whole update handled undisturbed, hearing it and then relaxing every destination, leaves exactly the node that the handler gives and appends exactly its broadcasts to the log, oldest first |
| RoutingQuiescence.NextIsJournalled | network/network.c:207-249 | One relaxation lowers the vector or leaves it, its broadcast continues the falling journal that ends in the present vector, and is paid for by a fall of the sum of distances |
| RoutingQuiescence.NextVectorIsNewer | network/network.c:187-198 | In order of sending, the vector heard next is nowhere above the copy it replaces |
| RoutingQuiescence.HeardIsBacked | network/network.c:187-198 | Overwriting a copy by a vector nowhere above it keeps each distance no better than the first link cost or some present copy plus its link |
| RoutingQuiescence.RelaxedIsBacked | network/network.c:208-215 | So does a relaxation, which falls to what the present copy gives |
| RoutingQuiescence.FifoRunKeeps | network/network.c:149-252 | Over first-in-first-out links every reachable state, in the middle of updates too, keeps journals, copies that are the last broadcast taken, and backed distances |
| RoutingTextbook.TextbookIsLeast | Routing:45-46 | The full recomputation is the least of the direct link and every neighbour's copy plus link, and is attained |
| RoutingTextbook.NeverAboveTextbook | Routing:45-46 | On any network, lossy ones included, a distance not waiting to be relaxed never exceeds the full recomputation |
| RoutingTextbook.UpdateMeetsTextbook | network/network.c:187-217 | Handling an update leaves a distance equal to the full recomputation if and only if link plus the vector heard is at most the distance held, or the direct link or another neighbour's copy is as good |
| RoutingTextbook.UpdateKeepsTextbook | network/network.c:187-217 | From equality, handling an update keeps it if and only if the vector is no worse there than the copy it replaces, or the direct link or another neighbour's copy is as good |
| RoutingTextbook.NextUpdateMeetsTextbook | network/network.c:187-217 | The exact condition holds in every reachable state for every update that an idle node may be handed, on any network |
| RoutingTextbook.StaleUndercuts | network/network.c:187-217 | A node that hears a vector better than its distance and then a stale, worse one of the same neighbour, with nothing as good elsewhere, ends up strictly below the full recomputation |
| RoutingTextbook.ReorderingUndercuts | Routing:45-46 | A run on four nodes in a row, with two vectors of one node delivered in the wrong order, leaves an idle node strictly below the full recomputation |
| RoutingQuiescence.IncrementalIsTextbook | Routing:45-46 | Over first-in-first-out links with atomic build-and-send, in every reachable state: a distance is never below the full recomputation, equals it once relaxed, and while waiting to be relaxed equals it exactly when the relaxation will not lower it |
| RoutingQuiescence.StepLowersPotential | network/network.c:201-249 | Hearing an update lowers the potential, in flight plus what distances may still fall by, and relaxing never raises it |
| RoutingQuiescence.StepSpendsEffort | network/network.c:201-249 | Hearing and relaxing each strictly lower the effort: the potential, and the relaxations left over |
| RoutingQuiescence.UpdatesDieOut | network/network.c:201-249 | Over first-in-first-out links, deliveries and relaxations caused by updates alone, in any interleaving, are at most the effort they start from |
| RoutingQuiescence.EffortIsBounded | network/network.c:201-249 | That effort is at most (n + 1) * n * n * (longest log + 999 n) + n * n |
| RoutingQuiescence.StuckIsQuiet | network/network.c:149-170 | Once every node has announced itself, nothing can be heard or relaxed if and only if all nodes are idle and nothing is in flight |
| RoutingQuiescence.QuietIsShortest | network/network.c:201-249 | When every node has announced itself, all are idle and nothing is in flight, distances are the true capped distances and next hops follow a cheapest walk |
| RoutingQuiescence.UpdatesReachQuiet | network/network.c:201-249 | Once all nodes have announced themselves, handling what is in flight does lead to silence |
| RoutingQuiescence.EveryFifoRunSettles | network/network.c:102-126 | Every run over first-in-first-out links continues to silence at exact distances: each daemon announces once, then updates alone do the rest |
| RoutingTable.Table.SlotsApart | network/routingtable.c:44-59 | No entry is in two places: chains are disjoint and acyclic |
| RoutingTable.Table.constructor | network/routingtable.c:31-64 | A fresh table stands for the map of each neighbour to itself and nothing else |
| RoutingTable.Table.Append | network/routingtable.c:45-58 | Appending a new destination at the end of its chain adds exactly that route |
| RoutingTable.Table.SetNextNode | network/routingtable.c:89-122 | Overwrites the destination's entry or appends one: the map is updated at that destination alone, and chains stay well formed |
| RoutingTable.Table.GetNextNode | network/routingtable.c:130-148 | The last value set for the destination, or -1 when there is none |
| DvTable.Table.constructor | network/dvtable.c:21-58 | The own row holds the direct link costs, every neighbour's row INFINITE_COST |
| DvTable.Table.SetCost | network/dvtable.c:76-100 | Sets exactly the cell of that pair and returns 1; changes nothing and returns -1 when the pair is not in the table |
| DvTable.Table.GetCost | network/dvtable.c:105-129 | The cell of that pair, or INFINITE_COST when the pair is not in the table |
| DvTable.Table.FindRow | network/dvtable.c:148-162 | The row of the source, or none |
| Router.UpdateGetsThrough | network/network.c:188-198 | Between nodes that list the overlay in the same order, the vector that was sent is the vector that is heard, whatever the copy was and whatever fills up the packet |
| Router.Router.constructor | network/network.c:354-361 | The tables as read from the topology stand for the initial node of the protocol |
| Router.Router.LinkCost | network/nbrcosttable.c:102-111 | The direct link cost of a neighbour, INFINITE_COST for any other node |
| Router.Router.RouteUpdateData | network/network.c:236-242 | A broadcast carries the node's own vector as it stands |
| Router.Router.OverwriteCopy | network/network.c:185-198 | The sender's row becomes the vector heard, the flag says whether anything changed, and no other row is touched |
| Router.Router.RelaxOne | network/network.c:208-248 | One pass of the loop is one relaxation of the protocol, followed by a broadcast exactly when the vector changed |
| Router.Router.RelaxAll | network/network.c:207-249 | The loop over all destinations is the protocol's relaxations in order, with their broadcasts in order |
| Router.Router.Improve | network/network.c:212-219 | The two assignments under the locks change the vector and the next hop of one destination together |
| Router.Router.HandleRouteUpdate | network/network.c:170-251 | Handling a route update on the concrete tables is the protocol's step, and returns its broadcasts |
| Router.Router.Forward | network/network.c:152-169 | A packet goes up at its destination, else to the protocol's next hop, or to the invalid hop -1, which any ID outside the overlay gets |
| Router.Router.Inject | network/network.c:336-343 | A segment from the transport goes to the protocol's next hop by the table alone, an ID outside the overlay to -1 |
| SendBuffer.Acked | client/srt_client.c:643-650 | Exactly the longest prefix of the buffer that starts below the acknowledged number |
| SendBuffer.SendMaxFills | client/srt_client.c:378-395 | Sending goes on until the buffer ends or more than GBN_WINDOW are outstanding, never beyond GBN_WINDOW + 1, counts what it sends, and lets a first send have eleven outstanding |
| SendBuffer.CounterAfterFree | client/srt_client.c:644-650 | Freeing keeps the unsigned counter within one below what it counts, and wraps it exactly when one more is freed than counted |
| SendBuffer.AcknowledgedBurstWraps | client/srt_client.c:743-760 | How the counter wraps: a timeout's burst acknowledged whole leaves it at 2^32 - 1 and the window shut |
| SendBuffer.HandleAckMeans | client/srt_client.c:643-662 | An acknowledgement frees the longest prefix that starts below it, then sends from the first unsent segment on, in order, until nothing is unsent or more than GBN_WINDOW are counted |
| SendBuffer.TimeoutMeans | client/srt_client.c:741-760 | A timeout sends the buffer from its head, to its end or to one segment more than are counted, leaves the counter and makes the rest the unsent part |
| SendBuffer.AppendAllMeans | client/srt_client.c:324-347 | Queueing leaves what is buffered and the unsent pointer alone and puts the pieces behind it in order, numbered from the next number |
| SendBuffer.NumberedMeans | client/srt_client.c:326-327 | The queued pieces are as they were cut, and each starts where the one before it ends, modulo 2^32 |
| SendBuffer.SendMeans | client/srt_client.c:259-367 | A send queues the fragments of the data behind what is buffered, then sends from the first unsent segment on, in order, until none is left or more than GBN_WINDOW are counted |
| SendBuffer.CutMeans | client/srt_client.c:304-359 | The loop cuts full pieces and a last one of the remainder, which together are a prefix of the data of that length |
| SendBuffer.FragmentsMean | client/srt_client.c:291-359 | Pieces are at most 200 bytes, all but the last full; they spell the data, or for a positive multiple of 200 the data minus its last 200 bytes with one empty piece |
| SendBuffer.FragmentsAreFaithful | client/srt_client.c:291-359 | Fragmentation loses nothing if and only if the length is not a positive multiple of 200 |
| SendBuffer.SendQueue.Enqueue | client/srt_client.c:331-347 | Appends one segment at the tail and makes it the first unsent one when there was none |
| SendBuffer.SendQueue.QueueAll | client/srt_client.c:304-359 | The loop queues exactly the fragments of the data, with consecutive sequence numbers |
| SendBuffer.SendQueue.SendMaxSegments | client/srt_client.c:371-399 | Sends unsent segments in order until the counter passes GBN_WINDOW or none is left, counting each |
| SendBuffer.SendQueue.Free | client/srt_client.c:643-650 | Unlinks exactly the acknowledged prefix and lowers the counter once for each, wrapping |
| SendBuffer.SendQueue.Acknowledge | client/srt_client.c:640-662 | Frees, then sends if anything is unsent |
| SendBuffer.SendQueue.Resend | client/srt_client.c:739-761 | Resends from the head one segment more than are counted, and moves the unsent pointer behind the last |
| SendBuffer.SendQueue.Drop | client/srt_client.c:458-469 | Empties the list and keeps the counter and the next number |
| Client.ClientTcb.constructor | client/srt_client.c:101-145 | A new socket is closed, with an empty buffer and number 0 |
| Client.EveryChange | client/srt_client.c:620-697 | Exactly the server's SYNACK opens and the server's FINACK closes, in the state that waits for it; every segment but the server's acknowledgement leaves the send buffer alone and sends nothing |
| Client.AckIsAnswered | client/srt_client.c:643-657 | An acknowledgement frees exactly what it covers and makes the client send its unsent segments, as DATA to the server, in order, until none is left or more than GBN_WINDOW are counted |
| Client.ConnectMeans | client/srt_client.c:167-204 | A SYN with the next number goes to the given server exactly when the socket is closed; otherwise nothing changes and nothing is sent |
| Client.DisconnectMeans | client/srt_client.c:424-484 | A FIN goes to the server, and the buffer is dropped with its counter and next number kept, exactly when the socket is connected; otherwise nothing changes and nothing is sent |
| Client.ClientTcb.StartConnect | client/srt_client.c:158-207 | Only a closed socket connects: it records the server and sends a SYN with the next number |
| Client.ClientTcb.Send | client/srt_client.c:259-367 | Fails unless connected, does nothing for no data, else queues the fragments and sends what the window allows |
| Client.ClientTcb.HandleSegment | client/srt_client.c:620-697 | The handler's transitions, and the segments it sends |
| Client.ClientTcb.StartDisconnect | client/srt_client.c:424-484 | Only a connected socket disconnects: it drops its buffer and sends a FIN |
| Server.EveryAnswer | server/srt_server.c:365-507 | Exactly which segments are answered, each to its sender: SYNs by SYNACK, FINs by FINACK, and every DATA segment of the recorded client, expected, early, old or too large, by a DATAACK with the number expected after it |
| Server.EveryChange | server/srt_server.c:365-507 | Exactly what a segment changes: a SYN opens a listening socket and is recorded, the recorded client's FIN closes a connected one, and its expected DATA segment is appended if it fits |
| Server.StartAcceptMeans | server/srt_server.c:171-193 | Accepting starts to listen exactly from the closed state and changes nothing else; in any other state it fails and changes nothing |
| Server.RecvSplits | server/srt_server.c:234-266 | A receive fails exactly beyond the buffer's size, is served exactly when the buffer holds enough, takes exactly the oldest bytes and keeps the rest in order; nothing else changes |
| Server.WholeBufferIsNeverServed | server/srt_server.c:452-466 | No single segment fills a buffer that is not full, and a receive of its whole size is then not served |
| Server.ServerTcb.constructor | server/srt_server.c:115-129 | A new socket is closed, with an empty, zeroed buffer |
| Server.ServerTcb.BeginAccept | server/srt_server.c:171-193 | Only a closed socket starts to listen |
| Server.ServerTcb.LookAccept | server/srt_server.c:195-212 | Polls on while listening, 1 when connected, otherwise the socket is closed and -1 returned |
| Server.ServerTcb.StoreData | server/srt_server.c:450-467 | The expected segment, if it fits, is appended at the moving pointer and the expected number advanced; anything else changes nothing |
| Server.ServerTcb.HandleSegment | server/srt_server.c:365-507 | The handler's transitions and replies, the moving pointer kept at base plus used length |
| Server.ServerTcb.Receive | server/srt_server.c:234-268 | Pops exactly the oldest bytes, shifts the rest to the base and leaves the tail zeroed |
| Stream.MarksSeparate | client/srt_client.c:644 | An acknowledgement between segments never falls inside one: a segment that starts before it ends by it |
| Stream.AckStaysBehind | client/srt_client.c:643-650 | Such an acknowledgement frees only sent segments, and none that reaches beyond it |
| Stream.AckReaches | client/srt_client.c:643-650 | It frees every non-empty segment that ends by it |
| Session.AckKeeps | client/srt_client.c:643-650 | An acknowledgement, however old or repeated, keeps the connection's invariant |
| Session.TimerFiresKeeps | client/srt_client.c:739-761 | So does a timeout at any moment |
| Session.DataToServerKeeps | server/srt_server.c:450-474 | So does any DATA segment ever sent, arriving at any moment |
| Session.TypeHitKeeps | common/seg.c:229-232 | So does a DATA segment whose type was hit and made a SYN, a DATAACK or an undefined type |
| Session.AcceptMovesOn | server/srt_server.c:452-466 | Accepting moves the expected number to the end of the next queued segment and extends the stream by exactly its bytes |
| Session.StepKeeps | client/srt_client.c:620-697 | Every event of either side keeps the invariant of the connection |
| Session.RunKeeps | server/srt_server.c:365-507 | The invariant holds in every state of every run from SYN to FIN |
| SessionTheorems.IntendedIsWhole | client/srt_client.c:291-359 | When no send is a positive multiple of 200 bytes, the intended stream is the caller's bytes |
| SessionTheorems.DeliveryIsAPrefix | server/srt_server.c:450-474 | In every run, bytes received plus bytes buffered are exactly the queued stream up to the expected number: nothing lost, repeated or reordered in between |
| SessionTheorems.ReaderGetsWhatWasSent | server/srt_server.c:248-268 | When no send is a positive multiple of 200 bytes, what the reader got is a prefix of what the callers sent |
| SessionTheorems.WindowIsOrdered | client/srt_client.c:374-397 | While connected: head of the buffer <= expected number <= end of what was sent <= next number |
| SessionTheorems.AcksAreSafe | client/srt_client.c:640-650 | No acknowledgement in flight exceeds the expected number, and any of them frees only sent segments, so the unsent pointer never dangles |
| SessionTheorems.EveryDataIsAnswered | server/srt_server.c:463-473 | In every run, each DATA segment that reaches a connected server from its recorded client, whatever its number, puts an acknowledgement with the number then expected in flight |
| SessionTheorems.PointersNeverMoveBack | client/srt_client.c:741-760 | Over any stretch of a connection neither the head nor the unsent pointer moves back in the stream |
| SessionTheorems.CounterTracksTheWindow | client/srt_client.c:378-389 | The segments before the unsent pointer are at most the counter plus one, wrap included; before the first wrap they are the counter or one more and the counter at most 11; without a timeout they are the counter |
| SessionTheorems.BufferHasATimer | client/srt_client.c:332-347 | A non-empty buffer always has a live timer thread |
| SessionTheorems.EmptyTailStays | client/srt_client.c:318-321 | An empty last segment is never acknowledged away |
| SessionTheorems.WholeAckEmpties | client/srt_client.c:643-650 | The acknowledgement of the whole stream empties the buffer if and only if nothing was queued or the last queued segment is not empty |
| SessionTheorems.WholeBufferNeverServed | server/srt_server.c:234-246 | In every reachable state a receive of the whole buffer's size passes the length check and polls on |
| SessionTheorems.RunHoldsWrap | client/srt_client.c:643-650 | In every reachable state after a wrap, counter and segments freed so far add up to at least 2^32 - 1 |
| SessionTheorems.ShutWindowStays | client/srt_client.c:378-389 | Once a wrap has happened, sendMaxSegments sends nothing at any later moment of the connection at which at most 2^32 - 12 segments have been freed |
| SessionTheorems.AcceptAnswers | server/srt_server.c:195-212 | In every reachable state a look of accept polls on if and only if no SYN has been accepted, returns 1 if and only if the socket is connected, and otherwise -1, closing it; while the recorded client has not disconnected it returns 1 |
| SessionTheorems.ConnectedMeansRecorded | client/srt_client.c:626-631 | A connected client is the one a connected server recorded |
| SessionTheorems.DisconnectMeansServerLeft | client/srt_client.c:684-691 | A disconnect that succeeds leaves a server that has left its connected state |
| Progress.ServeOne | server/srt_server.c:450-474 | A non-empty segment delivered to a server that has everything before it, and room, is then held and acknowledged |
| Progress.BurstIsSent | client/srt_client.c:741-760 | A timeout puts the first segments of the buffer, at least one, in flight |
| Progress.AckFreesBurst | client/srt_client.c:643-650 | The acknowledgement of what the server then has frees the whole burst |
| Progress.Round | client/srt_client.c:733-769 | A schedule in which a timeout's segments and its last acknowledgement arrive, with nothing or only the server's reads in between: it strictly shortens the buffer, by at least the burst, and wraps the counter if more was buffered than counted |
| Progress.Drain | client/srt_client.c:733-769 | At most as many such schedules as there are buffered segments empty the buffer, and are a run |
| Progress.DrainDelivers | server/srt_server.c:450-474 | The server then has had the whole stream, returned or still buffered |
| Rounds.RoundAdvances | client/srt_client.c:733-769 | In any run, a timeout whose segments land in order and whose last answer comes back frees its whole burst, whatever other events fall in between |
| Rounds.RoundsDeliver | server/srt_server.c:450-474 | As many such rounds as segments were buffered, anywhere in a run with anything in between, free them all, and the server has the stream as it was queued at the start |
| Rounds.WindowShuts | client/srt_client.c:743-760 | Any run at a connected state with more buffered than counted, no empty segment among it, and room at the server continues to one in which the counter has wrapped |
| Delivery.SomeWindowShuts | client/srt_client.c:743-760 | Between any two addresses, for any send of 1 to 999,999 bytes that is no multiple of 200, there is a run in which the counter wraps |
| Delivery.ReaderCanGetAll | server/srt_server.c:248-268 | From every reachable connected state with no empty segment in the buffer, some continuation hands the server's application the whole queued stream, whatever its length |
| Delivery.ReaderCanGetAllSent | server/srt_server.c:248-268 | When no send was a positive multiple of 200 bytes and all are queued, some continuation hands over exactly the callers' bytes |
| Delivery.ServableLengths | server/srt_server.c:234-246 | Some run serves a receive of n bytes if and only if n is below the buffer's size |
| Delivery.SomeEmptyTail | client/srt_client.c:318-321 | A run for any send of exactly 200 bytes: one empty segment queued, nothing delivered, and a buffer that the acknowledgement of the whole stream leaves as it is |
| Delivery.SomeAcceptRefuses | server/srt_server.c:203-212 | A run in which client and server are connected, the client disconnects, and the accept returns -1 |
| Calls.SendIsEvents | client/srt_client.c:290-366 | A whole call of srt_client_send is a run of the connection's events: cut, queue each fragment, send what the window allows |
| Calls.AckIsEvents | client/srt_client.c:636-663 | So is the handler's whole answer to an acknowledgement, in its two critical sections |
| Progress.ResentSynConnects | client/srt_client.c:217-240 | In every reachable state one resent SYN that gets through both ways connects, if and only if the server listens or has recorded this client |
| Progress.ResentFinDisconnects | client/srt_client.c:494-515 | In every reachable state one resent FIN that gets through both ways completes the disconnect, if and only if the server has not yet closed |
| Handshake.StepKeeps | server/srt_server.c:371-438 | Every event of any client, any stranger or the server keeps the invariant of the handshake |
| Handshake.RunKeeps | server/srt_server.c:371-438 | It holds in every state of every run |
| Handshake.OneClientGetsThrough | server/srt_server.c:373-396 | Over a whole run at most one client ever gets through to the accept, at whatever moments; the server recorded it, with the sequence number of a SYN it really sent |
| Handshake.NothingRewinds | server/srt_server.c:399-416 | Once a SYN is accepted no event changes the recorded client or its first number, and only accepting the expected data moves the expected number |
| Handshake.RecordedForGood | server/srt_server.c:399-416 | Repeated SYNs change neither the recorded client nor its initial number |
| Handshake.DisconnectAgrees | client/srt_client.c:684-691 | With many clients too, a disconnect that succeeds leaves a server that has left its connected state |
| Checksum.FullFoldIsResidue | common/seg.c:273-275 | Folding until nothing is carried gives the residue modulo 65535, in 1..65535 for positive sums |
| Checksum.FoldTwiceIsResidue | common/seg.c:273-278 | So do the two fixed steps, for sums below 2^32 + 65535 |
| Checksum.TwoStepsReach | common/seg.c:263-278 | The two steps agree with full folding on every buffer of n words if and only if n <= 65538 |
| SegmentImage.PassesMeans | common/seg.c:309-316 | A segment passes exactly when its covered words sum to a positive multiple of 65535 |
| SegmentImage.StampedPasses | common/seg.c:248-279 | A freshly stamped segment always passes, and stamping does not change what is covered |
| SegmentImage.StampKeepsTheRest | common/seg.c:248-279 | Stamping changes no byte outside the checksum field, which then holds the checksum computed with the field cleared |
| SegmentImage.RestampChangesNothing | common/seg.c:250-251 | A segment that is stamped and sent again goes out with the same bytes |
| SegmentImage.FlipByteIsXor | common/seg.c:227-232 | The injector's flip inverts exactly the binary digit of the byte that its index names |
| SegmentImage.ByteOrderDoesNotMatter | common/seg.c:260-278 | Host byte order changes neither the verdict nor the bytes stored as checksum |
| SegmentImage.CoveredFlipFails | common/seg.c:284-317 | A flipped covered bit of a valid segment fails the check, as long as the same words stay covered |
| SegmentImage.FlipOutsideTypeIsCaught | common/seg.c:218-239 | Any flipped covered bit outside the type field of a stamped segment is rejected |
| SegmentImage.FlippedDataType | common/seg.c:284-291 | A flipped type bit of a DATA segment passes if and only if the header sum is positive and the data sum cancels the change |
| SegmentImage.FlippedControlType | common/seg.c:284-291 | A flipped type bit of a control segment passes if and only if it becomes DATA and the bytes behind the header cancel the change |
| SegmentImage.FlippedControlIsCaught | common/seg.c:218-239 | Any flipped header bit of a control segment without data is rejected, type field included |
| SegmentImage.FlippedDataCanPass | common/seg.c:284-291 | On a host of either byte order, every DATA segment whose data sums to 1 passes as a DATAACK after its lowest type bit is flipped |
| SegmentImage.FlipVerdict | common/seg.c:284-317 | The exact verdict on every single-bit error in a valid segment, wherever it hits |
| SegmentImage.HitTypes | common/seg.h:18-23 | One flipped type bit makes DATA a SYN, a DATAACK or an undefined type, never a SYNACK, FIN or FINACK |
| SegmentImage.Accumulate | common/seg.c:251-278 | The loop over the covered words computes the folded complement of their sum |
| SegmentImage.Stamp | common/seg.c:248-279 | In place: clears the checksum field, computes and stores the checksum, leaving the stamped segment whose other bytes are as they were (SegmentImage.StampKeepsTheRest) |
| SegmentImage.Check | common/seg.c:284-317 | 1 for a valid segment, -1 for any other |
| SegmentImage.Lose | common/seg.c:218-239 | Loses the segment, flips one bit of it in place, or leaves it alone |
| Framing.FrameResets | common/seg.c:59-112 | The receiver is back in its start state at every frame boundary, whatever the payload holds |
| Framing.NoiseBeforeFrame | common/seg.c:59-70 | Bytes without `!` before a frame do it no harm; a single `!` right before it hides the whole frame, if its payload has no `!` |
| Framing.FrameRoundTrip | common/seg.c:24-38 | A frame comes out as its own payload, once, if and only if the payload does not contain the closing delimiter; ending in `!` is harmless |
| Framing.FramesAreIsolated | common/pkt.c:262-304 | No frame's content affects what another frame hands over |
| Framing.CleanPayloadSurvives | common/pkt.c:262-304 | A clean payload comes out whole, once and in its place, whatever frames surround it |
| Framing.FramesFit | common/pkt.c:258-304 | Frames of payloads of at most the buffer's size never write past it, however dirty |
| Framing.PutByte | common/pkt.c:263-303 | One byte taken in place is one step of the machine; the rest of the buffer is untouched |
| Framing.ReceiveFrame | common/pkt.c:256-305 | The byte loop hands over exactly the first frame the machine ends, or reads all there is and finds none |
| Link.ReceiveSegment | common/seg.c:47-115 | Returns the first frame that survives loss, corruption and check, all earlier ones having been dropped; the buffer is not cleared in between |
| Link.TakeFrame | common/seg.c:87-101 | Copies a segment out of the buffer, loses or corrupts it, and keeps it only if it passes |
| Link.ArrivalsAreDecided | common/seg.c:13-115 | For stamped and framed segments, what each becomes depends only on itself and its own fate, with the exact verdict for every bit |
| Link.WhatArrivesWasSent | common/seg.c:87-101 | For a segment as the code builds it (only DATA has bytes behind its header) and a bit error within the bytes it uses: unless the error hits the type field of DATA, it is received exactly when intact, and then as it was sent, which is the segment itself outside its checksum field |
| Link.WhatArrivesWasSentOrHit | common/seg.c:87-101 | For every fate within the bytes such a segment uses: intact, it is received as stamped, the segment itself outside its checksum field; lost, not at all; hit by a bit error, not at all or as DATA changed in one byte of its type field alone, to a SYN, a DATAACK or an undefined type |
| Link.HitArrives | common/seg.c:87-101 | On a host of either byte order, any DATA segment whose data sums to 1 is received as a DATAACK when the lowest bit of its type is hit |
| Layout.LaidFields | common/seg.h:27-43 | Where each field of a segment lies in memory, in the host's byte order, with zeros behind the data |
| Layout.StampedIsParsed | common/seg.h:27-43 | Round trip: ports, number, length, type and data that are laid out and stamped are read back as they were |
| Layout.ParsedIsSentOrHit | common/seg.c:218-239 | For every fate that the loss simulator can give a segment: intact, its receiver reads exactly the segment that was sent; lost, nothing; with a bit error, nothing, or DATA as a SYN, a DATAACK or an undefined type with every other field as sent |
| Transit.CrossesWhole | common/pkt.c:256-305 | A payload is copied out whole at the other end of a connection if and only if no closing delimiter comes before its very end |
| Transit.PacketCarries | network/network.c:331-334 | The header of the packet built around a segment reads back as the source's ID, the ID the segment was addressed to, the segment's size and type SNP; unpacking it gives the source's node ID and the segment; the rest is zero |
| Transit.HopIsWhole | common/pkt.c:126-178 | From one network process through both overlay processes to the next, a packet arrives as it was if and only if it is whole alone and behind the next hop's ID |
| Transit.WayIsWhole | common/seg.c:121-210 | Over any number of hops, what comes out at the other end is the source's ID and the segment as stamped, if and only if they are whole in every enclosing frame |
| Transit.SegmentArrives | common/seg.c:47-115 | Such a segment is received with its sender's ID exactly as its fate and the check decide, whatever the last buffer held; outside the checksum field the bytes handed up are the segment's own |
| Passage.HeaderDecides | network/network.c:152-169 | What a node does with a packet is decided by the destination in its header: up at the node it was addressed to, else to the next hop for that node in the tables |
| Passage.RideIsJourney | network/network.c:152-169 | A packet carried by its own header and the tables of the nodes it comes to, in any interleaving with route updates, is never altered and makes a journey of the routing theorems |
| Passage.PacketReachesItsAddress | network/network.c:152-169 | At every moment it is handed up exactly at the node it was addressed to and elsewhere sent to a neighbour strictly nearer to that node; after as many hops as the distance at which it was sent it is there |
| Passage.CanArrive | network/network.c:331-345 | From every moment, some continuation brings a packet that is whole in every frame to that node |
| Passage.SegmentIsDelivered | network/network.c:331-345 | From fields to fields: at that node the packet is handed up, and the receiver reads exactly the segment that was sent, or nothing when it was lost or found corrupted, or DATA hit in its type |

## Left out

- Sockets, connection set-up, hostnames, `topology.dat` parsing, process start, signal handlers, printing, table destruction: I/O only. The topology enters as a symmetric cost function with costs 1..998 on links, so links configured at 0 or at 999 and above are not covered.
- Failure of `malloc` or of a send, including the early return of `sendMaxSegments` with the lock held.
- Clocks, polling intervals and retry limits: a timeout, a resend and giving up may happen at any moment. The `sentTime` fields are not modelled.
- `rand()` in `seglost` is a parameter: any fate for any segment, over all bits of the segment instead of the bytes in use only.
- Data races finer than one critical section: unlocked reads in polling loops, the state field written without a lock, and the window between connecting threads. The routing daemon's unlocked read is modelled.
- Several incarnations of a connection on one socket pair, closing sockets, and sequence numbers beyond 2^32 bytes: the code has no mechanism for them, so a connection is one SYN-to-FIN life of fewer than 2^32 bytes.
- Finding the control block by port number, and more than one connection per process.
- What a process prints about a segment of an undefined type is not modelled; such a segment is one kind, which both handlers ignore.
- Segments that are not whole in some enclosing frame: `Transit` proves exactly which; what a receiver then copies from stale buffer bytes is followed in `Link.ReceiveSegment` over one connection, and not further on its way.
- Layout.Parsed: a length field above 200 is read as 200, where the code would copy beyond the segment; no segment that is sent has one, and an error in a length field is always caught.
- The bytes of a route update: `Router` takes its lines as they are read, and `Passage` sends segments only.
- Overlays of more than MAX_NODE_NUM (10) nodes overrun the route update's entry array in the code; the theorems are about any finite graph and do not say that.
- The odd-length branches of the checksum (`common/seg.c:270-271`, `common/seg.c:305-306`) cannot be reached: 24 and 224 bytes are covered.
- Handshake.StepKeeps: acknowledgements are covered by letting a connected client's send buffer change in any way, which over-approximates them.
- Client.ClientTcb.HandleSegment: the handler's two critical sections of an acknowledgement are one call here; `Session` keeps them apart, and `Calls.AckIsEvents` relates the two.
- Memory is reclaimed by Dafny: unlinking a segment stands for `free`. That no pointer is left to an unlinked segment is the precondition of `SendBuffer.SendQueue.Free`, discharged for every run by `SessionTheorems.AcksAreSafe`.
- The overlay's own neighbour loop and the example applications: copying a packet to every neighbour is the broadcast event of `RoutingNet`.
