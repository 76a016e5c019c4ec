# Verified models of ns-2.35

A Dafny model of eight parts of the ns-2.35 network simulator, with proofs of what they promise. Each part has
its state as values and its steps as functions, the theorems about all runs, and beside them classes whose
methods do the source's in-place work and are proved to compute those functions.

- **AODV routing** (`Aodv*.dfy`). N agents and every packet ever sent; a packet may be lost, late, repeated or out
  of order, and may reach any node. `AodvHandlers` holds the handlers, `AodvSteps` what one step of a node may do,
  `AodvStepProofs` that every handler does no more, `AodvExactRequests` and `AodvExactLosses` what it does exactly,
  `AodvRequestIds` that broadcast ids name requests, `AodvNetwork` the invariant of the network, `AodvTheorems` the
  results, `AodvLocalRepair` the protocol with local repair, `AodvDiscovery` the bound on route discovery, `AodvAgent`
  the agent as an object, `AodvSendBuffer` its linked packet queue, `AodvBroadcastIds` its list of ids.
- **asim bandwidth allocation** (`AsimFairness.dfy`, `AsimAllocation.dfy`). What weighted max-min fairness is, and the
  bottleneck loop that computes it over arrays.
- **asim queue formulas** (`AsimQueueing.dfy`, `AsimRed.dfy`). The M/M/1/K formulas and the RED operating point.
- **BayFullTcp reassembly** (`BaySegments.dfy`, `BayQueue.dfy`). Section 3.9 of RFC 793, SEGMENT ARRIVES, as the code
  does it: a doubly linked queue and an in-order point that agent and queue share.
- **Token bucket filter** (`TokenBucket.dfy`).
- **Reservation with admission control** (`Reservation.dfy`, `ReservationLink.dfy`).
- **AOMDV path lists** (`AomdvPaths.dfy`, `AomdvNetwork.dfy`).
- **Multipath round robin** (`RoundRobin.dfy`).

`dafny verify dfyconfig.toml` checks all of it.

## How to read the model

- Real numbers stand for `double`, mathematical integers for sequence numbers and TCP offsets. AODV hop counts in
  packets are bytes and are reduced modulo 256. The theorems about runs hold for any number of nodes while no carried
  hop count has reached infinity, which is 255; with at most 224 nodes none ever does
  (`AodvTheorems.SmallNetworksFit`).
- The clock, the round-trip time per hop that the discovery history gives, the value that the cast of a negative
  lifetime happens to have, and the square root in the RED formula are inputs.
- A run is any sequence of events. Events that cannot happen are passed over, so the theorems hold of every
  sequence.
- A packet may be delivered to any node, whatever its radio range. That only adds runs.

## Where the code is not what it looks like

- AODV: the first request for a destination is network-wide, because an entry starts with a last hop count of 255;
  the branch with TTL_START is dead (`AodvDiscovery.FirstRequestIsNetworkWide`).
- AODV: aodv.h:49 defines local repair, and with it routes can loop: `AodvLocalRepair.LocalRepairLoops` is a run that
  does. A timeout that finds the route still under repair takes it down without raising its number; no other step
  loses rank (`AodvLocalRepair.StepKeepsRanksIff`), and runs without such a timeout are free of loops
  (`AodvLocalRepair.CalmRunsAreLoopFree`). The timeout rings later than meant, because local_rt_repair passes the time
  of the request's timeout as a delay. A route under repair also fails the assert at aodv.cc:357
  (`AodvLocalRepair.RepairTripsAssert`). The theorems in the other files are about the protocol without local repair.
- asim: `Lq` is one half of the expected number waiting, except at load 1 (`AsimQueueing.LqIsExactIff`).
- asim: the allocation is max-min fair only when every link has room for its normal flows
  (`AsimAllocation.Asim.NewUpdate` gives both directions).
- BayFullTcp: a partly repeated segment is trimmed in `recv` but not in `add` (`BaySegments.PartialOverlapIff`,
  `BaySegments.PartialOverlapFails`).
- Token bucket: a packet larger than the bucket is sent all the same once it is at the head
  (`TokenBucket.ConformsToAllIff`, with the run in `TokenBucket.OversizeIsSent`).
- SALink: `SA_Agent::stop` sends a teardown without a look at the decision. The links stay right exactly when the
  decision was 1 (`Reservation.TeardownAgreesIffAccepted`, and a run with a 0 in `Reservation.RefusedThenTornDown`);
  the sources in the other theorems send it only after acceptance.
- AOMDV: a first path is inserted without a look at the maximum (`AomdvNetwork.BoundHoldsIff`).

## Model

| member | source | states |
|---|---|---|
| `AodvTheorems.LoopFreedom` | ns-allinone-2.35/ns-2.35/aodv/aodv.cc:654-935 | in every state of every run of N nodes, any N, with any loss, delay, duplication and reordering, as long as no hop count carried so far has reached infinity (255), following next hops of up routes towards any destination visits no node twice and ends within N nodes |
| `AodvTheorems.SmallNetworksFit` | ns-allinone-2.35/ns-2.35/aodv/aodv.cc:712-733 | in a run of at most 224 nodes no carried hop count ever reaches infinity |
| `AodvTheorems.SmallNetworksAreLoopFree` | ns-allinone-2.35/ns-2.35/aodv/aodv.cc:654-935 | so with at most 224 nodes there is no loop, without any assumption |
| `AodvTheorems.WalkEndsAtDestination` | ns-allinone-2.35/ns-2.35/aodv/aodv.cc:1001-1059 | a walk along up routes that cannot go on stands at the destination or at a node without an up route |
| `AodvTheorems.RankImproves` | ns-allinone-2.35/ns-2.35/aodv/aodv.cc:766-820 | each hop of such a walk has a strictly better (number up, then hops down) than every node before it |
| `AodvTheorems.RanksNeverWorsen` | ns-allinone-2.35/ns-2.35/aodv/aodv.cc:348-430 | over any stretch of a run no entry gets worse in (number, hops), and no own number falls |
| `AodvTheorems.FlightClaimsAreBacked` | ns-allinone-2.35/ns-2.35/aodv/aodv.cc:654-935 | every request or reply in flight offers a route strictly worse than its last sender's own entry, with an even number its destination gave out and a hop count from 1 to 30 plus the number of nodes |
| `AodvTheorems.NumbersAreAuthored` | ns-allinone-2.35/ns-2.35/aodv/aodv.cc:756-766 | own numbers are even; no entry, request or error carries a number above the destination's own plus one; up entries are even, down ones odd or 0 |
| `AodvTheorems.AnswerRaisesByTwo` | ns-allinone-2.35/ns-2.35/aodv/aodv.cc:751-766 | a destination that answers a request raises its number by exactly 2 and replies with it |
| `AodvTheorems.AssertsHold` | ns-allinone-2.35/ns-2.35/aodv/aodv.cc:354-369 | up if and only if the hop count is not infinite, with the parity of both sides, in every reachable entry: the state and parity asserts cannot fire |
| `AodvTheorems.RunKeepsInv` | ns-allinone-2.35/ns-2.35/aodv/aodv.cc:654-1183 | every state of every run satisfies the invariant: ranks, parities, authorship, and a chain of distinct nodes behind every hop count |
| `AodvTheorems.LinkFailureIsExact` | ns-allinone-2.35/ns-2.35/aodv/aodv.cc:348-383 | a lost link takes down exactly the routes over it, each with its number raised by one and reported with that number, and leaves the others |
| `AodvTheorems.PurgeLeavesNoExpiredRoute` | ns-allinone-2.35/ns-2.35/aodv/aodv.cc:504-550 | after rt_purge no expired route is up |
| `AodvLocalRepair.TimeoutKeepsRankIff` | ns-allinone-2.35/ns-2.35/aodv/aodv.cc:187-212 | with local repair compiled in, its timeout leaves what the node knows at least as good as before if and only if the route was no longer in repair: it takes the route down without raising its number |
| `AodvLocalRepair.RepairIff` | ns-allinone-2.35/ns-2.35/aodv/aodv.cc:320-383 | a failed link leads to a repair exactly when the packet was forwarded more often than the route has hops to go, and the route keeps rank and next hop then; otherwise a route over the lost neighbour, under repair or not, goes down with the next number, and any other stays |
| `AodvLocalRepair.RepairKeepsPacket` | ns-allinone-2.35/ns-2.35/aodv/aodv.cc:386-400 | a repair buffers the packet and asks if a request is due; only a search given up at that moment drops it |
| `AodvLocalRepair.StepKeepsRanksIff` | ns-allinone-2.35/ns-2.35/aodv/aodv.cc:187-400 | in any state that satisfies the invariant, while the hop counts sent stay below infinity or there are at most 224 nodes, a step of the protocol with local repair makes no node know less if and only if it is not an alarm that rings for a route still under repair |
| `AodvLocalRepair.CalmRunsAreLoopFree` | ns-allinone-2.35/ns-2.35/aodv/aodv.cc:187-400 | a run with local repair in which no alarm rings for a route still under repair is free of loops, for any number of nodes while carried hop counts stay below infinity, and for at most 224 without assumption |
| `AodvLocalRepair.RepairTripsAssert` | ns-allinone-2.35/ns-2.35/aodv/aodv.cc:348-362 | a run from the initial state after which losing the link again reaches a route over it that is under repair, where handle_link_failure asserts it is up |
| `AodvLocalRepair.LocalRepairLoops` | ns-allinone-2.35/ns-2.35/aodv/aodv.cc:187-212 | with local repair a run from the initial state of four nodes ends with two nodes routing to each other, and all of it but the ringing alarm and the answer that comes after it is calm |
| `AodvNetwork.NodeStepKeepsInv` | ns-allinone-2.35/ns-2.35/aodv/aodv.cc:654-1264 | any step that only accepts fresher offers and raises numbers when it takes a route down keeps the invariant of the whole network, if the hop counts it sends stay below infinity or there are at most 224 nodes |
| `AodvNetwork.HandleIsStep` | ns-allinone-2.35/ns-2.35/aodv/aodv.cc:557-650 | every event at a node is such a step |
| `AodvNetwork.StepKeepsInv` | ns-allinone-2.35/ns-2.35/aodv/aodv.cc:557-650 | every event at any node keeps the network invariant, under the same condition |
| `AodvNetwork.ChainBoundsHops` | ns-allinone-2.35/ns-2.35/aodv/aodv.cc:712-733 | a hop count in flight is at most 30 plus the number of nodes |
| `AodvNetwork.ChainExtends` | ns-allinone-2.35/ns-2.35/aodv/aodv.cc:824-890 | a node that accepts an offer extends the chain of distinct nodes behind it |
| `AodvStepProofs.RecvRequestStep` | ns-allinone-2.35/ns-2.35/aodv/aodv.cc:654-820 | recvRequest keeps the node well formed, accepts only fresher offers, and sends only what its entries back |
| `AodvStepProofs.RecvReplyStep` | ns-allinone-2.35/ns-2.35/aodv/aodv.cc:824-935 | the same of recvReply |
| `AodvStepProofs.RecvErrorStep` | ns-allinone-2.35/ns-2.35/aodv/aodv.cc:939-993 | the same of recvError: a route goes down only with the strictly larger number reported |
| `AodvStepProofs.NbDeleteStep` | ns-allinone-2.35/ns-2.35/aodv/aodv.cc:1354-1371 | the same of nb_delete and handle_link_failure: the own number rises by 2, lost routes by 1 |
| `AodvStepProofs.RtPurgeStep` | ns-allinone-2.35/ns-2.35/aodv/aodv.cc:504-550 | the same of rt_purge |
| `AodvStepProofs.RtResolveStep` | ns-allinone-2.35/ns-2.35/aodv/aodv.cc:437-501 | the same of rt_resolve |
| `AodvStepProofs.SendRequestStep` | ns-allinone-2.35/ns-2.35/aodv/aodv.cc:1063-1183 | the same of sendRequest, whose own number stays even |
| `AodvDiscovery.DiscoveryIsBounded` | ns-allinone-2.35/ns-2.35/aodv/aodv.cc:1084-1145 | until a route comes up or the agent gives up, any sequence of events makes it send at most 3 limited and 4 network-wide requests, none with a TTL above 30 |
| `AodvDiscovery.AsksAreCounted` | ns-allinone-2.35/ns-2.35/aodv/aodv.cc:1084-1145 | the requests sent over any events are exactly what the measure on rt_req_last_ttl and rt_req_cnt lost |
| `AodvDiscovery.AttemptProgress` | ns-allinone-2.35/ns-2.35/aodv/aodv.cc:1075-1145 | an attempt is refused exactly before its time, waits at most 10 s for the next, gives up exactly when the network-wide requests are used, and otherwise lowers the measure by one |
| `AodvDiscovery.FirstRequestIsNetworkWide` | ns-allinone-2.35/ns-2.35/aodv/aodv.cc:1099-1113 | the branch for a last TTL of 0 is never taken: a destination never reached is first asked for network-wide |
| `AodvExactRequests.RequestAnsweredIff` | ns-allinone-2.35/ns-2.35/aodv/aodv.cc:773-820 | with the reverse route in, a node that is not the destination replies exactly if its route to it is finite and its number at least the one asked for: once, towards the source, with number, hop count, lifetime and precursors of that entry; otherwise it relays the request once with the larger number, unless the TTL runs out |
| `AodvExactRequests.RepliesIffFreshEnough` | ns-allinone-2.35/ns-2.35/aodv/aodv.cc:773-774 | so a reply is among what it sends exactly if its route is fresh enough |
| `AodvExactRequests.DestinationAnswersOnce` | ns-allinone-2.35/ns-2.35/aodv/aodv.cc:744-771 | the destination answers every new request, once, with the next even number above its own and the one asked for |
| `AodvExactRequests.RequestInstallsReverseRoute` | ns-allinone-2.35/ns-2.35/aodv/aodv.cc:683-736 | a new request is remembered; a route back to its source is installed exactly if fresher, with the lifetime of the source's rule, and then what waits for the source leaves along it; every other route stays |
| `AodvExactRequests.OldRequestIsIgnored` | ns-allinone-2.35/ns-2.35/aodv/aodv.cc:665-681 | a request of one's own or seen before does nothing |
| `AodvExactRequests.FreshReplyIsAccepted` | ns-allinone-2.35/ns-2.35/aodv/aodv.cc:851-934 | a fresher reply is installed and lives for the lifetime replied unless used at once; what waits leaves along it; it goes on towards the source exactly if the node is not the source, has a finite route to it and the TTL allows; other routes stay |
| `AodvExactRequests.StaleReplyIsIgnored` | ns-allinone-2.35/ns-2.35/aodv/aodv.cc:851-909 | a reply that is not fresher changes no route and sends nothing |
| `AodvExactRequests.RequestIsSentIff` | ns-allinone-2.35/ns-2.35/aodv/aodv.cc:1063-1183 | a request of one's own goes out exactly when due and the search is not exhausted, with the next number and broadcast id; an exhausted search is given up and its packets dropped; one that is not due changes nothing |
| `AodvExactRequests.RingWidens` | ns-allinone-2.35/ns-2.35/aodv/aodv.cc:1099-1145 | below the threshold the ring grows by two hops, from there on the request is network-wide and counted; the wait is twice the round trip over the TTL times that count, at most 10 s |
| `AodvExactRequests.PacketIsRouted` | ns-allinone-2.35/ns-2.35/aodv/aodv.cc:437-501 | a packet leaves along an up route; without one another node's packet is reported as undeliverable, or buffered while under repair; other routes stay |
| `AodvExactRequests.OwnPacketWaits` | ns-allinone-2.35/ns-2.35/aodv/aodv.cc:461-467 | one's own packet without a route is buffered and asked for; only a search given up at that moment drops it |
| `AodvExactRequests.ReceivedPacketGoesOn` | ns-allinone-2.35/ns-2.35/aodv/aodv.cc:583-602 | a received packet is dropped if it is one's own or its TTL runs out, and goes on with one hop less otherwise |
| `AodvExactLosses.ErrorIsExact` | ns-allinone-2.35/ns-2.35/aodv/aodv.cc:939-993 | a route goes down exactly if it runs over the node that sent the error and some number reported for it is at least its own, then with the first such number; it is passed on exactly if somebody upstream uses it; every other route stays |
| `AodvExactLosses.LinkLossIsExact` | ns-allinone-2.35/ns-2.35/aodv/aodv.cc:348-383 | a lost link takes down exactly the routes over it with the next number, reports exactly those, and drops the neighbour from every precursor list |
| `AodvExactLosses.PurgeIsExact` | ns-allinone-2.35/ns-2.35/aodv/aodv.cc:504-550 | for every destination in the table: an up route goes down exactly if expired, with the next number, and its packets are dropped; one that has not expired stays and what waits leaves along it; for any other, a request goes out as soon as one is due while a packet waits |
| `AodvExactLosses.ExpiryIff` | ns-allinone-2.35/ns-2.35/aodv/aodv.cc:510-526 | rt_purge takes a route down if and only if it is up and has expired |
| `AodvExactLosses.PurgeLeavesOthers` | ns-allinone-2.35/ns-2.35/aodv/aodv.cc:504-550 | packets for a destination that is not in the table stay |
| `AodvExactLosses.IdForgottenIff` | ns-allinone-2.35/ns-2.35/aodv/aodv.cc:243-255 | exactly the broadcast ids whose time has come are forgotten |
| `AodvExactLosses.NeighborRaisesNumber` | ns-allinone-2.35/ns-2.35/aodv/aodv.cc:1326-1335 | a neighbour found raises the own number to the next even one |
| `AodvRequestIds.IdsNameRequests` | ns-allinone-2.35/ns-2.35/aodv/aodv.cc:1166-1180 | in every run two requests with one source and one broadcast id are copies of one request, and its source sent it once |
| `AodvAgent.Agent.constructor` | ns-allinone-2.35/ns-2.35/aodv/aodv.cc:138-152 | the agent starts with number 2, broadcast id 1 and empty tables |
| `AodvAgent.Agent.RecvRequest` | ns-allinone-2.35/ns-2.35/aodv/aodv.cc:654-820 | the imperative handler computes the function of the state that the theorems are about; its asserts hold |
| `AodvAgent.Agent.InstallReverseRoute` | ns-allinone-2.35/ns-2.35/aodv/aodv.cc:690-736 | the same of the reverse-route half |
| `AodvAgent.Agent.AnswerOrRelay` | ns-allinone-2.35/ns-2.35/aodv/aodv.cc:738-820 | the same of the half that answers or relays |
| `AodvAgent.Agent.RecvReply` | ns-allinone-2.35/ns-2.35/aodv/aodv.cc:824-935 | the same of recvReply, with its asserts |
| `AodvAgent.Agent.RecvError` | ns-allinone-2.35/ns-2.35/aodv/aodv.cc:939-993 | the same of recvError, with its asserts |
| `AodvAgent.Agent.HandleLinkFailure` | ns-allinone-2.35/ns-2.35/aodv/aodv.cc:348-383 | the same of the loop over the route list, with its asserts |
| `AodvAgent.Agent.NbDelete` | ns-allinone-2.35/ns-2.35/aodv/aodv.cc:1354-1371 | the same of nb_delete |
| `AodvAgent.Agent.SendRequest` | ns-allinone-2.35/ns-2.35/aodv/aodv.cc:1063-1183 | the same of sendRequest, which drains the send buffer when it gives up |
| `AodvAgent.Agent.RtResolve` | ns-allinone-2.35/ns-2.35/aodv/aodv.cc:437-501 | the same of rt_resolve |
| `AodvAgent.Agent.RtPurge` | ns-allinone-2.35/ns-2.35/aodv/aodv.cc:504-550 | the same of the purge loop over the route list |
| `AodvAgent.Agent.IdInsert` | ns-allinone-2.35/ns-2.35/aodv/aodv.cc:221-228 | a broadcast id is put at the head of the list, with its time of expiry |
| `AodvAgent.Agent.IdLookup` | ns-allinone-2.35/ns-2.35/aodv/aodv.cc:231-240 | the walk over the list finds an id exactly when it is known |
| `AodvAgent.Agent.IdPurge` | ns-allinone-2.35/ns-2.35/aodv/aodv.cc:243-255 | the walk over the list removes exactly the broadcast ids that expired |
| `AodvAgent.Agent.DeliverBuffered` | ns-allinone-2.35/ns-2.35/aodv/aodv.cc:885-898 | forwards the buffered packets for a destination oldest first and leaves the others |
| `AodvAgent.Agent.Forward` | ns-allinone-2.35/ns-2.35/aodv/aodv.cc:1001-1032 | a packet leaves by the next hop of its route unless its TTL is 0 or it is ours |
| `AodvSendBuffer.PurgesAgree` | ns-allinone-2.35/ns-2.35/aodv/aodv_rqueue.cc:204-260 | on a buffer in deadline order the general purge removes exactly what the commented-out head-only purge would |
| `AodvSendBuffer.OrderIsKept` | ns-allinone-2.35/ns-2.35/aodv/aodv_rqueue.cc:50-138 | as time moves forward every operation keeps the deadlines in order |
| `AodvSendBuffer.EveryPacketIsAccountedFor` | ns-allinone-2.35/ns-2.35/aodv/aodv_rqueue.cc:50-260 | over any sequence of enque, deque and purge at any times, the packets put in are, as multisets, those still there, those taken out, those that aged and those pushed out of a full buffer; there are never more than 64 |
| `AodvSendBuffer.ReachableBuffersAreOrdered` | ns-allinone-2.35/ns-2.35/aodv/aodv_rqueue.cc:204-260 | over any such sequence in which time moves forward, deadlines are in order, so that the general purge and the head-only purge always agree |
| `AodvSendBuffer.NothingIsLost` | ns-allinone-2.35/ns-2.35/aodv/aodv_rqueue.cc:107-260 | as multisets, what stays and what one purge or one draining takes out make up what was there |
| `AodvSendBuffer.TakesOldestFirst` | ns-allinone-2.35/ns-2.35/aodv/aodv_rqueue.cc:107-138 | packets for a destination come out oldest first, the others keep their order |
| `AodvSendBuffer.SendBuffer.Enque` | ns-allinone-2.35/ns-2.35/aodv/aodv_rqueue.cc:51-85 | the linked list becomes the live packets, without the oldest if there were 64, followed by the new one with its deadline |
| `AodvSendBuffer.SendBuffer.Deque` | ns-allinone-2.35/ns-2.35/aodv/aodv_rqueue.cc:107-138 | returns the oldest live packet for the destination and leaves the other live packets; never an aged one |
| `AodvSendBuffer.SendBuffer.DequeHead` | ns-allinone-2.35/ns-2.35/aodv/aodv_rqueue.cc:88-103 | returns the oldest live packet and leaves the others |
| `AodvSendBuffer.SendBuffer.Find` | ns-allinone-2.35/ns-2.35/aodv/aodv_rqueue.cc:141-150 | tells whether a packet for the destination waits |
| `AodvSendBuffer.SendBuffer.RemoveHead` | ns-allinone-2.35/ns-2.35/aodv/aodv_rqueue.cc:160-174 | takes the head cell off the list |
| `AodvSendBuffer.SendBuffer.FindPacketWithDst` | ns-allinone-2.35/ns-2.35/aodv/aodv_rqueue.cc:177-187 | finds the first cell for the destination and its predecessor |
| `AodvSendBuffer.SendBuffer.FindAgedPacket` | ns-allinone-2.35/ns-2.35/aodv/aodv_rqueue.cc:220-230 | finds the first aged cell and its predecessor |
| `AodvSendBuffer.SendBuffer.Purge` | ns-allinone-2.35/ns-2.35/aodv/aodv_rqueue.cc:233-260 | removes exactly the aged packets, wherever they stand |
| `AodvSendBuffer.SendBuffer.Unlink` | ns-allinone-2.35/ns-2.35/aodv/aodv_rqueue.cc:116-135 | takes a cell out of the list at head, tail or between |
| `AsimAllocation.Asim.NewUpdate` | ns-allinone-2.35/ns-2.35/asim/asim.cc:845-958 | over exact reals the rates it leaves are weighted max-min fair if and only if every link has room for what crosses it; exactly the normal flows that cross a link with room are scaled, and each of those has a bottleneck; on the first update the load of every link is at most 1.05 mu if and only if the same condition holds; later updates move lambda half way |
| `AsimAllocation.Asim.Rounds` | ns-allinone-2.35/ns-2.35/asim/asim.cc:905-944 | the while loop ends, because unscaled flows strictly decrease, in a state where no link with anything left is asked for anything |
| `AsimAllocation.Asim.ScaleBottleneck` | ns-allinone-2.35/ns-2.35/asim/asim.cc:905-932 | one round settles every unsettled normal flow of the bottleneck and keeps residual capacities and earlier ratios sound |
| `AsimAllocation.Asim.MostCongested` | ns-allinone-2.35/ns-2.35/asim/asim.cc:879-889 | finds the link with the largest ratio of asked to left, or none |
| `AsimAllocation.Asim.Start` | ns-allinone-2.35/ns-2.35/asim/asim.cc:850-869 | residual capacities and asked throughputs of every link from the short and the normal flows |
| `AsimAllocation.Asim.UpdateHelper` | ns-allinone-2.35/ns-2.35/asim/asim.cc:679-696 | the load of every link is the sum of the rates that cross it |
| `AsimAllocation.Asim.Update` | ns-allinone-2.35/ns-2.35/asim/asim.cc:699-722 | lambda is the load at first and afterwards moves towards it by the damping rule |
| `AsimAllocation.FairIffRoomy` | ns-allinone-2.35/ns-2.35/asim/asim.cc:845-958 | where the rounds end the allocation is max-min fair exactly when every link has room |
| `AsimAllocation.SettledMeansBottleneck` | ns-allinone-2.35/ns-2.35/asim/asim.cc:905-932 | the link at which a flow was scaled is saturated and the flow's ratio of final to original rate is the largest there |
| `AsimAllocation.RatiosFall` | ns-allinone-2.35/ns-2.35/asim/asim.cc:905-944 | the bottleneck ratio of a round is no larger than that of the one before |
| `AsimAllocation.WithinCapacityIffRoomy` | ns-allinone-2.35/ns-2.35/asim/asim.cc:845-958 | the final loads respect every capacity exactly when the problem is roomy |
| `AsimAllocation.SettledIffRoom` | ns-allinone-2.35/ns-2.35/asim/asim.cc:905-944 | a normal flow ends scaled exactly when it crosses a link with room |
| `AsimAllocation.SomeoneAsked` | ns-allinone-2.35/ns-2.35/asim/asim.cc:905-932 | each round scales at least one more flow |
| `AsimFairness.BottlenecksMakeFair` | ns-allinone-2.35/ns-2.35/asim/asim.cc:845-958 | a feasible allocation in which every normal flow has a bottleneck is weighted max-min fair |
| `AsimFairness.FairIsUnique` | ns-allinone-2.35/ns-2.35/asim/asim.cc:845-958 | there is only one weighted max-min fair allocation |
| `AsimQueueing.PkIsDistribution` | ns-allinone-2.35/ns-2.35/asim/asim.cc:142-151 | Pk over 0..K sums to 1 and is nowhere negative, at every load |
| `AsimQueueing.LqIsHalf` | ns-allinone-2.35/ns-2.35/asim/asim.cc:153-166 | Lq is the expected number waiting at load 1 and one half of it at every other load |
| `AsimQueueing.LqIsExactIff` | ns-allinone-2.35/ns-2.35/asim/asim.cc:153-166 | Lq is the expected number waiting if and only if the load is 1 or 0 or there is at most one place |
| `AsimRed.RedRouter.constructor` | ns-allinone-2.35/ns-2.35/asim/asim.h:65-86 | of the two loads at which the regimes change, one has a queue of length MinTh, and the other, thinned by MaxP, one of length MaxTh |
| `AsimRed.RedRouter.ComputeProbability` | ns-allinone-2.35/ns-2.35/asim/asim.h:89-112 | in all three regimes p is in [0,1), thins the load below 1, and the delay is that of the thinned queue and the queue length that RED answers with p; p is 0, in (0, MaxP] or above exactly in the regime of the load |
| `AsimRed.OperatingPointIsUnique` | ns-allinone-2.35/ns-2.35/asim/asim.h:89-112 | at most one p and delay meet those two conditions |
| `BaySegments.RunRepresents` | ns-allinone-2.35/ns-2.35/baytcp/tcp-full-bay.cc:1314-1404 | for any order and any duplicates of arrivals from one segmentation, rcv_nxt_ is the end of the longest contiguous stretch received and the queue is sorted and holds exactly the segments beyond it |
| `BaySegments.NeverBack` | ns-allinone-2.35/ns-2.35/baytcp/tcp-full-bay.cc:801-829 | rcv_nxt_ never decreases along a run |
| `BaySegments.OrderDoesNotMatter` | ns-allinone-2.35/ns-2.35/baytcp/tcp-full-bay.cc:1314-1404 | two runs that received the same segments agree on rcv_nxt_ and on what is queued |
| `BaySegments.ArriveKeeps` | ns-allinone-2.35/ns-2.35/baytcp/tcp-full-bay.cc:1054-1104 | one arrival keeps the representation and does not move rcv_nxt_ back |
| `BaySegments.UpcallIff` | ns-allinone-2.35/ns-2.35/baytcp/tcp-full-bay.cc:1083-1100 | the application is called exactly when an arrival brings a PUSH segment in order |
| `BaySegments.PartialOverlapIff` | ns-allinone-2.35/ns-2.35/baytcp/tcp-full-bay.cc:827-828 | outside one segmentation: when an arrival partly repeats what was delivered, rcv_nxt_ comes out right if and only if the queue is empty, because add computes the end from the untrimmed size |
| `BaySegments.PartialOverlapFails` | ns-allinone-2.35/ns-2.35/baytcp/tcp-full-bay.cc:827-828 | a run that reaches the failing case: bytes 0 to 9 and 20 to 29, and then 5 to 14 |
| `BaySegments.DrainStops` | ns-allinone-2.35/ns-2.35/baytcp/tcp-full-bay.cc:1381-1402 | the drain loop stops at the first byte no queued segment covers and keeps exactly what lies beyond |
| `BaySegments.InsertSorted` | ns-allinone-2.35/ns-2.35/baytcp/tcp-full-bay.cc:1335-1370 | the place the loop finds keeps the queue sorted |
| `BayQueue.BayReassemblyQueue.Add` | ns-allinone-2.35/ns-2.35/baytcp/tcp-full-bay.cc:1314-1404 | on the doubly linked list and the shared rcv_nxt_, add does what the function of the sequence says, and the list stays well formed |
| `BayQueue.BayReassemblyQueue.FindPlace` | ns-allinone-2.35/ns-2.35/baytcp/tcp-full-bay.cc:1339-1357 | the cell a segment goes after |
| `BayQueue.BayReassemblyQueue.LinkAfter` | ns-allinone-2.35/ns-2.35/baytcp/tcp-full-bay.cc:1364-1371 | links a cell in after another, in both directions |
| `BayQueue.BayReassemblyQueue.Unlink` | ns-allinone-2.35/ns-2.35/baytcp/tcp-full-bay.cc:1388-1395 | takes a cell out, in both directions |
| `BayQueue.BayReassemblyQueue.DrainHead` | ns-allinone-2.35/ns-2.35/baytcp/tcp-full-bay.cc:1381-1404 | delivers from the head up to the first gap |
| `BayQueue.BayReassemblyQueue.Clear` | ns-allinone-2.35/ns-2.35/baytcp/tcp-full-bay.cc:1297-1307 | empties the queue |
| `BayQueue.BayReassemblyQueue.Empty` | ns-allinone-2.35/ns-2.35/baytcp/tcp-full-bay.h:105 | tells whether the queue holds nothing |
| `BayQueue.BayFullTcpAgent.Recv` | ns-allinone-2.35/ns-2.35/baytcp/tcp-full-bay.cc:1054-1104 | the data path of recv does what the function of in-order point and queue says, and tells whether the application is called |
| `BayQueue.BayFullTcpAgent.Trim` | ns-allinone-2.35/ns-2.35/baytcp/tcp-full-bay.cc:801-829 | cuts off what was received before |
| `TokenBucket.ConformsToAllIff` | ns-allinone-2.35/ns-2.35/adc/tbf.cc:74-149 | whatever arrives, as long as no packet is larger than m, the bits forwarded in every interval of length T are at most bucket + rate T, if and only if the filter has no queue or a packet of size m fits the bucket |
| `TokenBucket.OversizeIsSent` | ns-allinone-2.35/ns-2.35/adc/tbf.cc:74-149 | the failing run: with a queue, a first packet larger than the bucket waits, is forwarded when the timer expires, and breaks conformance |
| `TokenBucket.NoQueueFits` | ns-allinone-2.35/ns-2.35/adc/tbf.cc:74-113 | without a queue nothing ever waits and no packet larger than the bucket is forwarded, whatever arrives |
| `TokenBucket.RunOfFittingPackets` | ns-allinone-2.35/ns-2.35/adc/tbf.cc:74-149 | with packets no larger than the bucket every run conforms, the tokens stay in [0, bucket], and accepted packets leave in order with none lost |
| `TokenBucket.LeavesAtOnceIff` | ns-allinone-2.35/ns-2.35/adc/tbf.cc:74-113 | in every run, with packets of any size, a packet that finds nothing waiting leaves at once if and only if all that has left and the packet itself keep to (bucket, rate): the filter holds back or drops only what would break it |
| `TokenBucket.WaitingHeadWouldBreak` | ns-allinone-2.35/ns-2.35/adc/tbf.cc:95-149 | at any time before its timer expires the waiting head would break (bucket, rate) |
| `TokenBucket.TokensAtExpiry` | ns-allinone-2.35/ns-2.35/adc/tbf.cc:126-149 | when the timer expires the tokens are exactly the size of the head packet, or the whole bucket if that is less |
| `TokenBucket.DepartsAtTheEarliest` | ns-allinone-2.35/ns-2.35/adc/tbf.cc:108-146 | at any time before its timer expires the waiting head is short of tokens: it leaves at the first moment it may |
| `TokenBucket.ArrivalFate` | ns-allinone-2.35/ns-2.35/adc/tbf.cc:74-113 | an arrival leaves at once exactly when nothing waits and its tokens are there, waits exactly when it may not leave and there is room, and is dropped otherwise |
| `TokenBucket.ReceiveKeeps` | ns-allinone-2.35/ns-2.35/adc/tbf.cc:74-113 | recv keeps the ledger of tokens, departures and timer |
| `TokenBucket.TimeoutKeeps` | ns-allinone-2.35/ns-2.35/adc/tbf.cc:126-149 | timeout keeps it, although it sends without checking, and its queue is never empty |
| `TokenBucket.TBF.constructor` | ns-allinone-2.35/ns-2.35/adc/tbf.cc:53-59 | the filter starts unused with an empty queue |
| `TokenBucket.TBF.Recv` | ns-allinone-2.35/ns-2.35/adc/tbf.cc:74-113 | forwards, queues or drops as the function of the state says |
| `TokenBucket.TBF.GetUpdatedTokens` | ns-allinone-2.35/ns-2.35/adc/tbf.cc:115-124 | tokens grow at the rate up to the bucket |
| `TokenBucket.TBF.Timeout` | ns-allinone-2.35/ns-2.35/adc/tbf.cc:126-149 | sends the head and sets the timer for the next; the abort on an empty queue is never reached |
| `Reservation.AllOrNothing` | ns-allinone-2.35/ns-2.35/adc/salink.cc:86-132 | once its confirmation has passed every link, over all interleavings, a flow is in no slot table of its path, and the reserved rate and flow count of every link of its path are those of the other flows plus, if the decision is 1 and no teardown has passed, this one; the decision is 1 exactly when every link granted the request |
| `Reservation.RatesAreConserved` | ns-allinone-2.35/ns-2.35/adc/param-adc.cc:78-96 | at every link, over all interleavings, the reserved rate is the sum of the rates of the flows that hold there, between 0 and utilization times bandwidth; numfl_ moves with them; the slot table holds exactly the flows still to be confirmed, each once |
| `Reservation.GrantedIffFits` | ns-allinone-2.35/ns-2.35/adc/salink.cc:86-113 | a link grants a request exactly when the rates held there leave room for its rate; the simulation ends exactly when it would be granted and no slot is free |
| `Reservation.TeardownAgreesIffAccepted` | ns-allinone-2.35/ns-2.35/adc/sa.cc:136-172 | once the confirmation has passed, a teardown leaves a link of the route in agreement with the other flows if and only if the decision was 1; after a 0 it takes one flow and one rate too many off |
| `Reservation.RefusedThenTornDown` | ns-allinone-2.35/ns-2.35/adc/sa.cc:136-172 | a run in which a flow is refused and its source stops: the link then counts a flow too few and a reserved rate below zero |
| `Reservation.StepKeeps` | ns-allinone-2.35/ns-2.35/adc/salink.cc:74-141 | every message at every link keeps those sums and tables |
| `Reservation.RequestKeeps` | ns-allinone-2.35/ns-2.35/adc/salink.cc:86-113 | a request keeps them |
| `Reservation.ConfirmKeeps` | ns-allinone-2.35/ns-2.35/adc/salink.cc:117-128 | a confirmation, with or without roll-back, keeps them |
| `Reservation.TeardownKeeps` | ns-allinone-2.35/ns-2.35/adc/salink.cc:129-134 | a teardown of an accepted flow keeps them |
| `ReservationLink.SALink.constructor` | ns-allinone-2.35/ns-2.35/adc/salink.cc:59-72 | a link starts with every slot free and a flow count of -1 |
| `ReservationLink.SALink.Recv` | ns-allinone-2.35/ns-2.35/adc/salink.cc:74-141 | recv changes reserved rate, flow count and slot table, and the decision bit, as the functions say; a full table ends the simulation |
| `ReservationLink.SALink.Lookup` | ns-allinone-2.35/ns-2.35/adc/salink.cc:185-204 | the first slot with a flow id, or with the mark of a free one |
| `ReservationLink.ParamAdc.AdmitFlow` | ns-allinone-2.35/ns-2.35/adc/param-adc.cc:89-96 | admits exactly while the reserved rate stays within utilization times bandwidth |
| `ReservationLink.ParamAdc.RejAction` | ns-allinone-2.35/ns-2.35/adc/param-adc.cc:78-81 | gives the rate back |
| `ReservationLink.ParamAdc.TeardownAction` | ns-allinone-2.35/ns-2.35/adc/param-adc.cc:84-87 | gives the rate back |
| `AomdvNetwork.PathsAreDisjoint` | ns-allinone-2.35/ns-2.35/aomdv/aomdv.cc:837-882 | in every reachable state of N nodes each route has pairwise distinct next hops and last hops, a counter that is the length of its list and at most the maximum, and is up exactly when the list is not empty |
| `AomdvNetwork.InsertionAssertHolds` | ns-allinone-2.35/ns-2.35/aomdv/aomdv.cc:856 | a request or reply with the number of an entry finds the entry up: the assert at the insertion sites cannot fire |
| `AomdvNetwork.HandleKeeps` | ns-allinone-2.35/ns-2.35/aomdv/aomdv.cc:733-1325 | every handler keeps the parities of the numbers and the shape of the path lists |
| `AomdvNetwork.RunKeepsInv` | ns-allinone-2.35/ns-2.35/aomdv/aomdv.cc:733-1325 | they hold in every state of every run |
| `AomdvPaths.LearnedKeeps` | ns-allinone-2.35/ns-2.35/aomdv/aomdv.cc:837-882 | an insertion keeps the paths disjoint and within the maximum |
| `AomdvPaths.LearnedPaths` | ns-allinone-2.35/ns-2.35/aomdv/aomdv.cc:837-882 | a newer number leaves only the offered path, an older one changes nothing, the same number keeps every path, shortens no lifetime, and brings the offered path in exactly when it was there or is disjoint from all and there is room |
| `AomdvNetwork.BoundHoldsIff` | ns-allinone-2.35/ns-2.35/aomdv/aomdv.cc:837-848 | of two or more nodes, every reachable state keeps every route within the maximum number of paths if and only if the maximum is at least 1 |
| `AomdvNetwork.FirstPathIsInserted` | ns-allinone-2.35/ns-2.35/aomdv/aomdv.cc:837-848 | a HELLO and its reception put a first path in, whatever the maximum |
| `AomdvPaths.FailedKeeps` | ns-allinone-2.35/ns-2.35/aomdv/aomdv.cc:482-508 | after a link failure no path uses the neighbour, and a route that goes down gets a larger, odd number |
| `AomdvPaths.FailedIsExact` | ns-allinone-2.35/ns-2.35/aomdv/aomdv.cc:482-508 | a lost link leaves exactly the other paths of an up route, in order; the route goes down exactly when none is left, with a number above its own and not below the highest heard, and keeps its number otherwise |
| `AomdvPaths.ReportedIsExact` | ns-allinone-2.35/ns-2.35/aomdv/aomdv.cc:1290-1325 | the same of a report from a neighbour with a recent enough number, which is remembered; an older one changes nothing |
| `AomdvPaths.PurgedIsExact` | ns-allinone-2.35/ns-2.35/aomdv/aomdv.cc:645-657 | a purge that is due leaves exactly the paths that have not expired; the route goes down exactly when none is left, with an odd number |
| `AomdvPaths.AliveInOrder` | ns-allinone-2.35/ns-2.35/aomdv/aomdv_rtable.cc:389-406 | the paths that have not expired stay in their order |
| `AomdvNetwork.LinkFailureIsExact` | ns-allinone-2.35/ns-2.35/aomdv/aomdv.cc:473-519 | over the whole table: exactly the paths over a lost link go, exactly the routes left without one go down, and exactly those of them with upstream nodes to tell are announced, with their new number |
| `AomdvNetwork.ErrorIsExact` | ns-allinone-2.35/ns-2.35/aomdv/aomdv.cc:1273-1335 | the same of an error, for the destinations it names |
| `AomdvNetwork.RequestAnsweredIff` | ns-allinone-2.35/ns-2.35/aomdv/aomdv.cc:924-1053 | a request that goes on is answered by the destination, or by a node with an up route and at least the number asked for, and relayed with the larger number otherwise |
| `AomdvNetwork.RequestIsLearned` | ns-allinone-2.35/ns-2.35/aomdv/aomdv.cc:837-882 | the offer of a request is brought to the entry of its source and to no other |
| `AomdvNetwork.OwnMessagesAreExact` | ns-allinone-2.35/ns-2.35/aomdv/aomdv.cc:1413-1528 | one's own request carries the next own number and the last number known of the destination; an error about a destination without an up route carries its number; a route in use is marked to be announced when lost |
| `AomdvPaths.PurgedKeeps` | ns-allinone-2.35/ns-2.35/aomdv/aomdv.cc:645-657 | after a purge no expired path is left in a route that was due |
| `AomdvPaths.ReportedKeeps` | ns-allinone-2.35/ns-2.35/aomdv/aomdv.cc:1290-1325 | after an error report no path through the reporting neighbour is left |
| `AomdvPaths.RtEntry.constructor` | ns-allinone-2.35/ns-2.35/aomdv/aomdv_rtable.cc:89-122 | an entry starts down with number 0 and no path |
| `AomdvPaths.RtEntry.PathInsert` | ns-allinone-2.35/ns-2.35/aomdv/aomdv_rtable.cc:181-204 | appends a path and counts it |
| `AomdvPaths.RtEntry.PathLookup` | ns-allinone-2.35/ns-2.35/aomdv/aomdv_rtable.cc:207-217 | the first path through a next hop |
| `AomdvPaths.RtEntry.DisjointPathLookup` | ns-allinone-2.35/ns-2.35/aomdv/aomdv_rtable.cc:220-230 | the first path with a next hop and a last hop |
| `AomdvPaths.RtEntry.NewDisjointPath` | ns-allinone-2.35/ns-2.35/aomdv/aomdv_rtable.cc:234-244 | true exactly when no path shares the next hop or the last hop |
| `AomdvPaths.RtEntry.PathDelete` | ns-allinone-2.35/ns-2.35/aomdv/aomdv_rtable.cc:262-274 | deletes the first path through a next hop, and counts it off |
| `AomdvPaths.RtEntry.PathDeleteAll` | ns-allinone-2.35/ns-2.35/aomdv/aomdv_rtable.cc:277-285 | empties the list |
| `AomdvPaths.RtEntry.PathEmpty` | ns-allinone-2.35/ns-2.35/aomdv/aomdv_rtable.cc:309-320 | tells whether the list is empty; its two asserts hold |
| `AomdvPaths.RtEntry.PathPurge` | ns-allinone-2.35/ns-2.35/aomdv/aomdv_rtable.cc:389-406 | leaves exactly the paths that have not expired, in order |
| `AomdvPaths.RtEntry.PathFind` | ns-allinone-2.35/ns-2.35/aomdv/aomdv.cc:1369-1376 | forward finds a path in every route that is up |
| `AomdvPaths.RtEntry.RtDown` | ns-allinone-2.35/ns-2.35/aomdv/aomdv.cc:539-561 | takes a route down and drops its paths |
| `AomdvPaths.RtEntry.Learn` | ns-allinone-2.35/ns-2.35/aomdv/aomdv.cc:837-882 | the insertion site: newer numbers replace, equal ones refresh or add a disjoint path |
| `AomdvPaths.RtEntry.LoseNeighbour` | ns-allinone-2.35/ns-2.35/aomdv/aomdv.cc:482-508 | the body of the loop of handle_link_failure |
| `AomdvPaths.RtEntry.PurgePaths` | ns-allinone-2.35/ns-2.35/aomdv/aomdv.cc:645-657 | the part of rt_purge that touches an entry |
| `AomdvPaths.RtEntry.HearError` | ns-allinone-2.35/ns-2.35/aomdv/aomdv.cc:1290-1325 | the body of the loop of recvError |
| `RoundRobin.EachOnce` | ns-allinone-2.35/ns-2.35/classifier/classifier-mpath.cc:57-65 | from any position in the table, k calls, k the number of slots in use, return each of them exactly once and nothing else |
| `RoundRobin.CallsFollowCycle` | ns-allinone-2.35/ns-2.35/classifier/classifier-mpath.cc:57-65 | j calls return the first j slots of the cycle from where the round robin stands |
| `RoundRobin.CallTurns` | ns-allinone-2.35/ns-2.35/classifier/classifier-mpath.cc:57-65 | a call takes the head of the cycle and turns it by one |
| `RoundRobin.MultiPathForwarder.Classify` | ns-allinone-2.35/ns-2.35/classifier/classifier-mpath.cc:57-65 | with a slot in use the do-while loop ends, at the next slot in use, also from a position beyond the table |
| `RoundRobin.MultiPathForwarder.constructor` | ns-allinone-2.35/ns-2.35/classifier/classifier.cc:54-62 | a classifier starts without a table |
| `RoundRobin.MultiPathForwarder.Alloc` | ns-allinone-2.35/ns-2.35/classifier/classifier.cc:79-101 | makes room, keeps the slots, and fills up with null |
| `RoundRobin.MultiPathForwarder.Install` | ns-allinone-2.35/ns-2.35/classifier/classifier.cc:104-111 | sets one slot and keeps maxslot_ the last slot in use |
| `RoundRobin.MultiPathForwarder.Clear` | ns-allinone-2.35/ns-2.35/classifier/classifier.cc:113-120 | empties one slot and moves maxslot_ back to the last slot in use |
| `RoundRobin.MultiPathForwarder.GetNxt` | ns-allinone-2.35/ns-2.35/classifier/classifier.cc:127-137 | the first slot that is free or holds the null agent, or a new one |

## Left out

- AodvTheorems.LoopFreedom: does not model the 32-bit wrap of sequence numbers, because a number that wraps is no longer ordered; beyond 224 nodes it says nothing of a run once a carried hop count has reached 255.
- AodvDiscovery.DiscoveryIsBounded: the waiting time between requests is bounded, the average discovery latency that enters it is an input.
- AodvAgent.Agent.RecvError: does not model the limit of 100 destinations in an error packet, because the array overflows silently in the source.
- AODV: local repair, outside AodvLocalRepair; jitter and ARP pacing, HELLO packets and neighbour timers (a neighbour may appear or be lost at any time), the interface queue, broadcast data, tracing and Tcl.
- AodvAgent: the route list is a sequence of addresses and a map from them to entries, and the list of broadcast ids a sequence, not linked cells.
- AsimAllocation.Asim.NewUpdate: demands are positive reals; `padhye`, which computes them, and the reading of the input file are not modelled. The lists of flows per link are required to match the routes.
- AsimRed.RedRouter.ComputeProbability: the square root is given, as a number that is not negative and has the right square.
- asim: `Po`, `Update2`, `Update3` and the iteration around `newupdate`; rounding of floating point.
- BaySegments.RunRepresents: segments without FIN, any two of them the same stretch or apart, as a sender with one segmentation produces them; for a segment that straddles the in-order point see BaySegments.PartialOverlapIff.
- BayFullTcp: connection states, acknowledgements, the sending side, `TcpAgent`, which is not part of this model.
- Reservation.AllOrNothing: flow ids are distinct, being places in the list of flows; a route crosses a link at most once, rates are not negative, messages of one flow keep their order, and a source tears down only after acceptance, at most once.
- Reservation: the other admission algorithms, the estimators, the traffic of the sources, the receiver that turns a request around (its answer passes the links unchanged).
- TokenBucket.TBF.Recv: packet sizes are bytes, eight bits each; the target connector is the record of what was sent.
- AomdvNetwork.PathsAreDisjoint: the tests on advertised hop counts and on path lengths may come out either way, because the macro INFINITY they use is not defined in the repository; loop freedom of AOMDV depends on it and is not claimed. Requires a maximum of at least 1.
- AOMDV: the path list is a sequence, not linked cells; the loops over the route table are map comprehensions, each applying one proved entry method; broadcast ids, packet salvaging and the send buffer.
- RoundRobin.EachOnce: targets are not null, and at least one slot is in use; with none the source divides by zero.
- Everything else in the simulator: schedulers, links, the other agents and classifiers, mobility, tracing, the Tcl interface.
