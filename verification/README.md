# Tendrilix, modelled and proved in Dafny

Tendrilix is a WireGuard-derived overlay network. This project models its logic cores, in the `alloc` build, and
proves what they are relied on for. `dafny verify dfyconfig.toml` checks everything.

**Allowed IPs and the peer table** (`prefixes`, `trie_arena`, `branch_points`, `trie`, `allowed_ips`, `peer_config`,
`peer_table`). The path-compressed trie in its index arena refines a finite map from (family, prefix) to payload with
longest-prefix match. Its `Full` condition is exact, and in a table that is built anew it depends on the set of
networks only: whether they, the root and the places where they branch off number at most 65535. On it stands the
device's peer table: outbound routing and inbound source filtering agree for every address and every peer in every
reachable state, whatever order peers are visited in when the shared table is rebuilt. As in the code, a peer whose
own networks nest is refused as overlapping too (tendrilix/src/device.rs:1537-1548).

**Sessions** (`replay_window`, `nonce_allocator`, `messages`, `buffers`, `session`, `ip_framing`). The circular bitmap
stands for the set of accepted counters over whole runs; concurrent senders never share a nonce; formatting, parsing,
opening and truncating a packet is the identity exactly for packets that declare their own length.

**Relaying** (`relay`, `relay_network`). An envelope passes at most seven relay-to-relay forwards over arbitrary relay
tables, unchanged but for its hop limit, and only a standard WireGuard message comes out; seven forwards do happen.

**Pending packets** (`packet_pool`, `tunnel_queue`, `shared_queues`, `arena_pool`). The intrusive lists of all tunnels
in one shared pool refine FIFO queues through every interleaving, and a removed peer strands exactly what was waiting
for it; the first-fit arena keeps regions disjoint and finds the smallest gap.

**Indices** (`linear_step`, `periods`, `lfsr`, `lfsr_powers`, `lfsr_period`, `index_generator`). The 24-bit register
step is multiplication by x modulo x^24 + x^4 + x^3 + x + 1. Its order is 2^24 - 1 = 3 * 3 * 5 * 7 * 13 * 17 * 241:
`lfsr_powers` computes the powers of x that matter, one hexadecimal digit of the exponent at a time, and `lfsr_period`
shows that no non-zero state returns early. So every index the generator ever hands out, in any interleaving of
callers, is distinct.

**Handshakes and timers** (`noise_keys`, `noise_pattern`, `noise_secrets`, `handshake`, `tunnel_timers`,
`timer_history`, `session_ring`).
The key schedule is the Noise pattern IKpsk2 and gives both ends the same session with keys and indices crossed. An
initiation is accepted exactly if the secret of the two static keys went into it, a response exactly if both its secrets
agree, and two sessions share a key exactly if all their secrets do. An initiation is answered at most once and accepted
at most once. Every operation of a tunnel is one event of a timer machine. In every run each timer is the
moment of the last event of its kind (`TimerHistory.TimersTellHistory`), and the machine's promises hold over every run of events, with looks at the clock at most d apart: sessions in use are renewed in time, initiations
are retried and given up on time, silence is noticed and data acknowledged. The timers never underflow, after every
look no live session is older than 180 s, and the newest live session is always the one in use.

Two comments of the code are not what it does. `N_SESSIONS` is called the number of recent sessions retained, and the
ring the most recent ones (tendrilix/src/noise/mod.rs:59-60 and 115). But every initiation takes an index, answered or
not, and the index chooses the slot; so the last session can be replaced while an older one stays
(`SessionRing.AnOlderOneMayOutliveTheLast`). `SessionRing.WhenASessionIsEvicted` and
`SessionRing.WhenThreeAreRetained` say exactly when sessions are replaced and retained, for any number of indices in
between. And a packet queued is said to reset the 90 s until it is given up
(tendrilix/src/noise/timers.rs:247-250). It does so if and only if no initiation is in flight, when it starts one; while
one is, nothing moves (`TunnelTimers.WhenQueueingRestarts`, with an input in `TunnelTimers.QueueingDoesNotReset`).

**A tunnel's life** (`tunnel_life`, `live_sessions`, `waiting_packets`, `live_tunnel`). A tunnel that holds its
sessions as objects with counters and windows, and its queue in the shared pool. Over its whole life, with sessions
replaced, ended and opened in any order, a packet delivered twice opens under the keys of two sessions of one index; no
session seals two packets with one counter; and every packet that had to wait still waits, or was sealed once and in
order, or waited too long, or was cleared away when the tunnel gave up.

**Route health and the reconciler** (`policy_health`, `peer_health`, `health_decisions`, `peer_tracker`,
`route_policies`, `desired_peers`, `reconciler`, `device_health`). What every sample decides is said of the sample and the
state before it. The failover machine is bounded in how often it switches and in how long it takes to leave an unanswered
route, from any state; it never leaves a live one on the first route, and returns to a better route at the first traffic
after a pause of two minutes, though never without one (`HealthDecisions.NeverReturnsWhileBusy`). A health pass that
meets no refusal samples every peer with a choice of routes and installs what is decided, so all this holds of the device
too. The reconciler keeps desired state, tracked health and device in agreement. A map reconcile that fails part-way has already moved
health to the new map (tendrilix/src/control/reconciler.rs:485-495), so agreement is stated after success, and for
each peer a health pass processes.

Conventions: times are nanosecond counts on a monotone clock that starts at zero; an address or bitmap word is the
sequence of its bits, with `BitIsShift` and `MaskIsAndNot` tying that to machine operations; bytes are numbers below
256; the shift register uses 32-bit vectors as in the code. The authenticated cipher, hash, MAC and Diffie-Hellman
functions are parameters with the laws `Lawful`, `Sound`, `BindsNonce` and `Binding` state, which `LawsCanHold` and
`CipherLawsCanHold` show can be met; keys have no fixed length, since no function into 32 bytes is free of collisions. A
configuration fingerprint is the configuration itself. No proof uses the verifier's automatic induction. A device command that may fail, a random draw and the order of a hash map are arbitrary choices.

## Model

| member | source | states |
|---|---|---|
| Prefixes.BitIsShift | tendrilix/src/allowed_ips.rs:88-92 | reading bit `i` of an address word from the front is shifting the word right by `width - 1 - i` and keeping its lowest bit |
| Prefixes.MaskIsAndNot | tendrilix/src/allowed_ips.rs:95-107 | keeping the first bits of an address word is clearing the bits of `(1 << host_bits) - 1`, also at the two lengths the code treats separately |
| Prefixes.CommonPrefixLen | tendrilix/src/allowed_ips.rs:777-787 | finds exactly the length at which two prefixes first differ, or the shorter length if they do not |
| Prefixes.PrefixesOverlap | tendrilix/src/allowed_ips.rs:790-792 | true exactly when some address of the family lies in both networks |
| Prefixes.OverlapMeansSharedAddress | tendrilix/src/allowed_ips.rs:398-403 | two prefixes share an address if and only if one extends the other |
| TrieArena.EncodeNodeIndex | tendrilix/src/allowed_ips.rs:136-143 | links are non-zero and decode to the index they encode; `Full` exactly when 16 bits do not hold it |
| TrieArena.OneParent | tendrilix/src/allowed_ips.rs:115-134 | no node is the child of two nodes, or of one node on both branches |
| TrieArena.ReachableFromRoot | tendrilix/src/allowed_ips.rs:115-134 | child links form a tree: every node of the arena is reached from the root |
| TrieArena.LongestMatchIsLongest | tendrilix/src/allowed_ips.rs:335-340 | the reference lookup returns the payload of the longest stored prefix of the key, and nothing exactly if there is none |
| TrieArena.ReplaceData | tendrilix/src/allowed_ips.rs:221-333 | storing a payload in an existing node keeps the arena a trie and changes only the entry of that prefix |
| TrieArena.AttachKeepsArena | tendrilix/src/allowed_ips.rs:221-333 | linking a new node between a node and what was below it keeps the arena a trie |
| TrieArena.AttachEntries | tendrilix/src/allowed_ips.rs:221-333 | linking a new node adds exactly its own entry to the map the arena stands for |
| PrefixTrie.InsertAbove | tendrilix/src/allowed_ips.rs:285-333 | splitting an edge with the new prefix itself stores exactly one new entry |
| BranchPoints.OneMore | tendrilix/src/allowed_ips.rs:221-333 | one more prefix adds to the nodes a set of prefixes needs its own and the one where it branches off, and nothing else |
| BranchPoints.NodesOfIncomparable | tendrilix/src/allowed_ips.rs:221-333 | n prefixes of which none extends another need between 2n - 1 and 2n + 1 nodes |
| BranchPoints.ArenaBranches | tendrilix/src/allowed_ips.rs:221-333 | wherever two prefixes of an arena branch off it has a node |
| PrefixTrie.NeededIsExact | tendrilix/src/allowed_ips.rs:221-333 | the nodes an insertion needs are those by which the needs of all prefixes together grow, so the size of the arena does not depend on the order of insertion |
| PrefixTrie.Trie.constructor | tendrilix/src/allowed_ips.rs:176-190 | a new trie is the empty map in one root node |
| PrefixTrie.Trie.Clear | tendrilix/src/allowed_ips.rs:193-210 | afterwards the trie is the empty map and occupies one node |
| PrefixTrie.Trie.Insert | tendrilix/src/allowed_ips.rs:221-333 | the map gains or changes exactly the entry of the masked prefix, the former payload is returned, and `Full` is reported, with nothing changed, exactly when the arena cannot address the nodes that are missing |
| PrefixTrie.Trie.Find | tendrilix/src/allowed_ips.rs:340-369 | path-compressed lookup equals longest-prefix match on the plain map |
| PrefixTrie.Trie.Remove | tendrilix/src/allowed_ips.rs:375-396 | exactly the entries whose payload is selected disappear; no node is freed |
| PrefixTrie.Trie.Overlaps | tendrilix/src/allowed_ips.rs:403-410 | true exactly when some stored network and the given one share an address |
| PrefixTrie.Trie.Iter | tendrilix/src/allowed_ips.rs:416-443 | every entry of the map is listed exactly once |
| AllowedIps.AllowedIPs.Insert | tendrilix/src/allowed_ips.rs:500-511 | changes exactly the entry of the network in its own family; in a table nothing was removed from, `Full` exactly if the networks with the new one do not fit |
| AllowedIps.AllowedIPs.Find | tendrilix/src/allowed_ips.rs:513-523 | longest-prefix match among the networks of the address's family |
| AllowedIps.LongestRouteIsLongest | tendrilix/src/allowed_ips.rs:513-523 | that match is the payload of the longest network containing the address, and none exactly if none contains it |
| AllowedIps.LookupIsLongest | tendrilix/src/allowed_ips.rs:513-523 | a lookup is answered exactly if some network contains the address, by the longest that does |
| AllowedIps.AllowedIPs.Overlaps | tendrilix/src/allowed_ips.rs:529-540 | true exactly when a configured network of the same family and this one share an address |
| AllowedIps.AllowedIPs.Remove | tendrilix/src/allowed_ips.rs:548-556 | exactly the selected entries of both families disappear |
| AllowedIps.AllowedIPs.Iter | tendrilix/src/allowed_ips.rs:558-565 | lists each network of both families exactly once |
| AllowedIps.TryFromIter | tendrilix/src/allowed_ips.rs:567-580 | builds the map of all insertions exactly if the nodes the networks need can be addressed, and reports `Full` otherwise |
| AllowedIps.FewFit | tendrilix/src/allowed_ips.rs:136-143 | up to 32767 networks of each family always fit |
| AllowedIps.ManyDoNotFit | tendrilix/src/allowed_ips.rs:136-143 | more than 32768 networks of a family of which none contains another never fit |
| PeerTable.RoutingAgrees | tendrilix/src/device.rs:1521-1569 | the shared table routes an address to a peer if and only if that peer is configured and one of its own networks contains the address |
| PeerTable.ClaimsAreNetworks | tendrilix/src/device.rs:1521-1569 | the claims of a peer are the prefixes of the networks it is configured with, and no others |
| PeerTable.AddRoutes | tendrilix/src/device.rs:1535-1555 | adds all routes of a peer, or fails because some routes overlap or all of them together do not fit |
| PeerTable.RebuildTable | tendrilix/src/device.rs:1521-1569 | whatever order peers are visited in, rebuilding succeeds if and only if all claims together are exclusive and fit, and yields the same routing |
| PeerTable.PeerState.RebuiltPeersByIpWith | tendrilix/src/device.rs:1521-1569 | the rebuilt table with one peer's networks replaced, exactly if the claims are exclusive and fit, or the reason there is none |
| PeerTable.PeerState.AddPeer | tendrilix/src/device.rs:665-707 | adds the peer and keeps all views of the table consistent, exactly if it is new and its networks with all others are exclusive and fit; a refused command changes nothing |
| PeerTable.PeerState.UpdatePeer | tendrilix/src/device.rs:709-743 | replaces the configuration of a known peer, keeping its index, exactly if the new networks with those of all others are exclusive and fit; refused without any change otherwise |
| PeerTable.PeerState.RemovePeer | tendrilix/src/device.rs:745-752 | the peer, its index and its routes disappear, and nothing else |
| PeerTable.PeerState.DemultiplexesToOwner | tendrilix/src/device.rs:1489-1491 | any receiver index built from a peer's 24 bits leads to that peer and to no other |
| PeerTable.PeerState.RouteTo | tendrilix/src/device.rs:764-790 | an outbound packet goes to the one peer whose own allowed IPs accept its destination |
| PeerTable.PeerState.IsAllowedIp | tendrilix/src/device.rs:1676-1679 | inbound source filtering accepts an address exactly if outbound routing sends it to that peer |
| ReplayWindow.ReceivingKeyCounterValidator.WillAccept | tendrilix/src/noise/session.rs:127-143 | accepts a counter exactly if it is within 256 of the highest and was never accepted; says which of the two failed |
| ReplayWindow.ReceivingKeyCounterValidator.MarkDidReceive | tendrilix/src/noise/session.rs:146-193 | accepts exactly what `WillAccept` would, records it, and changes nothing otherwise |
| ReplayWindow.ReceivingKeyCounterValidator.ClearSkipped | tendrilix/src/noise/session.rs:161-190 | the three clearing loops clear exactly the bits of the skipped counters |
| ReplayWindow.ReceivingKeyCounterValidator.ReceivingCounterMark | tendrilix/src/noise/session.rs:224-233 | the bitmap stands for the accepted set of the whole run, and the count of received packets is exact and never exceeds `next` |
| ReplayWindow.NeverReplayed | tendrilix/src/noise/session.rs:127-193 | in no run of counters is one accepted twice |
| ReplayWindow.ReorderingTolerated | tendrilix/src/noise/session.rs:127-193 | if no counter lags 256 or more behind, each is accepted exactly when it comes first |
| NonceAllocator.NoncesAreUnique | tendrilix/src/noise/session.rs:277-301 | in every interleaving of senders, spurious failures included, nonces are 0, 1, 2, ... without gap or repetition, below the limit |
| NonceAllocator.ExhaustedForGood | tendrilix/src/noise/session.rs:283-291 | once the limit is reached no nonce is ever emitted again |
| NonceAllocator.RefusedAfterLimit | tendrilix/src/noise/session.rs:285-291 | every send that starts after the limit was reached is refused |
| NonceAllocator.SendsUndisturbed | tendrilix/src/noise/session.rs:277-301 | in every run a sender sends, with the nonce it loaded, exactly if nobody has sent since and the exchange does not fail spuriously |
| NonceAllocator.AnyNumberIsSent | tendrilix/src/noise/session.rs:277-301 | any number of nonces up to the limit can be sent |
| Pool.PacketPool.Alloc | tendrilix/src/packet_pool.rs:258-284 | stores the packet exactly if it is small enough, the bytes fit and a slot is left; accounting stays the sum of live payloads |
| Pool.LiveBytesCount | tendrilix/src/packet_pool.rs:258-284 | each live packet counts with its bytes |
| Pool.NothingLive | tendrilix/src/packet_pool.rs:258-284 | and with none nothing is used |
| Pool.PacketPool.FreeSlot | tendrilix/src/packet_pool.rs:332-337 | hands out a free slot, never one in use, and none exactly if all are used |
| Pool.PacketPool.Free | tendrilix/src/packet_pool.rs:298-308 | exactly one slot becomes free and its bytes are given back |
| Pool.PacketPool.FreeChain | tendrilix/src/packet_pool.rs:310-315 | exactly the slots of the chain become free |
| ArenaPool.PacketPool.FindGap | tendrilix/src/packet_pool.rs:220-245 | terminates with the smallest offset at which the packet conflicts with no live one, and with none exactly if there is no such offset |
| ArenaPool.FitsWhereFree | tendrilix/src/packet_pool.rs:220-245 | a packet can be placed exactly where each of its bytes lies in the arena and in no live packet |
| ArenaPool.PacketPool.Alloc | tendrilix/src/packet_pool.rs:146-170 | places the packet disjoint from all live ones, whose bytes do not change |
| ArenaPool.PacketPool.Free | tendrilix/src/packet_pool.rs:184-190 | frees one slot and leaves the bytes of all others alone |
| TunnelQueue.Tunn.QueuePacket | tendrilix/src/noise/mod.rs:750-799 | after dropping what expired, the packet joins the end of the queue, or is dropped if the queue holds eight or the pool is full |
| TunnelQueue.Tunn.DropExpiredQueuedPackets | tendrilix/src/noise/mod.rs:801-837 | exactly the packets waiting 30 s or longer leave, the others keep their order |
| TunnelQueue.FreshIsYoung | tendrilix/src/noise/mod.rs:801-837 | what stays has waited less than 30 s, and nothing that has is dropped |
| TunnelQueue.Tunn.DequeuePacket | tendrilix/src/noise/mod.rs:857-869 | takes the oldest packet |
| TunnelQueue.Tunn.RequeuePacket | tendrilix/src/noise/mod.rs:839-855 | puts it back in front, undoing the dequeue |
| TunnelQueue.Tunn.FlushQueuedPacket | tendrilix/src/noise/mod.rs:703-748 | with a usable session sends exactly the oldest packet; without one it is the identity on the pool and the queue |
| TunnelQueue.Tunn.ClearPacketQueue | tendrilix/src/noise/mod.rs:871-878 | frees exactly the queued packets |
| TunnelQueue.UnlinkMiddle | tendrilix/src/noise/mod.rs:801-837 | unlinking a descriptor anywhere in an intrusive list leaves the list without it, still acyclic |
| TunnelQueue.OthersKept | tendrilix/src/noise/mod.rs:703-878 | an operation on one tunnel leaves every other tunnel's list intact, disjoint and with the same packets |
| SharedQueues.StepKeepsAll | tendrilix/src/noise/mod.rs:703-878 | all queues stay acyclic and pairwise disjoint through any tunnel's step |
| SharedQueues.StepLosesNothing | tendrilix/src/noise/mod.rs:703-878 | without peer removal every live slot of the pool stays in some queue |
| SharedQueues.RemovalLosesWhatWaits | tendrilix/src/device.rs:1512-1519 | removing a peer strands slots of the pool exactly if packets were waiting for it |
| SharedQueues.RemovalKeepsQueues | tendrilix/src/device.rs:1512-1519 | removing a peer keeps all other queues intact and pairwise disjoint |
| SharedQueues.Device.Queue | tendrilix/src/noise/mod.rs:750-799 | one tunnel's queue refines a FIFO of at most eight packets; the others do not change |
| SharedQueues.Device.Flush | tendrilix/src/noise/mod.rs:703-748 | sends the oldest packet of one tunnel or changes nothing; the others do not change |
| SharedQueues.Device.Clear | tendrilix/src/noise/mod.rs:871-878 | empties one tunnel's queue only |
| SharedQueues.Device.DropExpiredPacketQueues | tendrilix/src/device.rs:1571-1580 | every tunnel keeps exactly its fresh packets, in order, and all that are dropped are counted |
| RouteHealth.Decay | tendrilix/src/control/peer_health.rs:255-281 | the decay loop sheds one suspicion step per full ten minutes since the anchor, no more than there are |
| RouteHealth.DecayIgnoresCadence | tendrilix/src/control/peer_health.rs:255-281 | decaying at one time and then a later one equals decaying at the later one alone |
| RouteHealth.NotFailedForever | tendrilix/src/control/peer_health.rs:246-281 | an idle failed route is failed for less than ten minutes after its last failure |
| RouteHealth.RecordSuccess | tendrilix/src/control/peer_health.rs:213-218 | a route that just received traffic is not failed, and suspicion stays in range |
| RouteHealth.RecordFailure | tendrilix/src/control/peer_health.rs:226-238 | suspicion stays within 0..4 and `Failed` means exactly 4 |
| RouteHealth.FailsAtTheSecond | tendrilix/src/control/peer_health.rs:226-244 | a route without suspicion fails at the second unanswered sample within ten minutes of the first, one under suspicion at the first |
| RouteHealth.SuccessClears | tendrilix/src/control/peer_health.rs:213-218 | return traffic takes one step of suspicion away, ends a failure and is remembered as the last success |
| RouteHealth.SuspicionFades | tendrilix/src/control/peer_health.rs:246-281 | after k full ten-minute intervals without a failure suspicion is k steps lower, down to none |
| PeerHealthMachine.SurvivorsKeepHealth | tendrilix/src/control/peer_health.rs:399-418 | a route that survives a new route list keeps its health, however the list was reordered |
| PeerHealthMachine.BestIsLeast | tendrilix/src/control/peer_health.rs:647-698 | the chosen route is eligible and has the least suspicion, ties going to the lower index; none is chosen exactly if none is eligible |
| PeerHealthMachine.ObservedKeepsTied | tendrilix/src/control/peer_health.rs:440-503 | every sample keeps the invariant that spaces switches, ties a probe to its fallback and bounds each route's health |
| PeerHealthMachine.SwitchesAreRare | tendrilix/src/control/peer_health.rs:505-532 | in every run over a fixed route list two switches are at least 25 s apart, 120 s unless the later is a failed recovery, which undoes the probe right before it; a stretch of T seconds has at most 2*floor(T/120)+2 switches |
| PeerHealthMachine.FewSwitches | tendrilix/src/control/peer_health.rs:742-774 | the counting behind that bound, for any spaced record of switches |
| PeerHealthMachine.DeadRouteIsLeft | tendrilix/src/control/peer_health.rs:568-615 | a fresh tracker whose packets go unanswered fails over within max(25+2d, 15+jitter+d) seconds of its creation, for any sampling at most d <= 5 s apart |
| PeerHealthMachine.LiveRouteIsKept | tendrilix/src/control/peer_health.rs:505-532 | if inbound traffic was seen within 25 s at each sample, no sample at any cadence is unhealthy and the first route is never left |
| HealthDecisions.HeardDecides | tendrilix/src/control/peer_health.rs:469-493 | a sample with packets received probes exactly if there is a more preferred route, packets were sent too and the next attempt was due: the least suspect of those that may be probed; either way the next attempt is put off |
| HealthDecisions.UnansweredDecides | tendrilix/src/control/peer_health.rs:568-615 | an unanswered sample after 25 s of silence takes a probe back; else waits 15, 120, 240, 480 or 960 s and the jitter from the last switch; then probes if due; then, if the active route has failed, goes to the least suspect other one; and gives up if there is none |
| HealthDecisions.QuietDecides | tendrilix/src/control/peer_health.rs:505-524 | any other sample decides nothing |
| HealthDecisions.FirstSampleSeeds | tendrilix/src/control/peer_health.rs:440-468 | the first sample on several routes only seeds the counters, and puts the next attempt off if there was traffic |
| HealthDecisions.SwitchTakesHold | tendrilix/src/control/peer_health.rs:759-774 | a switch restarts the clocks, remembers what a probe leaves, and counts from one again if ten minutes have passed since the last |
| HealthDecisions.UnansweredRouteIsLeft | tendrilix/src/control/peer_health.rs:568-615 | from any state, in every run of unanswered samples at most d apart, a tracker that knows another route that has not failed leaves its own within d of the moment when it has been silent for 25 s and one d more, or when the wait since the last switch is over, whichever is later |
| HealthDecisions.BetterRouteIsTried | tendrilix/src/control/peer_health.rs:469-493 | in every run without a switch so far, a sample with traffic both ways probes a more preferred route exactly if there is one and 120 s and the jitter have passed since packets were last received before it |
| HealthDecisions.NeverReturnsWhileBusy | tendrilix/src/control/peer_health.rs:469-493 | a peer heard from at every sample, without a pause of 120 s, never returns to a better route, however long the run is |
| PeerTracking.JitterFrom | tendrilix/src/control/peer_health.rs:790-800 | jitter is at most 15 s |
| PeerTracking.EveryJitterIsDrawn | tendrilix/src/control/peer_health.rs:790-800 | and every whole number of seconds up to that is drawn |
| PeerTracking.PeerHealth.constructor | tendrilix/src/control/peer_health.rs:362-378 | a new tracker satisfies the invariant |
| PeerTracking.PeerHealth.SyncPolicies | tendrilix/src/control/peer_health.rs:399-418 | health entries follow the new route list by identity; the active index and the fallback are clamped into range |
| PeerTracking.PeerHealth.Observe | tendrilix/src/control/peer_health.rs:440-503 | the in-place update is the transition `HealthDecisions` says in full and the run theorems are about, and keeps the invariant |
| PeerTracking.PeerHealth.Classify | tendrilix/src/control/peer_health.rs:505-524 | the sample class the transition uses |
| PeerTracking.PeerHealth.DecideAfterUnhealthy | tendrilix/src/control/peer_health.rs:568-615 | revert, wait, probe, fail over or give up, in that order |
| PeerTracking.PeerHealth.DecideRecoveryProbe | tendrilix/src/control/peer_health.rs:620-640 | probes only when due and with real traffic; `HealthDecisions.HeardDecides` says exactly when and which route |
| PeerTracking.PeerHealth.BestRecoveryPolicy | tendrilix/src/control/peer_health.rs:647-678 | the loop finds the least eligible higher-priority route |
| PeerTracking.PeerHealth.BestFailoverPolicy | tendrilix/src/control/peer_health.rs:682-698 | the loop finds the least suspect other route that has not failed |
| PeerTracking.PeerHealth.SwitchTo | tendrilix/src/control/peer_health.rs:759-774 | a switch restarts the silence clock and the recovery schedule and remembers the fallback of a probe |
| Lfsr.StepIsInjective | tendrilix/src/index.rs:77-79 | the register step is injective on 24-bit states |
| Lfsr.StepsStay | tendrilix/src/index.rs:77-79 | a non-zero 24-bit state stays one |
| Lfsr.MulSteps | tendrilix/src/index.rs:77-79 | multiplication of states as polynomials commutes with stepping, so stepping is multiplication by x |
| LfsrPeriod.ComesBack | tendrilix/src/index.rs:77-79 | 2^24 - 1 steps lead every state back to itself |
| LfsrPeriod.NotFixed | tendrilix/src/index.rs:77-79 | if x^n - 1 is invertible no non-zero state returns after n steps |
| LfsrPeriod.NoEarlyReturn | tendrilix/src/index.rs:77-79 | no non-zero state returns in fewer than 2^24 - 1 steps: the period is full |
| LfsrPeriod.StatesAreDistinct | tendrilix/src/index.rs:77-79 | the first 2^24 - 1 states from any seed are pairwise distinct |
| IndexGenerator.OutputIsInjective | tendrilix/src/index.rs:105-111 | the masked output, with its replacement for zero, differs for different states |
| IndexGenerator.OutputIsAnIndex | tendrilix/src/index.rs:105-111 | outputs are non-zero and fit 24 bits |
| IndexGenerator.NextKeepsInv | tendrilix/src/index.rs:82-117 | every atomic step of any caller keeps the register one step ahead per index issued and the budget exact |
| IndexGenerator.IndicesAreUnique | tendrilix/src/index.rs:82-117 | in every interleaving, from every seed and mask, all indices handed out over the generator's lifetime are distinct, non-zero and below 2^24 |
| IndexGenerator.AllDrawsArePermitted | tendrilix/src/index.rs:87-91 | a draw is refused only after all 2^24 - 1 have been reserved |
| IndexGenerator.DrawsUndisturbed | tendrilix/src/index.rs:93-117 | in every run a caller is given the index of the state it loaded exactly if nobody has drawn since and the exchange does not fail spuriously |
| IndexGenerator.AnyNumberIsDrawn | tendrilix/src/index.rs:82-117 | any number of indices up to 2^24 - 1 can be drawn, from every seed and mask |
| RoutePolicies.RoutePolicy.SameRoute | tendrilix/src/control/reconciler.rs:162-168 | two policies are the same route exactly if their keys agree |
| RoutePolicies.DedupeAndSortPolicies | tendrilix/src/control/reconciler.rs:949-968 | no two policies share a route, each has the best priority of its duplicates, none is lost, and they are sorted |
| RoutePolicies.DistinctMeansNoDuplicates | tendrilix/src/control/reconciler.rs:845-851 | a normalized list has distinct route keys, as the run theorems of the health machine require |
| RoutePolicies.SortByPriority | tendrilix/src/control/reconciler.rs:964 | a permutation in priority order |
| RoutePolicies.NormalFormIsStable | tendrilix/src/control/reconciler.rs:949-968 | normalizing again changes nothing but the order of equal priorities |
| RoutePolicies.RoutePoliciesForPeer | tendrilix/src/control/reconciler.rs:856-906 | the normal form of the peer's resolvable routes, or a bare direct route if there is none |
| RoutePolicies.PoliciesAreAdvertised | tendrilix/src/control/reconciler.rs:856-906 | every endpoint of a direct route, and every relay named that is in the map and not the peer itself, is a policy at the best priority it is advertised at, and there is no other; a bare direct route if nothing is advertised |
| RoutePolicies.InitialPolicyIndex | tendrilix/src/control/reconciler.rs:912-933 | a policy of the best priority, the draw-th of those |
| DesiredPeers.SelectionIsClamped | tendrilix/src/control/reconciler.rs:202-215 | selecting an index past the last policy selects the last, and the cached route follows |
| DesiredPeers.DesiredPeersFromMap | tendrilix/src/control/reconciler.rs:803-841 | one desired peer per key of the map, rendered from the last peer with that key, with a best policy active |
| DesiredPeers.ConfigFollowsActivePolicy | tendrilix/src/control/reconciler.rs:218-263 | the device configuration sends where the active policy says, keeps the best direct endpoint as a hint with a relay, and accepts exactly the peer's own addresses |
| DesiredPeers.CarryKeepsRouteAndHealth | tendrilix/src/control/reconciler.rs:502-551 | a new map keeps the route a peer's tracker is on and each surviving route's health under any reordering; only without it the most preferred policy is chosen |
| DesiredPeers.CarryKeepsFormerRoute | tendrilix/src/control/reconciler.rs:502-551 | a tracker that knows no route yet leaves the peer on the route of the former map, if the new one still has it |
| Reconciler.PeerReconciler.ReconcileNetworkMap | tendrilix/src/control/reconciler.rs:461-497 | fails exactly if a device command was refused; after success the device has exactly the desired peers, each with the configuration remembered as applied, and device, health and desired state agree on every peer; a map that changes no peer is installed without a single write; a stale map changes nothing; a failure changes neither the desired state nor the timestamp |
| Reconciler.PeerReconciler.CarryForwardActivePolicies | tendrilix/src/control/reconciler.rs:502-551 | carries each tracked peer over, and touches no other |
| Reconciler.PeerReconciler.RemoveVanishedPeers | tendrilix/src/control/reconciler.rs:555-572 | removes exactly what is no longer desired, with its bookkeeping |
| Reconciler.PeerReconciler.ApplyDesiredPeers | tendrilix/src/control/reconciler.rs:578-620 | afterwards the three views agree on every desired peer |
| Reconciler.PeerReconciler.WriteConfig | tendrilix/src/control/reconciler.rs:592-615 | skipping writes by fingerprint never leaves an outdated configuration on the device, and never writes one it has |
| Reconciler.PeerReconciler.TrackActivePolicy | tendrilix/src/control/reconciler.rs:624-646 | the tracker is aligned with the desired policies |
| Reconciler.PeerReconciler.ReconcilePeerHealthAt | tendrilix/src/control/reconciler.rs:663-764 | succeeds exactly if no device command was refused, and then every tracked peer with several policies was sampled on statistics the device reported in this pass and follows the decision; a peer whose three views agreed still has them agree, whether the pass succeeds, a sample is refused or a switch is rolled back |
| Reconciler.PeerReconciler.CheckPeer | tendrilix/src/control/reconciler.rs:692-760 | a processed peer's desired state follows exactly the decision of its tracker; a refused one keeps desired state and device as they were |
| Reconciler.PeerReconciler.ServePeer | tendrilix/src/control/reconciler.rs:678-760 | one peer of a pass: tracked if it was not, else sampled and judged; it is passed over only if a command was refused or it has no choice of routes |
| Reconciler.PassKeepsTied | tendrilix/src/control/reconciler.rs:692-760 | a health pass keeps a tracker tied to the switches installed on the device, also where a sample is refused or a switch taken back |
| Reconciler.InstalledSwitchesAreRare | tendrilix/src/control/reconciler.rs:663-764 | the switches installed by any sequence of health passes on one map keep the same distances and numbers as the decisions of `PeerHealthMachine.SwitchesAreRare` |
| Reconciler.EverySwitchIsInstalled | tendrilix/src/control/reconciler.rs:663-764 | every switch a pass decided and installed is in the record those bounds are about |
| DeviceHealth.PassesAreWatched | tendrilix/src/control/reconciler.rs:663-764 | the passes that serve a peer on one map are a run of its health machine, and the switches installed are those the run decides |
| DeviceHealth.UnansweredPeerIsMoved | tendrilix/src/control/reconciler.rs:663-764 | so a peer on the device whose packets go unanswered, and which has another route that has not failed, is moved to another route in the time `HealthDecisions.UnansweredRouteIsLeft` gives |
| Reconciler.PeerReconciler.ApplyActivePolicy | tendrilix/src/control/reconciler.rs:769-787 | device and fingerprint follow the newly selected policy, or the device is unchanged |
| Reconciler.ObservedAgrees | tendrilix/src/control/peer_health.rs:440-503 | a sample keeps the tracker aligned with its routes and on the policy it decides for |
| Messages.LeRoundTrip | tendrilix/src/noise/session.rs:307-309 | little-endian encoding is undone by decoding |
| Messages.ParseIncomingPacket | tendrilix/src/noise/mod.rs:187-264 | a packet is accepted exactly if it has the size its type calls for, and as that type; data is long enough to hold a tag |
| Messages.HandshakeMessagesParse | tendrilix/src/noise/mod.rs:195-234 | handshake messages and cookie replies laid out with fields of the right lengths are parsed as the same messages |
| Messages.PaddingIsStable | tendrilix/src/noise/session.rs:257-266 | padding is idempotent, adds less than 16 bytes, and never makes a packet pass the MTU |
| Messages.PaddingIsLeast | tendrilix/src/noise/session.rs:257-268 | the padded packet is the packet followed by zeros, up to the next multiple of 16 |
| Messages.NonceHoldsCounter | tendrilix/src/noise/session.rs:312-313 | the nonce is four zero bytes and the counter, little end first |
| Messages.AlteredCounterIsRefused | tendrilix/src/noise/session.rs:360-374 | a packet sealed with counter n and delivered with counter m in its header opens exactly if m is n |
| Messages.FormattedParsesAndOpens | tendrilix/src/noise/session.rs:247-332 | what is formatted parses as the same kind of packet with the same index and counter, and opens to the padded plaintext |
| Messages.FormattedFits | tendrilix/src/noise/session.rs:247-332 | the packet is exactly 32 bytes longer than the padded plaintext |
| Sessions.Session.FormatPacketDataWithType | tendrilix/src/noise/session.rs:247-332 | writes exactly that packet into the buffer, leaves the rest of it alone, uses each counter once, and refuses exactly at the limit |
| Sessions.Session.ReceivePacketData | tendrilix/src/noise/session.rs:338-382 | succeeds exactly for packets of this session with a fresh counter below the limit and a valid tag, and otherwise says which of these failed first; nothing else is recorded as received |
| Sessions.Session.ReceivingCounterQuickCheck | tendrilix/src/noise/session.rs:218-221 | the check before decryption decides as marking after it does |
| IpFraming.ValidateDecapsulatedPacket | tendrilix/src/noise/mod.rs:603-700 | cuts the packet to the length its header declares, or rejects it |
| IpFraming.PaddingIsCutOffExactly | tendrilix/src/noise/mod.rs:603-700 | a padded packet is delivered whole and alone if and only if it declares its own length |
| IpFraming.SourceIsKept | tendrilix/src/noise/mod.rs:603-700 | the source address delivered is the one of the packet that was sent |
| IpFraming.DeclaredIn4 | tendrilix/src/noise/mod.rs:630-650 | a packet with a whole IPv4 header declares the number in its bytes 2 and 3, high byte first, unless that is less than its header |
| IpFraming.DeclaredIn6 | tendrilix/src/noise/mod.rs:655-668 | a packet with a whole IPv6 header declares 40 bytes and the number in its bytes 4 and 5 |
| IpFraming.NothingElseDeclares | tendrilix/src/noise/mod.rs:603-668 | a packet of another version, or without a whole header, declares no length |
| IpFraming.Delivered4 | tendrilix/src/noise/mod.rs:603-700 | an IPv4 packet that carries its own length in those bytes is delivered whole after padding, with its bytes 12 to 15 as source |
| IpFraming.Delivered6 | tendrilix/src/noise/mod.rs:603-700 | an IPv6 packet likewise, with its bytes 8 to 23 |
| IpFraming.SentIsReceived | tendrilix/src/noise/mod.rs:603-700 | format, parse, open and truncate give the same packet back exactly if its length field matches, within the size bounds |
| RelayEnvelope.Parse | tendrilix/src/noise/relay.rs:67-92 | a parsed envelope has at least one hop left and holds its whole inner packet |
| RelayEnvelope.EnvelopeSurvivesPadding | tendrilix/src/noise/relay.rs:67-145 | whatever follows an envelope, it is read as it was built |
| RelayEnvelope.BuildEnvelope | tendrilix/src/noise/relay.rs:122-145 | writes exactly the envelope, or refuses an inner packet or buffer of the wrong size without writing |
| RelayEnvelope.DecrementHopLimit | tendrilix/src/noise/relay.rs:112-119 | one hop less, and refused exactly at the last hop |
| RelayEnvelope.HopKeepsEnvelope | tendrilix/src/noise/relay.rs:112-119 | using up a hop changes neither destination nor inner packet |
| RelayEnvelope.ForwardsStandardMessagesOnly | tendrilix/src/noise/relay.rs:160-177 | an inner packet is let through exactly if an endpoint would parse it and it is not itself relayed |
| RelayNetwork.RelayingIsBounded | tendrilix/src/device.rs:1071-1220 | over arbitrary, even cyclic, relay tables an envelope is forwarded between relays at most seven times, never changes destination or inner packet, never grows, and delivers only a standard message |
| RelayNetwork.HopsDecide | tendrilix/src/device.rs:1144-1178 | a relay passes an envelope on exactly if it may and two hops are left |
| RelayNetwork.SevenForwardsHappen | tendrilix/src/device.rs:1144-1178 | the bound is reached: every valid inner packet can be forwarded seven times between relays, and no eighth time |
| RelayNetwork.RelayedFits | tendrilix/src/lib.rs:65-75 | a tunnelled and a relayed packet of at most the MTU fit the maximum packet size, padding and re-encapsulation included |
| NoiseKeys.InitiationIsRead | tendrilix/src/noise/handshake.rs:390-456 | the intended responder reads the initiator's timestamp and ends up with its transcript |
| NoiseKeys.MatchingRunsCross | tendrilix/src/noise/handshake.rs:484-573 | after a whole handshake sending and receiving keys and both indices are crossed |
| NoiseKeys.AnonymousReadFindsThePeer | tendrilix/src/noise/handshake.rs:272-311 | the key read before the peer is known is the key of the only tunnel that accepts the initiation |
| NoisePattern.InitiationFollowsPattern | tendrilix/src/noise/handshake.rs:646-731 | the initiation is the first message of the Noise pattern IKpsk2, token by token: e, es, s, ss, then the timestamp |
| NoisePattern.ResponseFollowsPattern | tendrilix/src/noise/handshake.rs:733-826 | the response is the second: e, ee, se, psk with a zero key, then nothing; and the session keys are its split |
| NoiseSecrets.InitiationNeedsSecret | tendrilix/src/noise/handshake.rs:390-456 | an initiation is read exactly if it was made for this responder, names its peer, and the secret of the two static keys that went into it is the responder's own |
| NoiseSecrets.ReadingBindsAll | tendrilix/src/noise/handshake.rs:390-456 | two initiations of any origin that are read with one sealed timestamp agree in ephemeral key, identities, both secrets and the timestamp |
| NoiseSecrets.TranscriptBindsSecrets | tendrilix/src/noise/handshake.rs:646-731 | two initiations have one transcript exactly if all that went into them is the same |
| NoiseSecrets.ResponseNeedsSecrets | tendrilix/src/noise/handshake.rs:484-545 | a response is read exactly if both ends have one transcript and arrive at the same two secrets |
| NoiseSecrets.KeysBindSecrets | tendrilix/src/noise/handshake.rs:800-826 | two sessions share a key exactly if both ephemeral keys and all four secrets are the same, and no key of one direction is one of the other |
| Handshakes.NextIndex | tendrilix/src/noise/handshake.rs:383-388 | the peer's 24 bits stay and the session byte goes round |
| Handshakes.NextSlot | tendrilix/src/noise/handshake.rs:383-388 | consecutive indices fall into different slots of three exactly unless the session byte wraps, and an index and the next but one always do |
| Handshakes.SlotAfter | tendrilix/src/noise/handshake.rs:383-388 | two indices k apart share a slot of three exactly if k and the number of times the session byte wraps in between agree modulo three |
| Handshakes.Handshake.AllocateLocalIndex | tendrilix/src/noise/handshake.rs:383-388 | each index is the successor of the one before |
| Handshakes.Handshake.FormatHandshakeInitiation | tendrilix/src/noise/handshake.rs:646-731 | the initiation in flight moves to the second slot, and both stay answerable under different indices of this peer |
| Handshakes.Handshake.ReceiveHandshakeInitialization | tendrilix/src/noise/handshake.rs:390-482 | accepts exactly genuine initiations newer than all accepted before, and answers them |
| Handshakes.Handshake.ReceiveHandshakeResponse | tendrilix/src/noise/handshake.rs:484-573 | a genuine response completes the initiation it answers, which was not answered before and cannot be again; anything else changes nothing |
| Handshakes.AcceptedOnce | tendrilix/src/noise/handshake.rs:456-461 | no initiation is accepted twice in a run, whatever is replayed |
| Handshakes.AfterIsBytewise | tendrilix/src/timestamper.rs:90-109 | one timestamp is after another exactly if its twelve bytes are above the other's, compared from the front |
| TunnelTimers.NextIsOk | tendrilix/src/noise/timers.rs:112-339 | every event keeps all timers in the past, ends what is overdue, keeps an initiation in flight from going more than five seconds unrepeated, and keeps a handshake wanted while data is unanswered and a keepalive while data is unacknowledged |
| TunnelTimers.InitiatorRenewsInTime | tendrilix/src/noise/timers.rs:268-292 | in every run with looks at most d apart, an initiator's session that has carried data is renewed within d of 120 s (sent) or 165 s (received) of age; with d at most 15 s that is before it is rejected |
| TunnelTimers.RetriedThenGivenUp | tendrilix/src/noise/timers.rs:245-266 | in every run in which no session opens, whatever is sent or received meanwhile, an initiation is sent again by a look that begins before 5 s + d from when it was last sent and, measured by its second reading of the clock, not before 5 s, up to the look that gives it up |
| TunnelTimers.GivenUpInTime | tendrilix/src/noise/timers.rs:233-256 | that look is the first one 90 s from the first attempt, or 540 s from the last session, and comes within d of it |
| TunnelTimers.WhenQueueingRestarts | tendrilix/src/noise/timers.rs:247-250 | a packet queued for want of a session starts an initiation and its 90 s anew exactly if none is in flight; otherwise timers and initiation stay as they are |
| TunnelTimers.QueueingDoesNotReset | tendrilix/src/noise/timers.rs:247-250 | with a first attempt at 0 s and a retry in flight since 59 s, a packet queued at 61 s changes nothing and the tunnel still gives up at 90 s |
| TunnelTimers.SilenceIsNoticed | tendrilix/src/noise/timers.rs:294-303 | in every run, data that gets no answer leads to an initiation by the first look 15 s from the last packet received |
| TunnelTimers.DataIsAcknowledged | tendrilix/src/noise/timers.rs:305-315 | in every run, data received is followed by a packet sent by the first look 10 s from the last one sent, unless a handshake is under way |
| TunnelTimers.PersistentKeepaliveIsSent | tendrilix/src/noise/timers.rs:317-325 | in every run, a persistent keepalive is sent by the first look at which it is due, unless an initiation is in flight or the connection was given up |
| TunnelTimers.LookDecides | tendrilix/src/noise/timers.rs:233-327 | which of expiry, handshake and keepalive a look decides on, in seconds, for every state |
| TimerHistory.StepIsRecorded | tendrilix/src/noise/timers.rs:112-172 | what each event does to the clock, the seven timers, the flags, the initiation in flight and the persistent keepalive, said of the event and the state before it |
| TimerHistory.TimersTellHistory | tendrilix/src/noise/timers.rs:133-172 | in every run each timer is the moment of the last event of its kind since the timers last started over |
| TunnelTimers.KeepaliveOnce | tendrilix/src/noise/timers.rs:304-327 | a keepalive that was due is not due again at the same moment, whatever the second reading of the clock is |
| SessionRing.Tunnel.constructor | tendrilix/src/noise/mod.rs:273-302 | a new tunnel has no sessions and its timers and handshake are in order |
| SessionRing.Tunnel.SetCurrentSession | tendrilix/src/noise/mod.rs:493-505 | of the current session and the given one, the one established later is current afterwards, the given one if they are of one age or no current one is live; so the newest live session stays the current one |
| SessionRing.Tunnel.HandleHandshakeInit | tendrilix/src/noise/mod.rs:410-440 | an initiation is answered exactly if it is genuine and newer than all before, with the response and session of the key schedule; the session sits in the slot of its index and is at once the current one; a refused initiation changes nothing |
| SessionRing.Tunnel.HandleHandshakeResponse | tendrilix/src/noise/mod.rs:442-474 | the same for a handshake of ours: completed exactly if the response answers an initiation in flight and is genuine, with that initiation consumed |
| SessionRing.Tunnel.Encapsulate | tendrilix/src/noise/mod.rs:333-372 | sealed by the current session if that is live and not exhausted, else queued with a handshake started unless one is in progress; what is sent and whether it was data is timed |
| SessionRing.Tunnel.HandleData | tendrilix/src/noise/mod.rs:508-555 | a packet for a live session of this index is decrypted and delivered without its padding, and counts as data only if it is delivered; no session but the newest becomes the current one |
| SessionRing.Tunnel.HandleCookieReply | tendrilix/src/noise/mod.rs:476-491 | a genuine cookie counts as a packet received |
| SessionRing.Tunnel.SessionFor | tendrilix/src/noise/mod.rs:525-546 | a data packet finds a session exactly if one with its index is live, and then its index is one of this peer's |
| SessionRing.Tunnel.UpdateSessionTimers | tendrilix/src/noise/timers.rs:180-192 | exactly the sessions timed at more than 180 s end |
| SessionRing.Tunnel.UpdateTimers | tendrilix/src/noise/timers.rs:194-339 | no subtraction of times goes below zero, afterwards no live session is older than 180 s, and the look is the event the run theorems of `TunnelTimers` are about, with the handshake or keepalive it sends |
| SessionRing.Tunnel.CheckTimers | tendrilix/src/noise/timers.rs:212-327 | the decision and the flags it uses up are the ones the timers call for |
| SessionRing.Tunnel.FormatHandshakeInitiation | tendrilix/src/noise/mod.rs:557-599 | sends an initiation unless one is in progress and not to be repeated; retries keep the start time of the first attempt, so giving up is timed from it |
| SessionRing.Tunnel.Establish | tendrilix/src/noise/timers.rs:145-172 | a fresh session is timed from now in the slot of its index, and counts as traffic received, and for a responder as traffic sent |
| SessionRing.Tunnel.SetPersistentKeepalive | tendrilix/src/noise/timers.rs:363-368 | changes the keepalive and has the first one sent at once |
| SessionRing.WhenASessionIsEvicted | tendrilix/src/noise/mod.rs:59-60 | for every k, a session opened k indices after an earlier live one replaces it exactly if k and the number of wraps of the session byte in between agree modulo three |
| SessionRing.WhenThreeAreRetained | tendrilix/src/noise/mod.rs:115 | of three sessions opened one after the other all are retained exactly if no two of them are so many indices apart |
| SessionRing.AnOlderOneMayOutliveTheLast | tendrilix/src/noise/mod.rs:115 | with sessions 3 and 4 live and two initiations lost, session 7 replaces 4 and 3 stays, though nothing wraps |
| TunnelLife.DeliveryKeeps | tendrilix/src/noise/session.rs:338-382 | a session that accepts a fresh counter has not delivered it before and remembers it, while all others remember theirs |
| TunnelLife.OpeningKeeps | tendrilix/src/noise/mod.rs:115 | a session opened in a slot, whatever was there, forgets nothing that live sessions have to remember |
| TunnelLife.NoncesDiffer | tendrilix/src/noise/session.rs:277-301 | over a tunnel's whole life no two packets of one session are sealed under one nonce |
| TunnelLife.TwiceMeansTwoKeys | tendrilix/src/noise/session.rs:127-195 | over a tunnel's whole life a packet delivered twice was delivered by two sessions of one index and opens under the keys of both |
| TunnelLife.NeverDeliveredTwice | tendrilix/src/noise/session.rs:127-195 | so if no packet opens under two sessions of one index, none is delivered twice, across replaced slots too |
| TunnelLife.SweepingKeeps | tendrilix/src/noise/mod.rs:801-837 | dropping what waited too long keeps the record of what became of each packet, and the order |
| TunnelLife.SealedOnceInOrder | tendrilix/src/noise/mod.rs:703-748 | packets that had to wait are sealed at most once each, and in the order they came |
| LiveSessions.Ring.Open | tendrilix/src/noise/mod.rs:410-474 | a fresh session object takes its slot; the record of all sessions so far grows by it |
| LiveSessions.Ring.End | tendrilix/src/noise/timers.rs:180-192 | one session ends and the others keep counters and windows |
| LiveSessions.Ring.Seal | tendrilix/src/noise/session.rs:247-336 | the packet is sealed with the session's next counter, which no packet of it had, unless its counters are used up |
| LiveSessions.Ring.Deliver | tendrilix/src/noise/session.rs:338-382 | a packet is opened exactly if it is for the session in its slot, its counter is fresh there, and the tag is right; no other session changes |
| WaitingPackets.WaitingQueue.Enqueue | tendrilix/src/noise/mod.rs:750-799 | what waited too long is recorded as expired, and the packet joins the queue unless that is full or the pool is |
| WaitingPackets.WaitingQueue.TakeFirst | tendrilix/src/noise/mod.rs:703-748 | the oldest packet that waits is recorded as sealed, if the session can seal it |
| WaitingPackets.WaitingQueue.ClearQueue | tendrilix/src/noise/mod.rs:871-878 | all that waits is recorded as cleared away |
| WaitingPackets.WaitingQueue.OtherStepKeeps | tendrilix/src/noise/mod.rs:703-878 | a step of another tunnel on the pool leaves what waits here as recorded |
| LiveTunnels.LiveTunnel.DeliversOnce | tendrilix/src/noise/session.rs:127-195 | in every state of a tunnel no packet has been delivered twice, if none opens under two sessions of one index |
| LiveTunnels.LiveTunnel.SealsInOrder | tendrilix/src/noise/mod.rs:703-748 | in every state of a tunnel packets that had to wait have been sealed at most once, in the order they came |
| LiveTunnels.LiveTunnel.HandleHandshakeInit | tendrilix/src/noise/mod.rs:410-440 | an initiation is answered exactly if it is genuine and newer than all before; a fresh session with unused counters takes its slot; a refused initiation leaves all sessions |
| LiveTunnels.LiveTunnel.HandleHandshakeResponse | tendrilix/src/noise/mod.rs:442-474 | a response completes a handshake exactly if it answers an initiation in flight and is genuine; the new session seals a keepalive with its first counter |
| LiveTunnels.LiveTunnel.Encapsulate | tendrilix/src/noise/mod.rs:333-372 | the packet is sealed with the next counter of the current session exactly if that is live and has one left; otherwise it waits, and an initiation is sent unless one is in progress |
| LiveTunnels.LiveTunnel.HandleData | tendrilix/src/noise/mod.rs:508-555 | a packet is accepted exactly if the live session of its index has not seen its counter and the tag is right; it is delivered without its padding |
| LiveTunnels.LiveTunnel.Flush | tendrilix/src/noise/mod.rs:703-748 | the oldest packet that waits is sealed by the current session if that can, and otherwise nothing changes |
| LiveTunnels.LiveTunnel.UpdateTimers | tendrilix/src/noise/timers.rs:194-339 | sessions timed at more than 180 s end, what is due is done with the sessions that are left, and the packets that wait are cleared exactly when the tunnel gives up |

## Left out

- Sockets, TUN devices, command channels, async scheduling, logging and statistics (estimated loss, round-trip time, byte counts): input and output only.
- The fixed-capacity build except for the first-fit arena: the same algorithms with other capacity errors.
- Removal of a peer's tunnel as a method of `SharedQueues.Device`, which has a fixed set of tunnels: the code drops the tunnel without freeing its packets (tendrilix/src/device.rs:1512-1519), and `SharedQueues.RemovalLosesWhatWaits` says exactly what that costs.
- MAC1, MAC2, the content of cookies and the rate limiter: not needed for any result here; `SessionRing` keeps only whether a cookie is held.
- The race in `initialize` between storing the seed and storing the mask (tendrilix/src/index.rs:57-72): `IndexGenerator.Initialize` is one step.
- Memory orderings of atomics: the interleavings are sequentially consistent.
- `usize` overflow of sizes, and the saturation of `u64` counters below the message limit: out of reach of the bounds proved.
- A peer's own allowed IPs, and the trackers the reconciler holds, are values and not objects: nothing else refers to them, so only their content matters.
- The predicate given to `remove` is a pure function, and iterators are the sequences they produce.
- `recovery_fallback` is an index that a new route list does not remap (tendrilix/src/control/peer_health.rs:411-417): the run theorems of `PeerHealthMachine` are about a fixed route list, from any state, and across lists it is only kept in range.
- A packet that finds no session is queued instead of forwarded at once: `RelayNetwork.Forward` assumes the tunnels are up.
- `SessionRing.Tunnel.Encapsulate`: takes as a parameter whether the session is exhausted, and queues nothing; `LiveTunnels.LiveTunnel.Encapsulate` does.
- `SessionRing.Tunnel.HandleData`: takes as a parameter what the session makes of the packet; `LiveTunnels.LiveTunnel.HandleData` does not.
- `SessionRing.Tunnel.UpdateTimers`: clears no queue when the tunnel gives up; `LiveTunnels.LiveTunnel.UpdateTimers` does.
- `SessionRing.Tunnel.HandleCookieReply`: whether a cookie reply is genuine is a parameter.
- Several whole tunnels on one pool: `WaitingPackets.WaitingQueue.OtherStepKeeps` and `SharedQueues` compose their queues, which is all they share.
- Relayed packets, cookies and the persistent keepalive setting in `LiveTunnels`: the first take the way of data packets up to the framing, the others touch only timers.
- Further readings of the clock within one operation: a look reads it twice, as the code does, but giving up clears the timers at the look's first reading, and clearing the timers of a given-up tunnel and sending its initiation share one time.
- `AllowedIps.FewFit`: exactly 32768 networks of a family fit or not depending on where they branch off, which `AllowedIps.TryFromIter` decides and no number does.
- `PeerTable.PeerState.AddPeer`: takes the new peer's index as a parameter not in use, which `IndexGenerator.IndicesAreUnique` provides.
- `TunnelQueue.Tunn.FlushQueuedPacket`: whether a usable session exists is a parameter, which `LiveTunnels.LiveTunnel.Flush` reads off the ring.
- `TunnelLife.NeverDeliveredTwice`: supposes that no packet opens under the keys of two sessions of one index, which no law of the symbolic cipher promises; `TunnelLife.TwiceMeansTwoKeys` supposes nothing.
