# Network flow monitor agent: a verified model of the socket-statistics pipeline

The agent watches TCP sockets from inside the kernel and reports statistics per network flow. A BPF
program handles one kernel callback at a time and writes into two bounded maps: the context of a new
socket (its endpoints) and, per core and socket, its statistics. A user-space controller runs an
aggregation cycle: it takes in new contexts, merges the per-core statistics of each socket, takes
wrapping differences against a cache of sockets, attaches endpoints seen beyond NAT, folds the
differences into flows, and evicts finished sockets from the cache and from the BPF map.

This project models that pipeline and some self-contained parts around it, and proves what they keep
over all inputs and all runs. `dafny verify dfyconfig.toml` checks everything.

## How the model is laid out

- `Arith`, `MapSum`: fixed-width arithmetic over unbounded integers, sums over maps.
- `SockStats`, `SockContext`, `EventCounters`: the records and their addition and subtraction.
- `SockOps`: what one kernel event does to the maps, as functions; `EbpfMaps`: the same as code, with
  maps and handlers that are objects updated in place, proved equal to those functions.
- `Sharding`: per-core shards against one shared entry.
- `SockCache`, `Flows`, `Nat`, `Cidr`: the controller's parts, each as code proved against a function.
- `Pipeline`: the two-party protocol as a state machine with small steps. BPF events may land between
  any two steps of a cycle. `Controller` is the cycle as code; each loop iteration is proved to be a
  step of the machine, so what holds of every run of the machine holds of that code.
- `EndToEnd`: from the event log of a socket to what the controller reads.
- `Levels`: what a cycle reads of a cached socket is never behind what was read before.
- `Audit`: book-keeping over whole runs. The books follow one metric, any metric. `SeveredTwice` is one
  run written out; `Conservation` joins the books with the event logs.
- `CounterPublication`, `Sampling`, `Histograms`, `TopLoss`, `EventTimer`: the satellites.

Modelling decisions:

- Machine widths are written out. On the BPF side plain additions wrap, since that build has no
  overflow checks. In the controller plain additions abort (Cargo.toml:15), so merged values are kept
  exact and `InRange` says that nothing aborted; the exact condition is proved.
- Hash maps are walked in an arbitrary order: loops pick any remaining key. Where the order shows in
  the result (the cache limit while contexts are taken in, the flow limit) the order is an explicit
  value that the statements quantify over; elsewhere the result is a function without it.
- A walk over a live BPF map visits every key present when the walk began; keys inserted meanwhile may
  or may not be met. The machine allows both.
- TCP state and operation numbers are those of nfm-common/src/ebpf_mocks.rs:39-62; nothing depends on the
  numbers, only on which states are told apart.
- Random draws, clock values, kernel callbacks and conntrack deliveries are arbitrary values.

What came out differently from what one would expect of the code:

- Merging shards can abort the controller: `connect_attempts` is 8 bits wide, retransmitted SYNs are
  added to it on each core, and the merge sums the cores with overflow checks. 128 retransmitted SYNs
  on each of two cores suffice (`RetransmittedSynsCanAbortTheMerge`). `MergeAbortsIff` and
  `MergedCounterIsSingleIff` give the exact condition. Wrap-around inside the shards is harmless.
- `severed_connect` is not counted once per socket. `SeveredConnectCountedTwice` is a run from start-up
  in which a socket that goes from SYN_RECV to FIN_WAIT1 is counted twice. Over every run a cache
  lifetime is counted more than once if and only if a read that has a flow for it finds it flagged as
  severed while connecting, open and fresh, and a later read has a flow for it
  (`SeveredConnectRepeatsIff`). Until it is closed or stale it is read, still so flagged, in every cycle,
  and only the flow limit can spare it (`LingeringIsCountedAgain`).
- The connect histogram need not be coherent (count * min <= sum <= count * max, with a non-zero
  minimum), for two reasons. Its count grows by the number of successes while its sum grows by one
  measurement (`TwoSuccessesAreIncoherent`); and a connect time is truncated to 32 bits, so that one of
  2^32 microseconds counts as zero (`TruncatedConnectIsIncoherent`). A measurement keeps every coherent
  window coherent if and only if it stands for one success and is not zero
  (`MeasurementKeepsCoherentIff`).
- The agent aborts when a NAT answer it looks up mixes address families. The SNAT override can itself
  make such an answer from two tuples of one family each (`MixedEventAborts`). Over every run a lookup
  aborts if and only if the event that answers, which can be read off the log, is mixed on the other side
  (`ResolveAbortsIff`); normalisation keeps families if and only if it leaves the reply alone or both
  sources are of one family (`NormalisationKeepsFamilyIff`).
- A timer event is lost, not put back, if and only if the exit flag shows after some fragment of the sleep
  for it (`AwaitNextEvent`). An event already due is never lost.

## Model

| member | source | states |
|---|---|---|
| `SockStatsModel.MergeShard` | nfm-common/src/network.rs:142-180 | the field-by-field merge, RTTs first, computes the one-expression merge that all laws below are about |
| `SockStatsModel.SubtractCounter` | nfm-common/src/network.rs:182-212 | for each of the thirteen counters, the difference wraps at that counter's own width |
| `SockStatsModel.SubtractKeepsTheRest` | nfm-common/src/network.rs:182-191 | a difference keeps flags, timestamps, round-trip times and so the connect time as they are now |
| `SockStatsModel.ConnectTimeIff` | nfm-common/src/network.rs:214-220 | there is a connect time if and only if a start was seen and an end after it; it is the time between, truncated to 32 bits |
| `SockStatsModel.MergeCounter` | nfm-common/src/network.rs:162-179 | folding any number of shards gives the maximum for the four counters the kernel accumulates and the sum for the nine others |
| `SockStatsModel.MergeAbortsIff` | nfm-common/src/network.rs:168-179 | no intermediate addition overflows if and only if the nine sums over all shards fit their widths |
| `SockStatsModel.MergeRtt` | nfm-common/src/network.rs:146-155 | the merged latest RTT is the least non-zero one, and the smoothed RTT the greatest, over exactly the shards touched at or after the last read; 0 if there is none |
| `SockStatsModel.AddFromSwap` | nfm-common/src/network.rs:142-180 | two shards may be merged in either order, freshness rules included |
| `SockStatsModel.MergeIsOrderFree` | nfm-common/src/network.rs:142-180 | the whole merged entry is the same for every permutation of the shards |
| `SockOps.ShouldHandleEvent` | nfm-common/src/sock_ops_handler.rs:25-66 | of new sockets exactly the multiples of the interval pass, and all of them when it is 0 or 1, which is then no modulus; of other operations exactly the four unused ones are dropped |
| `SockOps.UpdateEntryFlagsOk` | nfm-common/src/sock_ops_handler.rs:176-225 | every event keeps: severed while established implies closed, closed implies closure started |
| `SockOps.UpdateEntryFlags` | nfm-common/src/sock_ops_handler.rs:134-225 | for each of the five flags: set after an event if and only if it was set or the event makes that transition |
| `SockOps.StateChangeMarks` | nfm-common/src/sock_ops_handler.rs:189-220 | the five transitions of a state change written out, among them severed while established if and only if ESTABLISHED goes to CLOSE |
| `SockOps.UpdateEntryRtt` | nfm-common/src/sock_ops_handler.rs:236-255 | an RTT event stores the measured time and an eighth of the smoothed argument, each falling back to the value the kernel keeps; every other event leaves both alone |
| `SockOps.OutcomeIs` | nfm-common/src/sock_ops_handler.rs:92-359 | each of the five results of an event, if and only if, with the failures of a new socket in their order |
| `SockOps.RecordedContext` | nfm-common/src/sock_ops_handler.rs:134-152 | a context is recorded if and only if it is valid, new and has room, with the endpoints of the event, as client if and only if on an active connect |
| `SockOps.EventIsCountedUnder` | nfm-common/src/sock_ops_handler.rs:92-132 | under which of the fourteen counts an event falls, count by count |
| `SockOps.StatsAfterKeeps` | nfm-common/src/sock_ops_handler.rs:326-359 | every event keeps the statistics map within capacity with consistent flags, and changes no other core's or socket's entry |
| `SockOps.HandleEventKeeps` | nfm-common/src/sock_ops_handler.rs:92-359 | every event keeps both maps within capacity, all contexts valid and all flags consistent, touches only its own entry, removes nothing, and never overwrites a recorded context |
| `EbpfMapsModel.SharedHashMap.Insert` | nfm-common/src/ebpf_mocks.rs:86-99 | both error cases if and only if, capacity before existence; contents after success and after failure |
| `EbpfMapsModel.SharedHashMap.Store` | nfm-common/src/ebpf_mocks.rs:105-107 | a write through the pointer of a present key changes that entry only |
| `EbpfMapsModel.TcpSockOpsHandler.HandleSocketEvent` | nfm-common/src/sock_ops_handler.rs:92-120 | the code's effect on both maps and on the persisted counters, and its result code, are those of the event function whose invariants are proved |
| `EbpfMapsModel.TcpSockOpsHandler.HandleConnect` | nfm-common/src/sock_ops_handler.rs:122-126 | an active connect is counted once and handled as a client socket |
| `EbpfMapsModel.TcpSockOpsHandler.HandlePassiveEstablished` | nfm-common/src/sock_ops_handler.rs:128-132 | a passive establish is counted once and handled as a server socket |
| `EbpfMapsModel.TcpSockOpsHandler.HandleNewSock` | nfm-common/src/sock_ops_handler.rs:134-174 | all four failures in their order, each with its count; the context stays recorded when a later step fails |
| `EbpfMapsModel.TcpSockOpsHandler.HandleStateChange` | nfm-common/src/sock_ops_handler.rs:176-225 | the entry, flags, kernel counters and counts of every state transition |
| `EbpfMapsModel.TcpSockOpsHandler.ApplyStateChange` | nfm-common/src/sock_ops_handler.rs:189-221 | the branches taken one field at a time give the transition's entry |
| `EbpfMapsModel.TcpSockOpsHandler.HandleRtt` | nfm-common/src/sock_ops_handler.rs:227-266 | RTT events, with invalid measurements counted whether or not the entry can be stored |
| `EbpfMapsModel.TcpSockOpsHandler.HandleRetransmit` | nfm-common/src/sock_ops_handler.rs:268-291 | retransmissions by socket state, the 8-bit attempts wrap included |
| `EbpfMapsModel.TcpSockOpsHandler.HandleRto` | nfm-common/src/sock_ops_handler.rs:293-308 | timeouts by socket state |
| `EbpfMapsModel.TcpSockOpsHandler.HandleBytesTransferred` | nfm-common/src/sock_ops_handler.rs:310-324 | header-option events refresh the kernel counters and count under no class |
| `EbpfMapsModel.TcpSockOpsHandler.GetOrAddSockStats` | nfm-common/src/sock_ops_handler.rs:326-359 | fails if and only if a new entry is needed and the map is full; otherwise the entry is there, touched, and no other has changed |
| `Sharding.ShardSumCongruent` | nfm-common/src/sock_ops_handler.rs:134-359 | for every trace over any cores, with no bound: the sum over the shards and the single entry's counter are both congruent to the true total, whatever wraps on the way |
| `Sharding.ShardSumExact` | nfm-common/src/sock_ops_handler.rs:134-359 | while the true total fits, shards add up to it exactly |
| `Sharding.LatestIsGreatest` | nfm-common/src/sock_ops_handler.rs:176-359 | with time and kernel counters not running backwards, no core is ahead of the last value written and the core that wrote it holds it |
| `Sharding.FlagSomewhere` | nfm-common/src/sock_ops_handler.rs:176-225 | a flag is set in the single entry if and only if it is set in some shard |
| `Sharding.FlagsTellTransitions` | nfm-common/src/sock_ops_handler.rs:176-225 | over every trace, a flag is set if and only if some event made that transition |
| `Sharding.ShardRttIsLast` | nfm-common/src/sock_ops_handler.rs:227-266 | over every trace, a core's two round-trip times are those its last RTT event reported, or 0 |
| `Sharding.ShardingRefinesSingleStore` | nfm-common/src/network.rs:142-180 | main result: for every trace spread over any cores, merging the shards gives all counters, timestamps and flags of one entry fed the whole trace, and the accumulated counters are the true totals |
| `Sharding.MergedRegisterIsSingle` | nfm-common/src/network.rs:157-166 | timestamps and kernel counters merge to those of one entry whatever the totals, if time and kernel counters do not run backwards |
| `Sharding.MergedCounterIsSingleIff` | nfm-common/src/network.rs:168-179 | with no condition on the totals: the merged counter is the single entry's if and only if the sum over the shards fits |
| `Sharding.RetransmittedSynsCanAbortTheMerge` | nfm-common/src/sock_ops_handler.rs:268-291 | from 128 callbacks of one retransmitted SYN on each of two cores, the shards fit 8 bits and their merge does not |
| `EndToEnd.LogAlongRun` | nfm-common/src/sock_ops_handler.rs:326-359 | over every run, each socket's per-core entries are exactly the shards of its event log, less the cores removed since |
| `EndToEnd.ReadIsMergeOfLog` | nfm-controller/src/events/event_provider_ebpf.rs:382-398 | a complete undisturbed read holds the merge of the shards of the log, over distinct cores that include every logged one |
| `EndToEnd.ReadEqualsSingleStore` | nfm-controller/src/events/event_provider_ebpf.rs:382-398 | main result: over every run, what such a read holds for a socket is what one entry fed its whole log would hold; each accumulated counter agrees if and only if it fits |
| `EndToEnd.ReadFlagsTellTransitions` | nfm-controller/src/events/event_provider_ebpf.rs:382-398 | over every run, with no proviso, an undisturbed read flags a socket with exactly the transitions that the events of its log made |
| `SockCacheModel.SockCache.AddContext` | nfm-controller/src/events/sock_cache.rs:158-194 | new cache contents and result for a cached socket, a new one and a full cache |
| `SockCacheModel.AbsorbedEntry` | nfm-controller/src/events/sock_cache.rs:40-49 | a new socket is let in if and only if the cache is below capacity; the entry has the new context, no endpoints beyond NAT, the given timestamp, and is fresh and open; nothing else changes |
| `SockCacheModel.StoredEntry` | nfm-controller/src/events/sock_cache.rs:51-63 | an entry that was read holds what was read, is stale by its timestamp, and complete if and only if its context is valid and it is flagged closed |
| `SockCacheModel.AbsentEntry` | nfm-controller/src/events/sock_cache.rs:253-260 | an entry that was not read changes in staleness and age only |
| `SockCacheModel.SockCache.UpdateStatsAndGetDeltas` | nfm-controller/src/events/sock_cache.rs:198-263 | whatever the iteration order: keys are the union, cached statistics are the incoming ones, deltas are wrapping differences or the whole value, and the counts are exact |
| `SockCacheModel.SockCache.StoreIncoming` | nfm-controller/src/events/sock_cache.rs:207-250 | the first loop, which overwrites the incoming statistics with deltas while it walks them |
| `SockCacheModel.SockCache.StoreOne` | nfm-controller/src/events/sock_cache.rs:211-249 | one occupied or vacant entry, inserted above capacity too |
| `SockCacheModel.SockCache.UpdateAbsentSockets` | nfm-controller/src/events/sock_cache.rs:253-260 | the second loop changes exactly the sockets not read this time, and not their completeness |
| `SockCacheModel.DeltaCounts` | nfm-controller/src/events/sock_cache.rs:229-236 | completed is the overlap; partial fills the cache up to capacity at most, and nothing fails before it is full; the three counts add up to the incoming sockets |
| `SockCacheModel.CountOne` | nfm-controller/src/events/sock_cache.rs:229-236 | judging one more socket by the cache size at that moment keeps the closed form: partial = min(new, room left), failed = the rest |
| `SockCacheModel.SockCache.PerformEviction` | nfm-controller/src/events/sock_cache.rs:267-282 | kept and evicted entries partition the cache by the eviction test, entries unchanged, and the stale ones are counted |
| `Flows.FlowsGroupByService` | nfm-controller/src/events/network_event.rs:250-287 | two contexts share a flow if and only if they have the same family, the same addresses, the same service port and the same role, a service on port 0 apart; the client's own port never matters |
| `Flows.FlowFields` | nfm-controller/src/events/network_event.rs:253-287 | the four fields of a flow: both addresses of the context's family in their places, the server's port, and 0 for the client's |
| `Flows.CountSock` | nfm-controller/src/events/network_event.rs:216-247 | each of the four levels grows if and only if the flags say so, exactly one of them and by one; one severed count grows by one if and only if the socket was severed; nothing else changes |
| `Flows.SockIsCountedUnder` | nfm-controller/src/events/network_event.rs:216-247 | which of the four levels and of the two severed counts grows, flag by flag |
| `Flows.ClearedFlow` | nfm-controller/src/events/network_event.rs:209-214 | clearing sets the four levels to 0 and leaves everything else, histograms included |
| `Flows.CarryTimings` | nfm-controller/src/events/network_event.rs:167-206 | each histogram stays as it is unless its event was seen in this period with a value, and nothing else changes |
| `Flows.AddToFlowMetric` | nfm-controller/src/events/network_event.rs:138-247 | for every metric, adding a socket's delta to a flow adds exactly that socket's contribution, less what saturation of that flow's own field loses |
| `Flows.FlowFoldTotal` | nfm-controller/src/events/event_provider_ebpf.rs:401-456 | folding sockets in any order adds to the total over all flows exactly what was credited, less what single flows could not hold; no condition |
| `Flows.FoldLostIff` | nfm-controller/src/events/network_event.rs:138-165 | nothing is lost if and only if no credited contribution overflows the flow it meets |
| `Flows.FlowFoldBounded` | nfm-controller/src/events/event_provider_ebpf.rs:419-441 | the table never exceeds its limit and never loses a flow |
| `Flows.CreditedWhereItGoes` | nfm-controller/src/events/event_provider_ebpf.rs:422-441 | a cached socket is credited to a flow if and only if its endpoints, beyond NAT where attached, give that flow, and the flow is known or fewer than 10000 are |
| `Flows.FlowIsOwnFold` | nfm-controller/src/events/event_provider_ebpf.rs:401-456 | main result: each flow of the table holds exactly the sockets that belong to it, in their order, on top of what it held; a flow left out had none or met a full table |
| `Flows.FlowGetsItsSockets` | nfm-controller/src/events/event_provider_ebpf.rs:401-456 | flow by flow, a metric grows by exactly the contributions of the sockets that belong to it, less what its own field loses |
| `Flows.PartialAreUnplaced` | nfm-controller/src/events/event_provider_ebpf.rs:409-453 | partial are exactly the sockets without usable endpoints, and none fails unless the table is full |
| `Flows.AggregationAccountsForEverySocket` | nfm-controller/src/events/event_provider_ebpf.rs:401-456 | for every order: completed + partial + failed is the stream size, the four levels over all flows add up to completed, the closed level is the credited sockets flagged closed |
| `Flows.AggregateOne` | nfm-controller/src/events/event_provider_ebpf.rs:415-451 | one socket through all four outcomes, as code: the flow of its endpoints, beyond NAT where attached, gets its delta, and no other flow changes |
| `Flows.CreditAll` | nfm-controller/src/events/event_provider_ebpf.rs:415-453 | the loop, in whatever order it walks, computes the fold over that order |
| `Flows.AggregateIntoFlows` | nfm-controller/src/events/event_provider_ebpf.rs:401-456 | every socket is visited once; each flow is the fold of exactly the sockets that belong to it; the three counts add up to the stream, no flow is lost and the table stays within its limit |
| `Cidr.MaskIsHighBits` | nfm-controller/src/utils/vpc_cidr_checker.rs:142-146 | the shifted mask is 2^width - 2^(width - prefix), prefix 0 included |
| `Cidr.AndHighBits` | nfm-controller/src/utils/vpc_cidr_checker.rs:52-67 | bitwise and with such a mask rounds down to a multiple of 2^k |
| `Cidr.NumberIsBigEndian` | nfm-controller/src/utils/vpc_cidr_checker.rs:61-65 | an IPv6 address is read most significant byte first |
| `Cidr.MatchesIffShareBlock` | nfm-controller/src/utils/vpc_cidr_checker.rs:131-171 | the mask test holds if and only if address and base lie in one aligned block of size 2^(width - prefix), host bits in the base or not |
| `Cidr.ParseAll` | nfm-controller/src/utils/vpc_cidr_checker.rs:103-123 | the blocks kept by the loop match an address if and only if some configured line of valid prefix covers it |
| `Cidr.IsVpcIpIffCovered` | nfm-controller/src/utils/vpc_cidr_checker.rs:52-67 | an address is a VPC address if and only if a configured block of its own family covers it |
| `NatModel.ConntrackListener.FilterAndNormalize` | nfm-controller/src/utils/conntrack_listener.rs:160-192 | verdict, rewritten reply and the one statistic bumped, for all five fates |
| `NatModel.NormalisationIsSound` | nfm-controller/src/utils/conntrack_listener.rs:160-192 | an accepted event is never an exact inverse pair, shows a VPC source as the reply's destination, keeps the translated side, and passes a second time unchanged |
| `NatModel.AcceptedIff` | nfm-controller/src/utils/conntrack_listener.rs:160-192 | an event is accepted if and only if it is TCP, not an exact inverse pair, and not one whose VPC source alone was changed; the reply is rewritten, address and port, if and only if its VPC source was changed |
| `NatModel.NormalisationKeepsFamilyIff` | nfm-controller/src/utils/conntrack_listener.rs:175-190 | tuples of one family each stay so if and only if the reply is left alone or both sources are of one family |
| `NatModel.ContextRoundTrip` | nfm-controller/src/events/nat_resolver.rs:149-210 | context to egress tuple to inverse to context returns endpoints, ports and role with mapped pairs as IPv4, and is defined if and only if both ends are of one family |
| `NatModel.EgressIs` | nfm-controller/src/events/nat_resolver.rs:149-183 | what leaves a socket has its local end as source and its remote end as destination, IPv4-mapped addresses as the IPv4 addresses they stand for |
| `NatModel.IngressIs` | nfm-controller/src/events/nat_resolver.rs:185-210 | what comes to a socket has its remote end as source and its local end as destination |
| `NatModel.LearnIntoHolds` | nfm-controller/src/events/nat_resolver.rs:75-84 | a table knows a tuple if and only if it did before or an event has it on either side, and answers with the other side |
| `NatModel.SlotsHoldAges` | nfm-controller/src/events/nat_resolver.rs:66-91 | after any run, the slot n places behind the head holds exactly what was learnt with n evictions since |
| `NatModel.RingRefinesRecentLog` | nfm-controller/src/events/nat_resolver.rs:66-109 | main result: after any run of learn and evict steps, a lookup succeeds if and only if an event with that tuple was learnt since the third most recent eviction, and answers with the other side of such an event |
| `NatModel.LookupIsLogAnswer` | nfm-controller/src/events/nat_resolver.rs:66-109 | after any run the ring answers exactly as the log does: with the last event that has the tuple, among those of the first age in slot order that has one |
| `NatModel.ResolveIffRecent` | nfm-controller/src/events/nat_resolver.rs:95-109 | over every run a socket is known if and only if an event with its egress tuple is recent; its endpoints are built from the opposite tuple, or that tuple is mixed and the agent aborts |
| `NatModel.Resolve` | nfm-controller/src/events/nat_resolver.rs:95-109 | an answer is valid, keeps the role, is given to valid contexts only, and there is none if and only if the lookup finds nothing; the abort is an outcome |
| `NatModel.ResolveAbortsIff` | nfm-controller/src/events/nat_resolver.rs:185-210 | over every run, looking up a socket aborts if and only if the event that answers it has mixed families on the other side |
| `NatModel.MixedEventAborts` | nfm-controller/src/events/nat_resolver.rs:185-210 | every plain IPv6 socket translated to IPv4 in both addresses, with its source in the VPC, yields an accepted event whose lookup aborts |
| `NatModel.NatResolver.PerformAggregationCycle` | nfm-controller/src/events/nat_resolver.rs:66-85 | the loop learns into the head slot both ways, and a failed read changes nothing |
| `NatModel.NatResolver.PerformEviction` | nfm-controller/src/events/nat_resolver.rs:87-91 | the head advances and its slot is emptied |
| `NatModel.NatResolver.GetBeyondNatEntry` | nfm-controller/src/events/nat_resolver.rs:95-109 | the search over slots 0, 1, 2 computes the resolution that the log theorems are about, abort included |
| `NatModel.NatResolver.StoreBeyondNatEntries` | nfm-controller/src/events/nat_resolver.rs:111-129 | aborts if and only if some socket without an external context has a mixed answer; otherwise exactly these sockets are looked up, nothing else in the cache changes, and both counts are exact |
| `NatModel.AttachedContext` | nfm-controller/src/events/nat_resolver.rs:111-129 | endpoints already attached stay; otherwise they are what the ring resolves to, if anything |
| `NatModel.NatCountsAre` | nfm-controller/src/events/nat_resolver.rs:111-129 | completed counts the sockets that got external endpoints, partial those looked up in vain |
| `Pipeline.ProcessedEntry` | nfm-controller/src/events/event_provider_ebpf.rs:140-151 | what processing does to one entry: statistics and cores from the read, own context never, external context only beside a valid one |
| `Pipeline.InvStep` | nfm-controller/src/events/event_provider_ebpf.rs:100-197 | every step of either party keeps the invariant: capacities, valid contexts, cached cores present in the map, removals that will succeed |
| `Pipeline.RunKeepsInv` | nfm-controller/src/events/event_provider_ebpf.rs:100-197 | the same over every interleaving of BPF events with the steps of any number of cycles |
| `Pipeline.QuietStep` | nfm-controller/src/events/event_provider_ebpf.rs:355-398 | without interference, what was read is the merge of the listed shards, and what is left in the map is cached or listed for removal |
| `Pipeline.RunKeepsQuietInv` | nfm-controller/src/events/event_provider_ebpf.rs:355-398 | the same over every run |
| `Pipeline.CacheAndMapStayInStep` | nfm-controller/src/events/event_provider_ebpf.rs:100-197 | main result: over every run from start-up no BPF removal fails, events inside cycles included; and after a cycle with no event inside it every socket in the map is cached with exactly its cores |
| `Pipeline.ReadSocketsAreCached` | nfm-controller/src/events/event_provider_ebpf.rs:416-423 | inside a cycle the missing-from-cache branch is unreachable |
| `Pipeline.CycleAccountsForEverySocket` | nfm-controller/src/events/event_provider_ebpf.rs:149-156 | in every reachable cycle each socket read is credited, lacks endpoints or meets a full table, and the levels over all flows count exactly the credited ones |
| `Pipeline.AbsorbedTimestamp` | nfm-controller/src/events/event_provider_ebpf.rs:112-117 | a context taken in counts as touched half the tracking time ago, never before the epoch |
| `Pipeline.StaleIff` | nfm-controller/src/events/event_provider_ebpf.rs:140-140 | stale means untouched for the whole tracking time, or never touched |
| `Pipeline.ReadRttIsFresh` | nfm-controller/src/events/event_provider_ebpf.rs:390-397 | the round-trip times of an undisturbed read come from exactly the cores touched at or after the time the cache had for the socket |
| `Pipeline.ProcessedGoesTo` | nfm-controller/src/events/event_provider_ebpf.rs:145-147 | where a socket's traffic goes: to endpoints attached before, or resolved now, or else its own |
| `Pipeline.CycleCreditsFlows` | nfm-controller/src/events/event_provider_ebpf.rs:149-156 | in every cycle, flow by flow, a metric grows by exactly the contributions of the sockets whose endpoints give that flow |
| `Levels.GatheredWithout` | nfm-controller/src/events/event_provider_ebpf.rs:382-398 | the level of a socket over several cores, counter or flag, loses at most one core's share when that core is left out |
| `Levels.NotBehindStep` | nfm-controller/src/events/event_provider_ebpf.rs:355-398 | every step keeps what is cached backed by the entries of its cores, and what is being read on the way to at least that |
| `Levels.NotBehindAlongRun` | nfm-controller/src/events/event_provider_ebpf.rs:355-398 | over every run, events inside cycles included, no complete read of a cached socket is behind the cache, in any counter that no event takes back and in any flag |
| `Levels.ReadsLoseNoFlag` | nfm-controller/src/events/event_provider_ebpf.rs:382-398 | main result: over every run, a complete read finds every flagged cached socket and every flag that is cached |
| `Audit.EmittedCongruent` | nfm-controller/src/events/sock_cache.rs:211-249 | adding one more delta keeps the running total congruent to the cached counter |
| `Audit.BooksStep` | nfm-controller/src/events/event_provider_ebpf.rs:100-202 | every step keeps the books of every metric balanced, what saturated flows lose included |
| `Audit.BooksAlongRun` | nfm-controller/src/events/event_provider_ebpf.rs:100-202 | the same over every run from start-up |
| `Audit.ConservationLedger` | nfm-controller/src/events/sock_cache.rs:198-263 | main result: over every run and for every counter, a cached counter is modulo its width all that was emitted since the socket entered the cache; each lifetime's emissions split into credited, dropped for want of endpoints and dropped at the flow limit, all of it the second while there is no context; and all that was credited is in flows pending, in flows taken or in what saturated flows lost, which is nothing if and only if no single flow ever saturated |
| `Audit.CountedOnce` | nfm-controller/src/events/event_provider_ebpf.rs:445-448 | main result: over every run a cache lifetime adds at most one to sockets_completed and at most one to severed_establish over all flows, nothing while it is cached, and the flows hold exactly these |
| `Audit.KeptContributesNothing` | nfm-controller/src/events/sock_cache.rs:51-67 | what counts once is contributed only by an entry evicted in the same pass |
| `Audit.UninitialisedEntriesDoNotLinger` | nfm-controller/src/events/sock_cache.rs:40-67 | over every run, the counter of uninitialised cycles is absent if and only if the entry has had a context and a read; otherwise it is the number of eviction passes survived, at most one |
| `Audit.EvictionIsExact` | nfm-controller/src/events/sock_cache.rs:267-282 | who is evicted, in plain arithmetic: read closed with a context; last touched plus the tracking time not after now, or never touched; overdue for initialisation; and every survivor is otherwise |
| `Audit.CompletedIffEvicted` | nfm-controller/src/events/event_provider_ebpf.rs:445-448 | a socket counts as completed if and only if the pass evicts it |
| `Audit.DroppedIff` | nfm-controller/src/events/event_provider_ebpf.rs:416-443 | a cached socket is dropped if and only if it has no valid context, or its flow is new and the table is full |
| `Audit.SeveredConnectRepeatsIff` | nfm-controller/src/events/network_event.rs:233-245 | over every run a cache lifetime is counted more than once if and only if a read with a flow found it flagged, open and fresh and a later read had a flow; at most once otherwise; and the flows hold exactly these counts |
| `Audit.LingeringIsCountedAgain` | nfm-controller/src/events/network_event.rs:233-245 | over every run, a cached socket once counted so is found by every complete read, contributes one again, and is credited unless the flow limit is reached |
| `Audit.SeveredConnectLingersIff` | nfm-controller/src/events/sock_cache.rs:51-67 | a read finds a socket lingering if and only if it is flagged, not closed and touched after the staleness timestamp; with a flow, that is being credited and kept |
| `SeveredTwice.SeveredConnectCountedTwice` | nfm-controller/src/events/network_event.rs:233-245 | a run from start-up with two events and two cycles in which one lifetime is credited twice |
| `Conservation.QuietCountsAlongRun` | nfm-controller/src/events/event_provider_ebpf.rs:382-398 | over every run, after an undisturbed cycle, every cached counter is that of the merged shards still in the map |
| `Conservation.EmittedIsSingleStore` | nfm-controller/src/events/sock_cache.rs:198-263 | main result: over every run, after an undisturbed cycle, what was emitted for a cached socket is modulo the counter's width what one entry fed its whole event log would hold |
| `Conservation.CachedFollowsLog` | nfm-controller/src/events/event_provider_ebpf.rs:382-398 | over every run, after an undisturbed cycle, each cached counter is exactly that of one entry fed the socket's whole event log |
| `Conservation.CountersAreEmittedExactly` | nfm-controller/src/events/sock_cache.rs:198-263 | main result: over every run, events inside cycles included, and for each of the thirteen counters, while no event takes the counter back in the entry it updates, what was emitted for a cached socket is its cached counter exactly: no delta wraps around |
| `Conservation.ForwardCountersAreEmittedExactly` | nfm-controller/src/events/sock_cache.rs:198-263 | in terms of the events alone: exact while a kernel counter is never reported below an earlier report, and an accumulated one does not outgrow its width |
| `Conservation.CountersEndToEnd` | nfm-controller/src/events/sock_cache.rs:198-263 | and after an undisturbed cycle it is exactly that of one entry fed the whole event log |
| `Controller.ReadFits` | nfm-controller/src/events/event_provider_ebpf.rs:382-398 | an undisturbed read of shards whose sums fit overflows nowhere, whatever the cache says about freshness |
| `Controller.EventProviderEbpf.constructor` | nfm-controller/src/events/event_provider_ebpf.rs:229-288 | a new provider is the start state of the machine, with the first sampling interval |
| `Controller.EventProviderEbpf.EbpfCounters` | nfm-controller/src/events/event_provider_ebpf.rs:332-352 | every counter's total over the cores modulo 2^32, or zero when the per-core array cannot be read, and the change since the last read |
| `Controller.EventProviderEbpf.AddAllCores` | nfm-controller/src/events/event_provider_ebpf.rs:340-344 | the loop over cores, in any order, gives the totals modulo 2^32 |
| `Controller.EventProviderEbpf.Counters` | nfm-controller/src/events/event_provider_ebpf.rs:205-215 | what is published is the change since the last publication |
| `Controller.EventProviderEbpf.NetworkStats` | nfm-controller/src/events/event_provider_ebpf.rs:200-202 | the pending flows are handed out once: the machine's step of taking flows |
| `Controller.EventProviderEbpf.AdaptSampling` | nfm-controller/src/events/event_provider_ebpf.rs:104-108 | the interval follows the sampling law, driven by new insertion errors |
| `Controller.EventProviderEbpf.AbsorbContexts` | nfm-controller/src/events/event_provider_ebpf.rs:110-124 | the loop with its early exit is a run of the machine; all contexts are taken in unless the cache is full, and exactly those are listed |
| `Controller.EventProviderEbpf.DropContexts` | nfm-controller/src/events/event_provider_ebpf.rs:126-132 | the loop is a run that removes exactly these from the map |
| `Controller.EventProviderEbpf.AggregateSockStats` | nfm-controller/src/events/event_provider_ebpf.rs:382-398 | the loop is a run that reads every entry once; each socket's statistics are the merge of the shards of its listed cores, each core listed once, and no entry is left out |
| `Controller.EventProviderEbpf.RemoveEntry` | nfm-controller/src/events/event_provider_ebpf.rs:361-370 | one removal, successful or not, is one step |
| `Controller.EventProviderEbpf.RemoveSocket` | nfm-controller/src/events/event_provider_ebpf.rs:360-374 | the inner loop, which gives up a socket at its first missing entry |
| `Controller.EventProviderEbpf.PerformBpfEviction` | nfm-controller/src/events/event_provider_ebpf.rs:355-377 | the outer loop: a run that leaves nothing to remove, with every evicted socket completed or failed |
| `Controller.EventProviderEbpf.RefreshCache` | nfm-controller/src/events/event_provider_ebpf.rs:140-147 | aborts if and only if a socket it looks up has a mixed answer; otherwise deltas and the cache after NAT, with the ring that was learnt after the read |
| `Controller.EventProviderEbpf.FlowsAndEviction` | nfm-controller/src/events/event_provider_ebpf.rs:149-163 | flows from the cache before eviction, then the partition into kept and evicted |
| `Controller.EventProviderEbpf.PerformAggregationCycle` | nfm-controller/src/events/event_provider_ebpf.rs:100-197 | main result: the whole cycle as code is a run of the machine; it aborts only where a socket looked up has a mixed answer, and otherwise goes from idle to idle, keeps all invariants, leaves cache and map in step with no failed removal and only sockets touched within the tracking time, and adapts the sampling interval |
| `CounterPublication.OneMoreRead` | nfm-common/src/network.rs:273-300 | adding one more core keeps the total exact modulo 2^32 for all fourteen counters, in any order of cores |
| `CounterPublication.RunFollows` | nfm-controller/src/events/event_provider_ebpf.rs:332-352 | at every point of every run, kernel counters, last read and published sum are congruent to their unbounded references |
| `CounterPublication.PublicationTelescopes` | nfm-controller/src/events/event_provider_ebpf.rs:205-215 | main result: for every interleaving of events, reads, failed reads and publications, all published deltas add up modulo 2^32 to what the last read gave: what had been counted then, or zero if it failed |
| `CounterPublication.EveryEventHasOneClass` | nfm-common/src/sock_ops_handler.rs:92-120 | everything counted in a run is the seven class counts plus the header-option events |
| `CounterPublication.PublishedIsCounted` | nfm-controller/src/events/event_provider_ebpf.rs:205-215 | at every point of every run the published deltas add up modulo 2^32 to what had been counted at the read last published |
| `CounterPublication.HeldCountersHaveOneClass` | nfm-controller/src/events/event_provider_ebpf.rs:205-215 | in every state of every run, modulo 2^32, the socket events last read are their seven class counts plus the header-option events up to that read, and the same for the counters and for the sums published |
| `Sampling.AdaptMonotone` | nfm-controller/src/events/event_provider_ebpf.rs:290-314 | both adjustments are monotone and stay within 1 to 1000 |
| `Sampling.IntervalInRange` | nfm-controller/src/events/event_provider_ebpf.rs:286-314 | from construction, over every sequence of error and clean cycles, the interval stays within 1 to 1000 |
| `Sampling.SamplingConverges` | nfm-controller/src/events/event_provider_ebpf.rs:290-314 | from any reachable interval 17 error cycles reach 1000 and 35 clean cycles reach 1, and neither number can be smaller |
| `Histograms.HistogramIsExact` | nfm-controller/src/events/network_event.rs:180-206 | below 2^32 samples count and sum are exact and minimum and maximum are the true extremes |
| `Histograms.HistogramIsCoherent` | nfm-controller/src/events/network_event.rs:180-206 | the histogram of proper samples is coherent: count 0 forces all zeros, otherwise 0 < min and count * min <= sum <= count * max |
| `Histograms.MergeIsHomomorphism` | verifiers/report-verifier/src/report_ext.rs:44-51 | merging two windows' histograms is the histogram of the concatenated samples |
| `Histograms.FlowHistograms` | nfm-controller/src/events/network_event.rs:167-206 | after any sequence of deltas a flow's three histograms are those of the measurements in the deltas |
| `Histograms.FlowRttHistogramsAreCoherent` | nfm-controller/src/events/network_event.rs:180-206 | hence both RTT histograms of every flow are exact and coherent |
| `Histograms.FlowHistogramsOverCycles` | nfm-controller/src/events/network_event.rs:167-214 | over any number of cycles, a flow's histograms are those of all measurements of the sockets that belong to it since it is in the table |
| `Histograms.ConnectCountIsSampleCountIff` | nfm-controller/src/events/network_event.rs:169-178 | the connect count is the number of measurements if and only if every measurement stood for one success |
| `Histograms.MeasurementKeepsCoherentIff` | nfm-controller/src/events/network_event.rs:169-178 | before saturation, a connect measurement keeps every coherent window coherent if and only if it stands for one success and is not zero |
| `Histograms.CleanConnectsAreSamples` | nfm-controller/src/events/network_event.rs:169-178 | a window of such measurements is the plain histogram of the connect times |
| `Histograms.FlowConnectHistogramIsCoherent` | nfm-controller/src/events/network_event.rs:169-178 | hence the connect histogram of a flow is exact and coherent where every delta is of that kind |
| `Histograms.TwoSuccessesAreIncoherent` | nfm-controller/src/events/network_event.rs:169-178 | a socket established twice between two reads, from its events on, makes a flow with count 2, one time in the sum and count * min > sum |
| `Histograms.TruncatedConnectIsIncoherent` | nfm-common/src/network.rs:214-220 | a connect of 2^32 microseconds, from its events on, makes a flow with a count of one and no minimum |
| `TopLoss.CompareIsTotalPreorder` | nfm-controller/src/events/event_filter_top_loss.rs:18-26 | the comparator is reflexive, antisymmetric under swapping and transitive, saturation included |
| `TopLoss.CompareIs` | nfm-controller/src/events/event_filter_top_loss.rs:18-26 | a flow compares as less if and only if its loss is smaller, or equal with fewer bytes |
| `TopLoss.LossIsWeightedSum` | nfm-controller/src/events/network_event.rs:102-126 | the loss is retransmissions plus twice the timeouts plus four times the severed connections, and bytes are both directions, each up to the greatest value of its width |
| `TopLoss.InsertionPoint` | nfm-controller/src/events/event_filter_top_loss.rs:30-36 | an entry goes after all that do not rank lower, so ties keep input order |
| `TopLoss.InsertSorts` | nfm-controller/src/events/event_filter_top_loss.rs:30-36 | inserting the next entry there keeps the first entries sorted, complete and of the same multiplicities |
| `TopLoss.SortDescending` | nfm-controller/src/events/event_filter_top_loss.rs:30-36 | the same flows with the same multiplicities, in descending order, ties in input order |
| `TopLoss.FilterEvents` | nfm-controller/src/events/event_filter_top_loss.rs:30-36 | the true top k by (loss, bytes): length min(k, n), a sub-multiset of the input drawn without repetition, descending, ties in input order, and no kept flow below a dropped one |
| `TopLoss.TopIsUnique` | nfm-controller/src/events/event_filter_top_loss.rs:30-36 | any selection with these properties is the same one |
| `EventTimerModel.FiringKeeps` | nfm-controller/src/utils/event_timer.rs:75-92 | a firing is exactly at its scheduled time, loses and duplicates no event, and leaves nothing overdue |
| `EventTimerModel.RunKeeps` | nfm-controller/src/utils/event_timer.rs:75-92 | the same over every run of firings |
| `EventTimerModel.TimerKeepsCadence` | nfm-controller/src/utils/event_timer.rs:75-138 | main result: over every run, consecutive firings of one event are at least period - jitter and less than period + jitter apart, exactly a period without jitter |
| `EventTimerModel.FakeClock.Sleep` | nfm-controller/src/utils/clock.rs:56-58 | the clock moves by exactly the sleep |
| `EventTimerModel.EventTimer.AddEvent` | nfm-controller/src/utils/event_timer.rs:54-58 | a new id, one more event, due within jitter of one period from now |
| `EventTimerModel.EventTimer.AddEventWithDelay` | nfm-controller/src/utils/event_timer.rs:61-72 | the same, later by the delay |
| `EventTimerModel.EventTimer.ChooseNextInvocation` | nfm-controller/src/utils/event_timer.rs:131-138 | the next time is one period from now, less the jitter, plus the draw from twice the jitter; within the jitter range for every draw |
| `EventTimerModel.EventTimer.TrySleep` | nfm-controller/src/utils/event_timer.rs:94-112 | fails if and only if the exit flag shows after a fragment that begins before the time is up, and then ends with the first such fragment; otherwise the fragments add up to the exact total |
| `EventTimerModel.EventTimer.Pop` | nfm-controller/src/utils/event_timer.rs:155-165 | an event of earliest time is taken out, whichever it is among equals |
| `EventTimerModel.EventTimer.AwaitNextEvent` | nfm-controller/src/utils/event_timer.rs:75-92 | a completed wait is a firing of the machine; the exit id comes from an empty timer, or if and only if the exit flag shows within the sleep, and then the event is gone from the timer |

## Left out

- Controller.EventProviderEbpf.PerformAggregationCycle: as code it has no BPF event inside it; events inside a cycle are covered by the state machine. It requires that shard sums fit, since the agent aborts otherwise, exactly as `MergeAbortsIff` says.
- Controller.EventProviderEbpf.Counters: publishes the event counters only; of the process counters just the eviction failures are kept, and these are not reset, since they stay 0. The results the other process counters are summed from are stated where they are produced.
- Flows.FlowsGroupByService: the protocol and Kubernetes fields of a flow's key are not modelled.
- Flows.AggregateOne: socket counts of a flow are unbounded; the agent checks them for overflow and each grows by at most one per aggregated socket.
- EventTimerModel.EventTimer.Pop: the binary heap is a sequence scanned for the earliest time; only which event comes out matters.
- EventTimerModel.EventTimer.AddEventWithDelay: requires a jitter not above now plus the period, where the agent's subtraction would abort; times do not overflow 64 bits.
- TopLoss.SortDescending: stands for the standard library's stable sort, as an insertion sort over values.
- Cidr.ParseAll: starts from a numeric base and prefix length; the text of addresses and CIDR lines is not parsed.
- Statistics records (SockStats, NetworkStats, EventCounters, histograms) are values: an update in place is an assignment of the whole record, so aliasing between two references to one record is not modelled.
- Loading eBPF programs, map handles, failures of the maps other than capacity and existence, dropping capabilities: kernel I/O.
- Byte-order conversion when a context is read from the kernel's socket structure: events carry the finished context.
- Netlink reads and parsing of conntrack messages: the model is fed arbitrary sequences of tuple pairs.
- Averages over cores per socket, memory estimates and other floating point.
- Reports, OTLP encoding, signing, HTTP, metadata providers, Kubernetes enrichment, the OpenMetrics server: plumbing over foreign libraries.
- Merging of whole reports by the verifier beyond histograms: plain sums of counters.
- The no-op NAT resolver, which never finds anything.
- Quality of random numbers: each draw is an arbitrary value in its range.
