/** Statistics grouped by flow, and how socket deltas are folded into them
    (nfm-controller/src/events/network_event.rs; `aggregate_into_flows` of
    nfm-controller/src/events/event_provider_ebpf.rs).

    The socket counts, which the agent increments with overflow checks, are unbounded here; each
    grows by at most one per aggregated socket. */
module Flows {
  import opened Arith
  import opened SockStatsModel
  import opened SockContextModel
  import opened SockCacheModel
  import opened MapSum

  const AGG_FLOWS_MAX_ENTRIES: nat := 10_000
  const ELIDED_PORT: nat := 0

  datatype FlowProperties = FlowProperties(
    localAddress: IpAddr, remoteAddress: IpAddr, localPort: nat, remotePort: nat)

  datatype Histogram = Histogram(count: nat, min: nat, max: nat, sum: nat)

  const EMPTY_HISTOGRAM: Histogram := Histogram(0, 0, 0, 0)

  datatype NetworkStats = NetworkStats(
    socketsConnecting: nat, socketsEstablished: nat, socketsClosing: nat, socketsClosed: nat,
    socketsCompleted: nat, severedConnect: nat, severedEstablish: nat,
    connectAttempts: nat, bytesReceived: nat, bytesDelivered: nat,
    segmentsReceived: nat, segmentsDelivered: nat,
    retransSyn: nat, retransEst: nat, retransClose: nat,
    rtosSyn: nat, rtosEst: nat, rtosClose: nat,
    connectUs: Histogram, rttUs: Histogram, rttSmoothedUs: Histogram)

  const NO_TRAFFIC: NetworkStats :=
    NetworkStats(0, 0, 0, 0, 0, 0, 0, 0, 0, 0, 0, 0, 0, 0, 0, 0, 0, 0,
                 EMPTY_HISTOGRAM, EMPTY_HISTOGRAM, EMPTY_HISTOGRAM)

  type FlowTable = map<FlowProperties, NetworkStats>

  /** The client's port is elided, so that all its connections to one service share a flow. */
  function FlowOf(c: SockContext): Option<FlowProperties> {
    if !IsValid(c) then None
    else
      var (local, remote) :=
        if c.addressFamily == AF_INET then (V4(c.localIpv4), V4(c.remoteIpv4))
        else (V6(c.localIpv6), V6(c.remoteIpv6));
      if c.isClient then Some(FlowProperties(local, remote, ELIDED_PORT, c.remotePort))
      else Some(FlowProperties(local, remote, c.localPort, ELIDED_PORT))
  }

  /** The four fields of a flow: both addresses of the context's family, and of the two ports the
      server's, the client's being elided. */
  lemma FlowFields(c: SockContext)
    ensures FlowOf(c).Some? <==> IsValid(c)
    ensures FlowOf(c).Some? ==>
      var p := FlowOf(c).value;
      && p.localAddress == (if c.addressFamily == AF_INET then V4(c.localIpv4) else V6(c.localIpv6))
      && p.remoteAddress == (if c.addressFamily == AF_INET then V4(c.remoteIpv4) else V6(c.remoteIpv6))
      && p.localPort == (if c.isClient then 0 else c.localPort)
      && p.remotePort == (if c.isClient then c.remotePort else 0)
  {
  }

  /** The port that names the service: the server's. */
  function ServicePort(c: SockContext): nat { if c.isClient then c.remotePort else c.localPort }

  predicate SameHosts(c: SockContext, d: SockContext) {
    && c.addressFamily == d.addressFamily
    && (if c.addressFamily == AF_INET then c.localIpv4 == d.localIpv4 && c.remoteIpv4 == d.remoteIpv4
        else c.localIpv6 == d.localIpv6 && c.remoteIpv6 == d.remoteIpv6)
  }

  /** A flow gathers exactly the connections between the same two hosts, in the same role, to one
      service port: the client's own port makes no difference, and anything else does. The one way for
      the two roles to share a flow is a service on port 0. */
  lemma FlowsGroupByService(c: SockContext, d: SockContext)
    requires IsValid(c) && IsValid(d)
    ensures FlowOf(c) == FlowOf(d) <==>
      && SameHosts(c, d) && ServicePort(c) == ServicePort(d)
      && (c.isClient == d.isClient || ServicePort(c) == ELIDED_PORT)
    ensures FlowOf(c).Some? && FlowOf(d).Some?
  {
  }

  // ---------------------------------------------------------------------------------------------
  // One socket into one flow
  // ---------------------------------------------------------------------------------------------

  /** One measurement, standing for `times` events. */
  function Observe(h: Histogram, v: nat, times: nat): Histogram {
    Histogram(SatAdd(h.count, times, U32), MinNonZero(h.min, v), Max(h.max, v), SatAdd(h.sum, v, U64))
  }

  function ClearLevels(n: NetworkStats): NetworkStats {
    n.(socketsConnecting := 0, socketsEstablished := 0, socketsClosing := 0, socketsClosed := 0)
  }

  function UpdateSockCounters(n: NetworkStats, s: SockStats): NetworkStats {
    if StartedClosure !in s.flags then
      if EnteredEstablish in s.flags then n.(socketsEstablished := n.socketsEstablished + 1)
      else n.(socketsConnecting := n.socketsConnecting + 1)
    else
      var m := if Closed in s.flags then n.(socketsClosed := n.socketsClosed + 1)
               else n.(socketsClosing := n.socketsClosing + 1);
      if TerminatedFromSyn in s.flags then m.(severedConnect := m.severedConnect + 1)
      else if TerminatedFromEst in s.flags then m.(severedEstablish := m.severedEstablish + 1)
      else m
  }

  function AddCounters(n: NetworkStats, s: SockStats): NetworkStats {
    n.(connectAttempts := SatAdd(n.connectAttempts, s.connectAttempts, U32),
       bytesReceived := SatAdd(n.bytesReceived, s.bytesReceived, U64),
       bytesDelivered := SatAdd(n.bytesDelivered, s.bytesDelivered, U64),
       segmentsReceived := SatAdd(n.segmentsReceived, s.segmentsReceived, U64),
       segmentsDelivered := SatAdd(n.segmentsDelivered, s.segmentsDelivered, U64),
       retransSyn := SatAdd(n.retransSyn, s.retransSyn, U32),
       retransEst := SatAdd(n.retransEst, s.retransEst, U32),
       retransClose := SatAdd(n.retransClose, s.retransClose, U32),
       rtosSyn := SatAdd(n.rtosSyn, s.rtosSyn, U32),
       rtosEst := SatAdd(n.rtosEst, s.rtosEst, U32),
       rtosClose := SatAdd(n.rtosClose, s.rtosClose, U32))
  }

  function AddTimings(n: NetworkStats, s: SockStats): NetworkStats {
    var seenRtt := s.rttCount > 0;
    n.(connectUs :=
         (if s.connectSuccesses > 0 && ConnectUs(s).Some?
          then Observe(n.connectUs, ConnectUs(s).value, s.connectSuccesses) else n.connectUs),
       rttUs :=
         (if seenRtt && s.rttLatestUs > 0 then Observe(n.rttUs, s.rttLatestUs, 1) else n.rttUs),
       rttSmoothedUs :=
         (if seenRtt && s.rttSmoothedUs > 0 then Observe(n.rttSmoothedUs, s.rttSmoothedUs, 1)
          else n.rttSmoothedUs))
  }

  /** Adds a socket's delta to its flow. */
  function AddSock(n: NetworkStats, s: SockStats): NetworkStats {
    AddTimings(AddCounters(UpdateSockCounters(n, s), s), s)
  }

  function AddToFlow(n: NetworkStats, w: SockWrapper, s: SockStats): NetworkStats {
    var m := AddSock(n, s);
    if ShouldEvict(w) then m.(socketsCompleted := m.socketsCompleted + 1) else m
  }

  // ---------------------------------------------------------------------------------------------
  // What can be audited in a flow
  // ---------------------------------------------------------------------------------------------

  datatype Metric =
    | OfCounter(f: Counter)
    | Completed | SeveredConnect | SeveredEstablish
    | Levels | LevelClosed

  /** Two counters inform timings only and are not summed into flows. */
  predicate IsFlowMetric(m: Metric) {
    m.OfCounter? ==> !m.f.RttCount? && !m.f.ConnectSuccesses?
  }

  function FlowValue(n: NetworkStats, m: Metric): nat {
    match m
    case OfCounter(BytesReceived) => n.bytesReceived
    case OfCounter(BytesDelivered) => n.bytesDelivered
    case OfCounter(SegmentsReceived) => n.segmentsReceived
    case OfCounter(SegmentsDelivered) => n.segmentsDelivered
    case OfCounter(RetransSyn) => n.retransSyn
    case OfCounter(RetransEst) => n.retransEst
    case OfCounter(RetransClose) => n.retransClose
    case OfCounter(RtosSyn) => n.rtosSyn
    case OfCounter(RtosEst) => n.rtosEst
    case OfCounter(RtosClose) => n.rtosClose
    case OfCounter(ConnectAttempts) => n.connectAttempts
    case OfCounter(_) => 0
    case Completed => n.socketsCompleted
    case SeveredConnect => n.severedConnect
    case SeveredEstablish => n.severedEstablish
    case Levels => n.socketsConnecting + n.socketsEstablished + n.socketsClosing + n.socketsClosed
    case LevelClosed => n.socketsClosed
  }

  /** Where a flow's field of a counter saturates. */
  function FlowWidth(f: Counter): (m: nat)
    ensures m > 0
  {
    if Kernel(f) then U64 else U32
  }

  /** The value fits the flow's field. */
  predicate FitsFlow(m: Metric, v: nat) { m.OfCounter? ==> v < FlowWidth(m.f) }

  /** What is lost when that value is put into the flow's field. */
  function Lost(m: Metric, v: nat): (lost: nat)
    ensures lost == 0 <==> FitsFlow(m, v)
  {
    if FitsFlow(m, v) then 0 else v - (FlowWidth(m.f) - 1)
  }

  /** What one socket should add to its flow. */
  function Contribution(m: Metric, w: SockWrapper, s: SockStats): nat {
    match m
    case OfCounter(f) => Ctr(s, f)
    case Completed => if ShouldEvict(w) then 1 else 0
    case SeveredConnect => if StartedClosure in s.flags && TerminatedFromSyn in s.flags then 1 else 0
    case SeveredEstablish =>
      if StartedClosure in s.flags && TerminatedFromSyn !in s.flags && TerminatedFromEst in s.flags
      then 1 else 0
    case Levels => 1
    case LevelClosed => if StartedClosure in s.flags && Closed in s.flags then 1 else 0
  }

  /** Which level and which severed count a socket grows, flag by flag. */
  lemma SockIsCountedUnder(n: NetworkStats, s: SockStats)
    ensures var n' := UpdateSockCounters(n, s);
      && n'.socketsConnecting == n.socketsConnecting
         + (if StartedClosure !in s.flags && EnteredEstablish !in s.flags then 1 else 0)
      && n'.socketsEstablished == n.socketsEstablished
         + (if StartedClosure !in s.flags && EnteredEstablish in s.flags then 1 else 0)
      && n'.socketsClosing == n.socketsClosing
         + (if StartedClosure in s.flags && Closed !in s.flags then 1 else 0)
      && n'.socketsClosed == n.socketsClosed
         + (if StartedClosure in s.flags && Closed in s.flags then 1 else 0)
      && n'.severedConnect == n.severedConnect
         + (if StartedClosure in s.flags && TerminatedFromSyn in s.flags then 1 else 0)
      && n'.severedEstablish == n.severedEstablish
         + (if StartedClosure in s.flags && TerminatedFromSyn !in s.flags && TerminatedFromEst in s.flags
            then 1 else 0)
  {
  }

  /** Clearing the levels leaves everything else of a flow as it is, histograms included. */
  lemma ClearedFlow(n: NetworkStats)
    ensures var n' := ClearLevels(n);
      && n'.socketsConnecting == n'.socketsEstablished == n'.socketsClosing == n'.socketsClosed == 0
      && n'.(socketsConnecting := n.socketsConnecting, socketsEstablished := n.socketsEstablished,
             socketsClosing := n.socketsClosing, socketsClosed := n.socketsClosed) == n
  {
  }

  lemma AddCountersMetric(n: NetworkStats, s: SockStats, f: Counter)
    requires IsFlowMetric(OfCounter(f))
    ensures FlowValue(AddCounters(n, s), OfCounter(f))
         == SatAdd(FlowValue(n, OfCounter(f)), Ctr(s, f), FlowWidth(f))
  {
  }

  /** Each layer of the update leaves the metrics of the others alone. */
  lemma LayersAreDisjoint(n: NetworkStats, s: SockStats, m: Metric)
    ensures FlowValue(AddTimings(n, s), m) == FlowValue(n, m)
    ensures !m.OfCounter? ==> FlowValue(AddCounters(n, s), m) == FlowValue(n, m)
    ensures m.OfCounter? || m == Completed ==> FlowValue(UpdateSockCounters(n, s), m) == FlowValue(n, m)
  {
  }

  lemma UpdateSockCountersMetric(n: NetworkStats, w: SockWrapper, s: SockStats, m: Metric)
    requires !m.OfCounter? && m != Completed
    ensures FlowValue(UpdateSockCounters(n, s), m) == FlowValue(n, m) + Contribution(m, w, s)
  {
  }

  lemma AddSockCounter(n: NetworkStats, s: SockStats, f: Counter)
    requires IsFlowMetric(OfCounter(f))
    ensures FlowValue(AddSock(n, s), OfCounter(f)) == SatAdd(FlowValue(n, OfCounter(f)), Ctr(s, f), FlowWidth(f))
  {
    var a := UpdateSockCounters(n, s);
    LayersAreDisjoint(n, s, OfCounter(f));
    AddCountersMetric(a, s, f);
    LayersAreDisjoint(AddCounters(a, s), s, OfCounter(f));
  }

  lemma AddSockState(n: NetworkStats, w: SockWrapper, s: SockStats, m: Metric)
    requires !m.OfCounter?
    ensures FlowValue(AddSock(n, s), m)
         == FlowValue(n, m) + if m == Completed then 0 else Contribution(m, w, s)
  {
    var a := UpdateSockCounters(n, s);
    LayersAreDisjoint(n, s, m);
    LayersAreDisjoint(a, s, m);
    LayersAreDisjoint(AddCounters(a, s), s, m);
    if m != Completed {
      UpdateSockCountersMetric(n, w, s, m);
    }
  }

  lemma CompletedOnly(n: NetworkStats, w: SockWrapper, s: SockStats, m: Metric)
    ensures FlowValue(AddToFlow(n, w, s), m)
         == FlowValue(AddSock(n, s), m) + if m == Completed then Contribution(m, w, s) else 0
  {
  }

  /** For every metric, a socket adds exactly its contribution, less what saturation loses. */
  lemma AddToFlowMetric(n: NetworkStats, w: SockWrapper, s: SockStats, m: Metric)
    requires IsFlowMetric(m)
    ensures FlowValue(AddToFlow(n, w, s), m) + Lost(m, FlowValue(n, m) + Contribution(m, w, s))
         == FlowValue(n, m) + Contribution(m, w, s)
  {
    CompletedOnly(n, w, s, m);
    if m.OfCounter? {
      AddSockCounter(n, s, m.f);
    } else {
      AddSockState(n, w, s, m);
    }
  }

  // ---------------------------------------------------------------------------------------------
  // Many sockets into many flows
  // ---------------------------------------------------------------------------------------------

  datatype Verdict = Credited(flow: FlowProperties) | MissingProps | AboveLimit | NotCached

  /** A socket counts under its beyond-NAT endpoints where these are known. */
  function ContextBeyondNat(w: SockWrapper): SockContext {
    match w.contextExternal case Some(c) => c case None => w.context
  }

  function Judge(flows: FlowTable, cache: Cache, k: SockKey): Verdict {
    if k !in cache then NotCached
    else
      match FlowOf(ContextBeyondNat(cache[k]))
      case None => MissingProps
      case Some(p) => if p in flows || |flows| < AGG_FLOWS_MAX_ENTRIES then Credited(p) else AboveLimit
  }

  function FlowAt(flows: FlowTable, p: FlowProperties): NetworkStats {
    if p in flows then flows[p] else NO_TRAFFIC
  }

  function FlowStep(flows: FlowTable, cache: Cache, k: SockKey, s: SockStats): FlowTable {
    match Judge(flows, cache, k)
    case Credited(p) => flows[p := AddToFlow(FlowAt(flows, p), cache[k], s)]
    case _ => flows
  }

  function CountVerdict(r: OpResult, v: Verdict): OpResult {
    match v
    case Credited(_) => r.(completed := r.completed + 1)
    case MissingProps => r.(partial := r.partial + 1)
    case _ => r.(failed := r.failed + 1)
  }

  /** Folding sockets into flows in the given order. The order matters once the table is full. */
  function FlowFold(flows: FlowTable, cache: Cache, deltas: Stream, order: seq<SockKey>): FlowTable
    requires forall i :: 0 <= i < |order| ==> order[i] in deltas
  {
    if order == [] then flows
    else
      var k := order[|order| - 1];
      FlowStep(FlowFold(flows, cache, deltas, order[..|order| - 1]), cache, k, deltas[k].stats)
  }

  function FoldCounts(flows: FlowTable, cache: Cache, deltas: Stream, order: seq<SockKey>): OpResult
    requires forall i :: 0 <= i < |order| ==> order[i] in deltas
  {
    if order == [] then NOTHING_DONE
    else
      var init, k := order[..|order| - 1], order[|order| - 1];
      CountVerdict(FoldCounts(flows, cache, deltas, init),
                   Judge(FlowFold(flows, cache, deltas, init), cache, k))
  }

  function ClearAllLevels(flows: FlowTable): FlowTable {
    map p | p in flows :: ClearLevels(flows[p])
  }

  /** `order` visits every key of `keys` once. */
  ghost predicate Visits<T(!new)>(order: seq<T>, keys: set<T>) {
    NoDup(order) && |order| == |keys| && forall i :: 0 <= i < |order| ==> order[i] in keys
  }

  lemma {:induction false} VisitsAll<T(!new)>(order: seq<T>, keys: set<T>)
    requires NoDup(order) && forall i :: 0 <= i < |order| ==> order[i] in keys
    ensures |order| <= |keys|
    ensures |order| == |keys| ==> forall k :: k in keys ==> k in order
    decreases |order|
  {
    if order != [] {
      var n := |order| - 1;
      var k := order[n];
      VisitsAll(order[..n], keys - {k});
      if |order| == |keys| {
        forall j | j in keys ensures j in order {
          if j != k {
            assert j in order[..n];
          }
        }
      }
    }
  }

  ghost function Values(flows: FlowTable, m: Metric): map<FlowProperties, nat> {
    map p | p in flows :: FlowValue(flows[p], m)
  }

  /** A metric summed over all flows. */
  ghost function FlowTotal(flows: FlowTable, m: Metric): nat { Sum(Values(flows, m)) }

  /** What one socket is credited with, given the table it meets. */
  function Credit(flows: FlowTable, cache: Cache, k: SockKey, s: SockStats, m: Metric): nat {
    if Judge(flows, cache, k).Credited? then Contribution(m, cache[k], s) else 0
  }

  lemma NoTrafficIsZero(m: Metric)
    ensures FlowValue(NO_TRAFFIC, m) == 0
  {
  }

  lemma WriteFlowTotal(flows: FlowTable, p: FlowProperties, n: NetworkStats, m: Metric)
    ensures FlowTotal(flows[p := n], m)
         == FlowTotal(flows, m) - FlowValue(FlowAt(flows, p), m) + FlowValue(n, m)
    ensures FlowValue(FlowAt(flows, p), m) <= FlowTotal(flows, m)
  {
    NoTrafficIsZero(m);
    SumUpdate(Values(flows, m), p, FlowValue(n, m));
    assert Values(flows[p := n], m) == Values(flows, m)[p := FlowValue(n, m)];
  }

  /** What saturation loses of one socket's credit: that is a matter of its own flow alone. */
  function StepLost(flows: FlowTable, cache: Cache, k: SockKey, s: SockStats, m: Metric): nat {
    match Judge(flows, cache, k)
    case Credited(p) => Lost(m, FlowValue(FlowAt(flows, p), m) + Contribution(m, cache[k], s))
    case _ => 0
  }

  /** A step adds exactly the credit to the grand total, less what saturation loses. */
  lemma FlowStepTotal(flows: FlowTable, cache: Cache, k: SockKey, s: SockStats, m: Metric)
    requires IsFlowMetric(m)
    ensures FlowTotal(FlowStep(flows, cache, k, s), m) + StepLost(flows, cache, k, s, m)
         == FlowTotal(flows, m) + Credit(flows, cache, k, s, m)
  {
    match Judge(flows, cache, k) {
      case Credited(p) =>
        var n := FlowAt(flows, p);
        WriteFlowTotal(flows, p, AddToFlow(n, cache[k], s), m);
        AddToFlowMetric(n, cache[k], s, m);
      case _ =>
    }
  }

  function FoldCredit(flows: FlowTable, cache: Cache, deltas: Stream, order: seq<SockKey>, m: Metric): nat
    requires forall i :: 0 <= i < |order| ==> order[i] in deltas
  {
    if order == [] then 0
    else
      var init, k := order[..|order| - 1], order[|order| - 1];
      FoldCredit(flows, cache, deltas, init, m)
      + Credit(FlowFold(flows, cache, deltas, init), cache, k, deltas[k].stats, m)
  }

  function FoldLost(flows: FlowTable, cache: Cache, deltas: Stream, order: seq<SockKey>, m: Metric): nat
    requires forall i :: 0 <= i < |order| ==> order[i] in deltas
  {
    if order == [] then 0
    else
      var init, k := order[..|order| - 1], order[|order| - 1];
      FoldLost(flows, cache, deltas, init, m)
      + StepLost(FlowFold(flows, cache, deltas, init), cache, k, deltas[k].stats, m)
  }

  /** Whatever the order and whatever saturates: the total over all flows grows by what was credited,
      less what single flows could not hold. */
  lemma {:induction false} FlowFoldTotal(
      flows: FlowTable, cache: Cache, deltas: Stream, order: seq<SockKey>, m: Metric)
    requires forall i :: 0 <= i < |order| ==> order[i] in deltas
    requires IsFlowMetric(m)
    ensures FlowTotal(FlowFold(flows, cache, deltas, order), m) + FoldLost(flows, cache, deltas, order, m)
         == FlowTotal(flows, m) + FoldCredit(flows, cache, deltas, order, m)
  {
    if order != [] {
      var init, k := order[..|order| - 1], order[|order| - 1];
      FlowFoldTotal(flows, cache, deltas, init, m);
      FlowStepTotal(FlowFold(flows, cache, deltas, init), cache, k, deltas[k].stats, m);
    }
  }

  /** The socket, if credited, fits the flow it meets. */
  predicate StepFits(flows: FlowTable, cache: Cache, k: SockKey, s: SockStats, m: Metric) {
    match Judge(flows, cache, k)
    case Credited(p) => FitsFlow(m, FlowValue(FlowAt(flows, p), m) + Contribution(m, cache[k], s))
    case _ => true
  }

  /** No single flow saturates on the way. */
  predicate FoldFits(flows: FlowTable, cache: Cache, deltas: Stream, order: seq<SockKey>, m: Metric)
    requires forall i :: 0 <= i < |order| ==> order[i] in deltas
  {
    order == [] ||
    var init, k := order[..|order| - 1], order[|order| - 1];
    && FoldFits(flows, cache, deltas, init, m)
    && StepFits(FlowFold(flows, cache, deltas, init), cache, k, deltas[k].stats, m)
  }

  lemma StepLostIff(flows: FlowTable, cache: Cache, k: SockKey, s: SockStats, m: Metric)
    ensures StepLost(flows, cache, k, s, m) == 0 <==> StepFits(flows, cache, k, s, m)
  {
  }

  /** Nothing is lost exactly when no single flow saturates. */
  lemma {:induction false} FoldLostIff(
      flows: FlowTable, cache: Cache, deltas: Stream, order: seq<SockKey>, m: Metric)
    requires forall i :: 0 <= i < |order| ==> order[i] in deltas
    ensures FoldLost(flows, cache, deltas, order, m) == 0 <==> FoldFits(flows, cache, deltas, order, m)
  {
    if order != [] {
      var init, k := order[..|order| - 1], order[|order| - 1];
      FoldLostIff(flows, cache, deltas, init, m);
      StepLostIff(FlowFold(flows, cache, deltas, init), cache, k, deltas[k].stats, m);
    }
  }

  lemma {:induction false} UnboundedLosesNothing(
      flows: FlowTable, cache: Cache, deltas: Stream, order: seq<SockKey>, m: Metric)
    requires forall i :: 0 <= i < |order| ==> order[i] in deltas
    requires !m.OfCounter?
    ensures FoldLost(flows, cache, deltas, order, m) == 0
  {
    if order != [] {
      UnboundedLosesNothing(flows, cache, deltas, order[..|order| - 1], m);
    }
  }

  lemma {:induction false} FlowFoldBounded(
      flows: FlowTable, cache: Cache, deltas: Stream, order: seq<SockKey>)
    requires forall i :: 0 <= i < |order| ==> order[i] in deltas
    requires |flows| <= AGG_FLOWS_MAX_ENTRIES
    ensures |FlowFold(flows, cache, deltas, order)| <= AGG_FLOWS_MAX_ENTRIES
    ensures flows.Keys <= FlowFold(flows, cache, deltas, order).Keys
  {
    if order != [] {
      var init, k := order[..|order| - 1], order[|order| - 1];
      FlowFoldBounded(flows, cache, deltas, init);
      var mid := FlowFold(flows, cache, deltas, init);
      match Judge(mid, cache, k) {
        case Credited(p) =>
          assert FlowFold(flows, cache, deltas, order).Keys == mid.Keys + {p};
        case _ =>
      }
    }
  }

  // --- Flow by flow ---

  /** The socket's traffic belongs to that flow: the one of its endpoints beyond NAT where these are
      attached, and of its own endpoints otherwise. */
  predicate GoesTo(w: SockWrapper, p: FlowProperties) {
    && (w.contextExternal.Some? ==> FlowOf(w.contextExternal.value) == Some(p))
    && (w.contextExternal.None? ==> FlowOf(w.context) == Some(p))
  }

  /** A socket is credited to the flow it belongs to and to no other. */
  lemma CreditedWhereItGoes(flows: FlowTable, cache: Cache, k: SockKey, p: FlowProperties)
    requires k in cache
    ensures Judge(flows, cache, k) == Credited(p) <==>
      GoesTo(cache[k], p) && (p in flows || |flows| < 10_000)
  {
  }

  /** One flow by itself: the sockets that belong to it, folded in order, and no others. */
  function OwnFold(n: NetworkStats, cache: Cache, deltas: Stream, order: seq<SockKey>, p: FlowProperties)
    : NetworkStats
    requires forall i :: 0 <= i < |order| ==> order[i] in deltas && order[i] in cache
  {
    if order == [] then n
    else
      var before, k := OwnFold(n, cache, deltas, order[..|order| - 1], p), order[|order| - 1];
      if GoesTo(cache[k], p) then AddToFlow(before, cache[k], deltas[k].stats) else before
  }

  ghost predicate AnyGoesTo(cache: Cache, order: seq<SockKey>, p: FlowProperties)
    requires forall i :: 0 <= i < |order| ==> order[i] in cache
  {
    exists i :: 0 <= i < |order| && GoesTo(cache[order[i]], p)
  }

  lemma AnyGoesToSplit(cache: Cache, order: seq<SockKey>, p: FlowProperties)
    requires order != [] && forall i :: 0 <= i < |order| ==> order[i] in cache
    ensures AnyGoesTo(cache, order, p) <==>
      AnyGoesTo(cache, order[..|order| - 1], p) || GoesTo(cache[order[|order| - 1]], p)
  {
    var init := order[..|order| - 1];
    if i :| 0 <= i < |order| && GoesTo(cache[order[i]], p) {
      assert i < |init| ==> GoesTo(cache[init[i]], p);
    }
    if i :| 0 <= i < |init| && GoesTo(cache[init[i]], p) {
      assert GoesTo(cache[order[i]], p);
    }
  }

  lemma {:induction false} NoneGoesTo(n: NetworkStats, cache: Cache, deltas: Stream, order: seq<SockKey>,
                                      p: FlowProperties)
    requires forall i :: 0 <= i < |order| ==> order[i] in deltas && order[i] in cache
    requires !AnyGoesTo(cache, order, p)
    ensures OwnFold(n, cache, deltas, order, p) == n
  {
    if order != [] {
      AnyGoesToSplit(cache, order, p);
      NoneGoesTo(n, cache, deltas, order[..|order| - 1], p);
    }
  }

  /** What one more socket does to one flow. */
  lemma FlowStepAt(flows: FlowTable, cache: Cache, k: SockKey, s: SockStats, p: FlowProperties)
    requires k in cache
    ensures var after := FlowStep(flows, cache, k, s);
      if GoesTo(cache[k], p) && (p in flows || |flows| < AGG_FLOWS_MAX_ENTRIES)
      then p in after && after[p] == AddToFlow(FlowAt(flows, p), cache[k], s)
      else (p in after <==> p in flows) && (p in flows ==> after[p] == flows[p])
    ensures |FlowStep(flows, cache, k, s)| >= |flows|
  {
    CreditedWhereItGoes(flows, cache, k, p);
    match Judge(flows, cache, k) {
      case Credited(q) =>
        assert flows.Keys <= FlowStep(flows, cache, k, s).Keys;
        CreditedWhereItGoes(flows, cache, k, q);
        SizeGrows(flows.Keys, FlowStep(flows, cache, k, s).Keys);
      case _ =>
    }
  }

  lemma SizeGrows<T>(a: set<T>, b: set<T>)
    requires a <= b
    ensures |a| <= |b|
  {
    assert b == a + (b - a);
  }

  /** Each flow of the table holds exactly the sockets that belong to it, in their order, on top of what it
      held. A flow that is not in the table had none, or met a full one. */
  lemma {:induction false} FlowIsOwnFold(flows: FlowTable, cache: Cache, deltas: Stream, order: seq<SockKey>,
                                         p: FlowProperties)
    requires forall i :: 0 <= i < |order| ==> order[i] in deltas && order[i] in cache
    ensures var after := FlowFold(flows, cache, deltas, order);
      && (p in after ==> after[p] == OwnFold(FlowAt(flows, p), cache, deltas, order, p))
      && (p !in after ==>
            p !in flows && (AnyGoesTo(cache, order, p) ==> |after| >= AGG_FLOWS_MAX_ENTRIES))
  {
    if order != [] {
      var init, k := order[..|order| - 1], order[|order| - 1];
      FlowIsOwnFold(flows, cache, deltas, init, p);
      AnyGoesToSplit(cache, order, p);
      var mid := FlowFold(flows, cache, deltas, init);
      FlowStepAt(mid, cache, k, deltas[k].stats, p);
      if p !in mid && !AnyGoesTo(cache, init, p) {
        NoneGoesTo(FlowAt(flows, p), cache, deltas, init, p);
      }
    }
  }

  /** What the sockets of one flow contribute. */
  function SumTo(cache: Cache, deltas: Stream, order: seq<SockKey>, p: FlowProperties, m: Metric): nat
    requires forall i :: 0 <= i < |order| ==> order[i] in deltas && order[i] in cache
  {
    if order == [] then 0
    else
      var k := order[|order| - 1];
      SumTo(cache, deltas, order[..|order| - 1], p, m)
      + if GoesTo(cache[k], p) then Contribution(m, cache[k], deltas[k].stats) else 0
  }

  /** What its own field cannot hold of that. */
  function OwnLost(n: NetworkStats, cache: Cache, deltas: Stream, order: seq<SockKey>, p: FlowProperties, m: Metric)
    : nat
    requires forall i :: 0 <= i < |order| ==> order[i] in deltas && order[i] in cache
  {
    if order == [] then 0
    else
      var init, k := order[..|order| - 1], order[|order| - 1];
      OwnLost(n, cache, deltas, init, p, m)
      + if GoesTo(cache[k], p)
        then Lost(m, FlowValue(OwnFold(n, cache, deltas, init, p), m) + Contribution(m, cache[k], deltas[k].stats))
        else 0
  }

  lemma {:induction false} OwnFoldMetric(n: NetworkStats, cache: Cache, deltas: Stream, order: seq<SockKey>,
                                         p: FlowProperties, m: Metric)
    requires forall i :: 0 <= i < |order| ==> order[i] in deltas && order[i] in cache
    requires IsFlowMetric(m)
    ensures FlowValue(OwnFold(n, cache, deltas, order, p), m) + OwnLost(n, cache, deltas, order, p, m)
         == FlowValue(n, m) + SumTo(cache, deltas, order, p, m)
  {
    if order != [] {
      var init, k := order[..|order| - 1], order[|order| - 1];
      OwnFoldMetric(n, cache, deltas, init, p, m);
      AddToFlowMetric(OwnFold(n, cache, deltas, init, p), cache[k], deltas[k].stats, m);
    }
  }

  /** A flow's metric grows by exactly the contributions of the sockets that belong to it, less what its
      own field loses. */
  lemma FlowGetsItsSockets(flows: FlowTable, cache: Cache, deltas: Stream, order: seq<SockKey>,
                           p: FlowProperties, m: Metric)
    requires forall i :: 0 <= i < |order| ==> order[i] in deltas && order[i] in cache
    requires IsFlowMetric(m)
    ensures var after := FlowFold(flows, cache, deltas, order);
      && (p in after ==>
            FlowValue(after[p], m) + OwnLost(FlowAt(flows, p), cache, deltas, order, p, m)
            == FlowValue(FlowAt(flows, p), m) + SumTo(cache, deltas, order, p, m))
      && (p !in after ==>
            p !in flows && (AnyGoesTo(cache, order, p) ==> |after| >= AGG_FLOWS_MAX_ENTRIES))
  {
    FlowIsOwnFold(flows, cache, deltas, order, p);
    OwnFoldMetric(FlowAt(flows, p), cache, deltas, order, p, m);
  }

  // --- What the counts say ---

  /** Sockets without usable endpoints. */
  function CountUnplaced(cache: Cache, order: seq<SockKey>): nat
    requires forall i :: 0 <= i < |order| ==> order[i] in cache
  {
    if order == [] then 0
    else
      var w := cache[order[|order| - 1]];
      CountUnplaced(cache, order[..|order| - 1])
      + if (w.contextExternal.Some? && !IsValid(w.contextExternal.value))
           || (w.contextExternal.None? && !IsValid(w.context))
        then 1 else 0
  }

  /** Partial are exactly the sockets without usable endpoints; failed are those that met a full table. */
  lemma {:induction false} PartialAreUnplaced(
      flows: FlowTable, cache: Cache, deltas: Stream, order: seq<SockKey>)
    requires forall i :: 0 <= i < |order| ==> order[i] in deltas && order[i] in cache
    ensures FoldCounts(flows, cache, deltas, order).partial == CountUnplaced(cache, order)
    ensures FoldCounts(flows, cache, deltas, order).failed > 0 ==>
      |FlowFold(flows, cache, deltas, order)| >= AGG_FLOWS_MAX_ENTRIES
  {
    if order != [] {
      var init, k := order[..|order| - 1], order[|order| - 1];
      PartialAreUnplaced(flows, cache, deltas, init);
      VerdictOf(FlowFold(flows, cache, deltas, init), cache, k, deltas[k].stats);
    }
  }

  lemma VerdictOf(flows: FlowTable, cache: Cache, k: SockKey, s: SockStats)
    requires k in cache
    ensures var (w, v) := (cache[k], Judge(flows, cache, k));
      && (v.MissingProps? <==> || (w.contextExternal.Some? && !IsValid(w.contextExternal.value))
                               || (w.contextExternal.None? && !IsValid(w.context)))
      && !v.NotCached? && (v.AboveLimit? ==> |flows| >= AGG_FLOWS_MAX_ENTRIES)
      && |FlowStep(flows, cache, k, s)| >= |flows|
  {
    match Judge(flows, cache, k) {
      case Credited(q) => SizeGrows(flows.Keys, FlowStep(flows, cache, k, s).Keys);
      case _ =>
    }
  }

  /** How many of the sockets credited to a flow are flagged closed. */
  function CreditedClosed(flows: FlowTable, cache: Cache, deltas: Stream, order: seq<SockKey>): nat
    requires forall i :: 0 <= i < |order| ==> order[i] in deltas
  {
    if order == [] then 0
    else
      var init, k := order[..|order| - 1], order[|order| - 1];
      CreditedClosed(flows, cache, deltas, init)
      + if Judge(FlowFold(flows, cache, deltas, init), cache, k).Credited? && IsClosed(deltas[k].stats)
        then 1 else 0
  }

  lemma {:induction false} LevelCredits(
      flows: FlowTable, cache: Cache, deltas: Stream, order: seq<SockKey>)
    requires forall i :: 0 <= i < |order| ==> order[i] in deltas
    requires forall k :: k in deltas && IsClosed(deltas[k].stats)
               ==> StartedClosure in deltas[k].stats.flags
    ensures FoldCredit(flows, cache, deltas, order, Levels)
         == FoldCounts(flows, cache, deltas, order).completed
    ensures FoldCredit(flows, cache, deltas, order, LevelClosed)
         == CreditedClosed(flows, cache, deltas, order)
  {
    if order != [] {
      LevelCredits(flows, cache, deltas, order[..|order| - 1]);
    }
  }

  lemma {:induction false} FoldCountsTotal(
      flows: FlowTable, cache: Cache, deltas: Stream, order: seq<SockKey>)
    requires forall i :: 0 <= i < |order| ==> order[i] in deltas
    ensures var r := FoldCounts(flows, cache, deltas, order);
      r.completed + r.partial + r.failed == |order|
  {
    if order != [] {
      FoldCountsTotal(flows, cache, deltas, order[..|order| - 1]);
    }
  }

  lemma ClearedLevelsAreZero(flows: FlowTable)
    ensures FlowTotal(ClearAllLevels(flows), Levels) == 0
    ensures FlowTotal(ClearAllLevels(flows), LevelClosed) == 0
  {
    SumZero(Values(ClearAllLevels(flows), Levels));
    SumZero(Values(ClearAllLevels(flows), LevelClosed));
  }

  /** After aggregation, whatever the order: every socket of the stream is accounted for, the four
      levels summed over all flows are the sockets credited, the closed level is the credited
      sockets flagged closed, and the table is within its limit. */
  lemma AggregationAccountsForEverySocket(
      flows: FlowTable, cache: Cache, deltas: Stream, order: seq<SockKey>)
    requires Visits(order, deltas.Keys) && |flows| <= AGG_FLOWS_MAX_ENTRIES
    requires forall k :: k in deltas && IsClosed(deltas[k].stats)
               ==> StartedClosure in deltas[k].stats.flags
    ensures var start := ClearAllLevels(flows);
      var (after, r) := (FlowFold(start, cache, deltas, order), FoldCounts(start, cache, deltas, order));
      && r.completed + r.partial + r.failed == |deltas|
      && FlowTotal(after, Levels) == r.completed
      && FlowTotal(after, LevelClosed)
         == CreditedClosed(start, cache, deltas, order)
      && |after| <= AGG_FLOWS_MAX_ENTRIES
  {
    var start := ClearAllLevels(flows);
    assert start.Keys == flows.Keys;
    FoldCountsTotal(start, cache, deltas, order);
    LevelCredits(start, cache, deltas, order);
    ClearedLevelsAreZero(flows);
    UnboundedLosesNothing(start, cache, deltas, order, Levels);
    UnboundedLosesNothing(start, cache, deltas, order, LevelClosed);
    FlowFoldTotal(start, cache, deltas, order, Levels);
    FlowFoldTotal(start, cache, deltas, order, LevelClosed);
    FlowFoldBounded(start, cache, deltas, order);
  }

  /** Clearing the levels touches no accumulated metric. */
  lemma ClearLevelsKeepsTotals(flows: FlowTable, m: Metric)
    requires m != Levels && m != LevelClosed
    ensures FlowTotal(ClearAllLevels(flows), m) == FlowTotal(flows, m)
  {
    assert Values(ClearAllLevels(flows), m) == Values(flows, m);
  }

  // ---------------------------------------------------------------------------------------------
  // The loop itself
  // ---------------------------------------------------------------------------------------------

  /** Exactly one of the four levels is greater, by one. */
  predicate OneLevelGrew(a: NetworkStats, b: NetworkStats) {
    && a.socketsConnecting <= b.socketsConnecting && a.socketsEstablished <= b.socketsEstablished
    && a.socketsClosing <= b.socketsClosing && a.socketsClosed <= b.socketsClosed
    && FlowValue(b, Levels) == FlowValue(a, Levels) + 1
  }

  /** Cut off while connecting or while established. */
  predicate IsSevered(s: SockStats) {
    StartedClosure in s.flags && (TerminatedFromSyn in s.flags || TerminatedFromEst in s.flags)
  }

  /** The two severed counts have grown by that much in all. */
  predicate SeveredGrew(a: NetworkStats, b: NetworkStats, by_: nat) {
    && a.severedConnect <= b.severedConnect && a.severedEstablish <= b.severedEstablish
    && b.severedConnect + b.severedEstablish == a.severedConnect + a.severedEstablish + by_
  }

  /** `n` is `m` but for levels and severed counts. */
  predicate SameButStates(n: NetworkStats, m: NetworkStats) {
    n == m.(socketsConnecting := n.socketsConnecting, socketsEstablished := n.socketsEstablished,
            socketsClosing := n.socketsClosing, socketsClosed := n.socketsClosed,
            severedConnect := n.severedConnect, severedEstablish := n.severedEstablish)
  }

  /** Counts a socket under its state: exactly one level grows by one; one severed count grows by one
      if the socket was severed, and none otherwise; nothing else changes. */
  method CountSock(n0: NetworkStats, s: SockStats) returns (n: NetworkStats)
    ensures n == UpdateSockCounters(n0, s)
    ensures OneLevelGrew(n0, n)
    ensures SeveredGrew(n0, n, if IsSevered(s) then 1 else 0)
    ensures n.socketsConnecting > n0.socketsConnecting <==> StartedClosure !in s.flags && EnteredEstablish !in s.flags
    ensures n.socketsEstablished > n0.socketsEstablished <==> StartedClosure !in s.flags && EnteredEstablish in s.flags
    ensures n.socketsClosing > n0.socketsClosing <==> StartedClosure in s.flags && Closed !in s.flags
    ensures n.socketsClosed > n0.socketsClosed <==> StartedClosure in s.flags && Closed in s.flags
    ensures SameButStates(n, n0)
  {
    n := n0;
    if StartedClosure !in s.flags {
      if EnteredEstablish in s.flags {
        n := n.(socketsEstablished := n.socketsEstablished + 1);
      } else {
        n := n.(socketsConnecting := n.socketsConnecting + 1);
      }
    } else {
      if Closed in s.flags {
        n := n.(socketsClosed := n.socketsClosed + 1);
      } else {
        n := n.(socketsClosing := n.socketsClosing + 1);
      }
      if TerminatedFromSyn in s.flags {
        n := n.(severedConnect := n.severedConnect + 1);
      } else if TerminatedFromEst in s.flags {
        n := n.(severedEstablish := n.severedEstablish + 1);
      }
    }
  }

  /** Carries forward the timing measurements whose events the socket saw in this period: without the
      event, or without a value, a histogram stays as it is. Nothing else changes. */
  method CarryTimings(n0: NetworkStats, s: SockStats) returns (n: NetworkStats)
    ensures n == AddTimings(n0, s)
    ensures s.connectSuccesses == 0 || ConnectUs(s).None? ==> n.connectUs == n0.connectUs
    ensures s.rttCount == 0 || s.rttLatestUs == 0 ==> n.rttUs == n0.rttUs
    ensures s.rttCount == 0 || s.rttSmoothedUs == 0 ==> n.rttSmoothedUs == n0.rttSmoothedUs
    ensures n == n0.(connectUs := n.connectUs, rttUs := n.rttUs, rttSmoothedUs := n.rttSmoothedUs)
  {
    n := n0;
    if s.connectSuccesses > 0 {
      var connectUs := ConnectUs(s);
      if connectUs.Some? {
        n := n.(connectUs := Observe(n.connectUs, connectUs.value, s.connectSuccesses));
      }
    }
    if s.rttCount > 0 {
      if s.rttLatestUs > 0 {
        n := n.(rttUs := Observe(n.rttUs, s.rttLatestUs, 1));
      }
      if s.rttSmoothedUs > 0 {
        n := n.(rttSmoothedUs := Observe(n.rttSmoothedUs, s.rttSmoothedUs, 1));
      }
    }
  }

  /** Adds a socket's delta to its flow, step by step. */
  method AddDelta(n0: NetworkStats, s: SockStats) returns (n: NetworkStats)
    ensures n == AddSock(n0, s)
  {
    n := CountSock(n0, s);
    n := AddCounters(n, s);
    n := CarryTimings(n, s);
  }

  /** One socket: find its flow, or make one below the limit, and add the delta. */
  method AggregateOne(flows0: FlowTable, cache: Cache, k: SockKey, s: SockStats, r0: OpResult)
    returns (flows: FlowTable, r: OpResult)
    ensures flows == FlowStep(flows0, cache, k, s)
    ensures r == CountVerdict(r0, Judge(flows0, cache, k))
    ensures forall p :: k in cache && GoesTo(cache[k], p) && (p in flows0 || |flows0| < AGG_FLOWS_MAX_ENTRIES) ==>
      p in flows && flows[p] == AddToFlow(FlowAt(flows0, p), cache[k], s)
    ensures forall p :: k !in cache || !GoesTo(cache[k], p) ==>
      (p in flows <==> p in flows0) && (p in flows0 ==> flows[p] == flows0[p])
  {
    flows, r := flows0, r0;
    if k !in cache {
      r := r.(failed := r.failed + 1);
      return;
    }
    var w := cache[k];
    match FlowOf(ContextBeyondNat(w)) {
      case None =>
        r := r.(partial := r.partial + 1);
      case Some(p) =>
        var n := NO_TRAFFIC;
        if p in flows {
          n := flows[p];
        } else if |flows| >= AGG_FLOWS_MAX_ENTRIES {
          r := r.(failed := r.failed + 1);
          return;
        }
        n := AddDelta(n, s);
        if ShouldEvict(w) {
          n := n.(socketsCompleted := n.socketsCompleted + 1);
        }
        flows := flows[p := n];
        r := r.(completed := r.completed + 1);
    }
  }

  /** `order` has visited all keys but those still to do. */
  ghost predicate VisitedAllBut<T(!new)>(order: seq<T>, keys: set<T>, todo: set<T>) {
    && todo <= keys && |order| + |todo| == |keys| && NoDup(order)
    && (forall i :: 0 <= i < |order| ==> order[i] in keys && order[i] !in todo)
  }

  lemma VisitOne<T(!new)>(order: seq<T>, keys: set<T>, todo: set<T>, k: T)
    requires VisitedAllBut(order, keys, todo) && k in todo
    ensures VisitedAllBut(order + [k], keys, todo - {k}) && (order + [k])[..|order|] == order
  {
  }

  /** The loop over the sockets. */
  method CreditAll(deltas: Stream, cache: Cache, start: FlowTable)
    returns (flows: FlowTable, r: OpResult, ghost order: seq<SockKey>)
    ensures Visits(order, deltas.Keys)
    ensures flows == FlowFold(start, cache, deltas, order)
    ensures r == FoldCounts(start, cache, deltas, order)
  {
    flows := start;
    r := NOTHING_DONE;
    order := [];
    var todo := deltas.Keys;
    while todo != {}
      invariant VisitedAllBut(order, deltas.Keys, todo)
      invariant flows == FlowFold(start, cache, deltas, order)
      invariant r == FoldCounts(start, cache, deltas, order)
      decreases todo
    {
      var k :| k in todo;
      VisitOne(order, deltas.Keys, todo, k);
      flows, r := AggregateOne(flows, cache, k, deltas[k].stats, r);
      order := order + [k];
      todo := todo - {k};
    }
  }

  /** Starts the levels afresh, then credits every socket to its flow. */
  method AggregateIntoFlows(deltas: Stream, cache: Cache, flows0: FlowTable)
    returns (flows: FlowTable, r: OpResult, ghost order: seq<SockKey>)
    ensures Visits(order, deltas.Keys)
    ensures flows == FlowFold(ClearAllLevels(flows0), cache, deltas, order)
    ensures r == FoldCounts(ClearAllLevels(flows0), cache, deltas, order)
    ensures r.completed + r.partial + r.failed == |deltas|
    ensures |flows0| <= AGG_FLOWS_MAX_ENTRIES ==>
      flows0.Keys <= flows.Keys && |flows| <= AGG_FLOWS_MAX_ENTRIES
    ensures deltas.Keys <= cache.Keys ==> forall p :: p in flows ==>
      flows[p] == OwnFold(FlowAt(ClearAllLevels(flows0), p), cache, deltas, order, p)
  {
    var start := ClearAllLevels(flows0);
    assert start.Keys == flows0.Keys;
    flows, r, order := CreditAll(deltas, cache, start);
    FoldCountsTotal(start, cache, deltas, order);
    assert |deltas| == |deltas.Keys|;
    if |flows0| <= AGG_FLOWS_MAX_ENTRIES {
      FlowFoldBounded(start, cache, deltas, order);
    }
    if deltas.Keys <= cache.Keys {
      forall p | p in flows ensures flows[p] == OwnFold(FlowAt(start, p), cache, deltas, order, p) {
        FlowIsOwnFold(start, cache, deltas, order, p);
      }
    }
  }
}
