/** The in-kernel half: what one sock_ops event does to the BPF maps
    (nfm-common/src/sock_ops_handler.rs, map rules from nfm-common/src/ebpf_mocks.rs).

    Plain additions wrap here: the BPF build has no overflow checks. */
module SockOps {
  import opened Arith
  import opened SockStatsModel
  import opened SockContextModel
  import opened EventCountersModel

  const BPF_TCP_CLOSE: nat := 1
  const BPF_TCP_ESTABLISHED: nat := 4
  const BPF_TCP_SYN_RECV: nat := 9
  const BPF_TCP_SYN_SENT: nat := 10

  datatype Op =
    | TcpConnect | PassiveEstablished | StateCb | RttCb | RetransCb | RtoCb
    | ParseHdrOpt | HdrOptLen
    | ActiveEstablished | TimeoutInit | RwndInit | NeedsEcn | UnknownOp

  datatype KernelStats = KernelStats(
    bytesReceived: nat, bytesAcked: nat, segmentsReceived: nat, segmentsDelivered: nat, srttUs: nat)

  /** One callback from the kernel. `flagsOk` is the outcome of registering for further events. */
  datatype Event = Event(
    cpu: nat, sock: nat, nowUs: nat, op: Op, sockState: nat, arg0: nat, arg1: nat,
    kernel: KernelStats, context: SockContext, flagsOk: bool)

  datatype EventResult =
    | Handled | OperationUnknown | ContextInvalid | MapInsertionError | SetCbFlagsError

  function KeyOf(e: Event): CpuSockKey { CpuSockKey(e.cpu, e.sock) }

  // ---------------------------------------------------------------------------------------------
  // Which events are let in
  // ---------------------------------------------------------------------------------------------

  predicate IsNewSockEvent(op: Op) { op.TcpConnect? || op.PassiveEstablished? }

  /** Sampling applies to new sockets only. The interval is never used as a modulus when it is 0. */
  function ShouldHandleEvent(op: Op, interval: nat, rand: nat): (b: bool)
    ensures interval > 1 && IsNewSockEvent(op) ==> (b <==> exists q: nat :: rand == q * interval)
    ensures interval <= 1 && IsNewSockEvent(op) ==> b
    ensures !IsNewSockEvent(op) ==> (!b <==> op in {ActiveEstablished, TimeoutInit, RwndInit, NeedsEcn})
  {
    if op in {TimeoutInit, RwndInit, NeedsEcn, ActiveEstablished} then false
    else if IsNewSockEvent(op) then
      interval <= 1 || (MultipleIff(rand, interval); rand % interval == 0)
    else true
  }

  lemma MultipleIff(x: nat, m: nat)
    requires m > 0
    ensures x % m == 0 <==> exists q: nat :: x == q * m
  {
    assert x == (x / m) * m + x % m;
    if q: nat :| x == q * m {
      var d := x / m - q;
      assert (x / m) * m - q * m == d * m;
      assert d >= 1 ==> d * m >= m;
      assert d <= -1 ==> d * m <= -1 * m;
    }
  }

  // ---------------------------------------------------------------------------------------------
  // What an event does to one statistics entry
  // ---------------------------------------------------------------------------------------------

  predicate IsStatsOp(op: Op) {
    op in {TcpConnect, PassiveEstablished, StateCb, RttCb, RetransCb, RtoCb, ParseHdrOpt, HdrOptLen}
  }

  predicate IsHdrOpt(op: Op) { op.ParseHdrOpt? || op.HdrOptLen? }

  function TakeKernelStats(s: SockStats, k: KernelStats): SockStats {
    s.(bytesReceived := k.bytesReceived, bytesDelivered := k.bytesAcked,
       segmentsReceived := k.segmentsReceived, segmentsDelivered := k.segmentsDelivered)
  }

  function NewSockEntry(e: Event, isClient: bool, s: SockStats): SockStats {
    s.(connectStartUs := e.nowUs,
       connectAttempts := if isClient then WrapAdd(s.connectAttempts, 1, U8) else s.connectAttempts,
       flags := if e.sockState == BPF_TCP_ESTABLISHED then s.flags + {EnteredEstablish} else s.flags)
  }

  function StateChangeFlags(oldState: nat, newState: nat): set<Flag> {
    if newState == BPF_TCP_ESTABLISHED then {EnteredEstablish}
    else if newState == BPF_TCP_SYN_SENT || newState == BPF_TCP_SYN_RECV then {}
    else {StartedClosure}
         + (if oldState == BPF_TCP_SYN_SENT || oldState == BPF_TCP_SYN_RECV
            then {TerminatedFromSyn} else {})
         + (if newState == BPF_TCP_CLOSE
            then {Closed} + (if oldState == BPF_TCP_ESTABLISHED then {TerminatedFromEst} else {})
            else {})
  }

  function StateChangeEntry(e: Event, s: SockStats): SockStats {
    var t := s.(flags := s.flags + StateChangeFlags(e.arg0, e.arg1));
    if e.arg1 == BPF_TCP_ESTABLISHED then
      t.(connectEndUs := e.nowUs,
         connectSuccesses := if e.arg0 == BPF_TCP_SYN_SENT then WrapAdd(s.connectSuccesses, 1, U8)
                             else s.connectSuccesses)
    else if e.arg1 == BPF_TCP_CLOSE then TakeKernelStats(t, e.kernel)
    else t
  }

  function RttEntry(e: Event, s: SockStats): SockStats {
    TakeKernelStats(
      s.(rttCount := WrapAdd(s.rttCount, 1, U32),
         rttLatestUs := if e.arg0 == 0 then e.kernel.srttUs else e.arg0,
         rttSmoothedUs := if e.arg1 == 0 then e.kernel.srttUs else e.arg1 / 8),
      e.kernel)
  }

  function RetransEntry(e: Event, s: SockStats): SockStats {
    if e.sockState == BPF_TCP_ESTABLISHED then
      s.(retransEst := WrapAdd(s.retransEst, e.arg1, U32))
    else if e.sockState == BPF_TCP_SYN_SENT then
      s.(retransSyn := WrapAdd(s.retransSyn, e.arg1, U32),
         connectAttempts := WrapAdd(s.connectAttempts, e.arg1 % U8, U8))
    else if e.sockState == BPF_TCP_SYN_RECV then
      s.(retransSyn := WrapAdd(s.retransSyn, e.arg1, U32))
    else
      s.(retransClose := WrapAdd(s.retransClose, e.arg1, U32))
  }

  function RtoEntry(e: Event, s: SockStats): SockStats {
    if e.sockState == BPF_TCP_ESTABLISHED then s.(rtosEst := WrapAdd(s.rtosEst, 1, U32))
    else if e.sockState == BPF_TCP_SYN_SENT || e.sockState == BPF_TCP_SYN_RECV
    then s.(rtosSyn := WrapAdd(s.rtosSyn, 1, U32))
    else s.(rtosClose := WrapAdd(s.rtosClose, 1, U32))
  }

  /** The entry after a handled event: touched, then updated by the event's own handler. */
  function UpdateEntry(e: Event, entry: SockStats): SockStats {
    var s := entry.(lastTouchedUs := e.nowUs);
    match e.op
    case TcpConnect => NewSockEntry(e, true, s)
    case PassiveEstablished => NewSockEntry(e, false, s)
    case StateCb => StateChangeEntry(e, s)
    case RttCb => RttEntry(e, s)
    case RetransCb => RetransEntry(e, s)
    case RtoCb => RtoEntry(e, s)
    case ParseHdrOpt => TakeKernelStats(s, e.kernel)
    case HdrOptLen => TakeKernelStats(s, e.kernel)
    case _ => entry
  }

  /** The event marks the entry with the flag: the five transitions. */
  predicate Marks(e: Event, fl: Flag) {
    match fl
    case EnteredEstablish =>
      || (IsNewSockEvent(e.op) && e.sockState == BPF_TCP_ESTABLISHED)
      || (e.op.StateCb? && e.arg1 == BPF_TCP_ESTABLISHED)
    case StartedClosure =>
      e.op.StateCb? && e.arg1 !in {BPF_TCP_ESTABLISHED, BPF_TCP_SYN_SENT, BPF_TCP_SYN_RECV}
    case TerminatedFromSyn =>
      && e.op.StateCb? && e.arg0 in {BPF_TCP_SYN_SENT, BPF_TCP_SYN_RECV}
      && e.arg1 !in {BPF_TCP_ESTABLISHED, BPF_TCP_SYN_SENT, BPF_TCP_SYN_RECV}
    case TerminatedFromEst => e.op.StateCb? && e.arg0 == BPF_TCP_ESTABLISHED && e.arg1 == BPF_TCP_CLOSE
    case Closed => e.op.StateCb? && e.arg1 == BPF_TCP_CLOSE
  }

  /** An event sets the flags it marks and clears none. */
  lemma UpdateEntryFlags(e: Event, s: SockStats, fl: Flag)
    requires IsStatsOp(e.op)
    ensures fl in UpdateEntry(e, s).flags <==> fl in s.flags || Marks(e, fl)
  {
  }

  /** A state change, written out: established, left for anything but the SYN states, left from a SYN
      state, closed, and closed straight from established. */
  lemma StateChangeMarks(e: Event, s: SockStats)
    requires e.op.StateCb?
    ensures EnteredEstablish in UpdateEntry(e, s).flags <==>
      EnteredEstablish in s.flags || e.arg1 == BPF_TCP_ESTABLISHED
    ensures StartedClosure in UpdateEntry(e, s).flags <==>
      StartedClosure in s.flags || (e.arg1 != BPF_TCP_ESTABLISHED && e.arg1 != BPF_TCP_SYN_SENT && e.arg1 != BPF_TCP_SYN_RECV)
    ensures TerminatedFromSyn in UpdateEntry(e, s).flags <==>
      || TerminatedFromSyn in s.flags
      || (&& (e.arg0 == BPF_TCP_SYN_SENT || e.arg0 == BPF_TCP_SYN_RECV)
          && e.arg1 != BPF_TCP_ESTABLISHED && e.arg1 != BPF_TCP_SYN_SENT && e.arg1 != BPF_TCP_SYN_RECV)
    ensures TerminatedFromEst in UpdateEntry(e, s).flags <==>
      TerminatedFromEst in s.flags || (e.arg0 == BPF_TCP_ESTABLISHED && e.arg1 == BPF_TCP_CLOSE)
    ensures Closed in UpdateEntry(e, s).flags <==> Closed in s.flags || e.arg1 == BPF_TCP_CLOSE
  {
    UpdateEntryFlags(e, s, EnteredEstablish);
    UpdateEntryFlags(e, s, StartedClosure);
    UpdateEntryFlags(e, s, TerminatedFromSyn);
    UpdateEntryFlags(e, s, TerminatedFromEst);
    UpdateEntryFlags(e, s, Closed);
  }

  /** The two round-trip times that an RTT event reports: the measured one, or the kernel's smoothed one
      where that is missing; and the smoothed one, an eighth of the argument, or again the kernel's. */
  predicate ReportsRtt(e: Event, latestUs: nat, smoothedUs: nat) {
    && (e.arg0 != 0 ==> latestUs == e.arg0)
    && (e.arg0 == 0 ==> latestUs == e.kernel.srttUs)
    && (e.arg1 != 0 ==> 8 * smoothedUs <= e.arg1 < 8 * smoothedUs + 8)
    && (e.arg1 == 0 ==> smoothedUs == e.kernel.srttUs)
  }

  /** An RTT event stores what it reports; every other event leaves both times alone. */
  lemma UpdateEntryRtt(e: Event, s: SockStats)
    requires IsStatsOp(e.op)
    ensures e.op.RttCb? ==> ReportsRtt(e, UpdateEntry(e, s).rttLatestUs, UpdateEntry(e, s).rttSmoothedUs)
    ensures !e.op.RttCb? ==>
      UpdateEntry(e, s).rttLatestUs == s.rttLatestUs && UpdateEntry(e, s).rttSmoothedUs == s.rttSmoothedUs
  {
  }

  // ---------------------------------------------------------------------------------------------
  // What an event does to the maps
  // ---------------------------------------------------------------------------------------------

  datatype Bpf = Bpf(
    props: map<CpuSockKey, SockContext>, propsCap: nat,
    stats: map<CpuSockKey, SockStats>, statsCap: nat,
    counters: map<nat, EventCounters>)

  function CountersAt(counters: map<nat, EventCounters>, cpu: nat): EventCounters {
    if cpu in counters then counters[cpu] else NO_EVENTS
  }

  predicate CanStore<K, V>(m: map<K, V>, cap: nat, k: K) { k in m || |m| < cap }

  function StatsOutcome(b: Bpf, e: Event): EventResult {
    if CanStore(b.stats, b.statsCap, KeyOf(e)) then Handled else MapInsertionError
  }

  /** How an event ends, from the maps it meets. */
  function Outcome(b: Bpf, e: Event): EventResult {
    if !IsStatsOp(e.op) then OperationUnknown
    else if !IsNewSockEvent(e.op) then StatsOutcome(b, e)
    else if !IsValid(e.context) then ContextInvalid
    else if KeyOf(e) in b.props || |b.props| >= b.propsCap then MapInsertionError
    else if !e.flagsOk then SetCbFlagsError
    else StatsOutcome(b, e)
  }

  /** A new socket's context is recorded, even when the steps after that fail. */
  predicate StoresContext(b: Bpf, e: Event) {
    && IsNewSockEvent(e.op) && IsValid(e.context)
    && KeyOf(e) !in b.props && |b.props| < b.propsCap
  }

  function ContextFor(e: Event): SockContext { e.context.(isClient := e.op.TcpConnect?) }

  function StatsAfter(b: Bpf, e: Event): map<CpuSockKey, SockStats> {
    if Outcome(b, e).Handled? then
      var entry := if KeyOf(e) in b.stats then b.stats[KeyOf(e)] else DEFAULT;
      b.stats[KeyOf(e) := UpdateEntry(e, entry)]
    else b.stats
  }

  function PropsAfter(b: Bpf, e: Event): map<CpuSockKey, SockContext> {
    if StoresContext(b, e) then b.props[KeyOf(e) := ContextFor(e)] else b.props
  }

  /** The counts one event contributes. */
  function EventCounts(e: Event, r: EventResult): EventCounters {
    NO_EVENTS.(
      socketEvents := 1,
      activeConnectEvents := if e.op.TcpConnect? then 1 else 0,
      passiveEstablishedEvents := if e.op.PassiveEstablished? then 1 else 0,
      stateChangeEvents := if e.op.StateCb? then 1 else 0,
      rttEvents := if e.op.RttCb? then 1 else 0,
      retransEvents := if e.op.RetransCb? then 1 else 0,
      rtoEvents := if e.op.RtoCb? then 1 else 0,
      otherEvents := if !IsStatsOp(e.op) then 1 else 0,
      activeEstablishedEvents :=
        if e.op.StateCb? && r.Handled? && e.arg1 == BPF_TCP_ESTABLISHED && e.arg0 == BPF_TCP_SYN_SENT
        then 1 else 0,
      socketsInvalid := if r.ContextInvalid? then 1 else 0,
      mapInsertionErrors := if r.MapInsertionError? then 1 else 0,
      rttsInvalid := if e.op.RttCb? && e.arg0 == 0 then 1 else 0,
      setFlagsErrors := if r.SetCbFlagsError? then 1 else 0)
  }

  function CountersAfter(counters: map<nat, EventCounters>, e: Event, r: EventResult)
    : map<nat, EventCounters>
  {
    counters[e.cpu := AddCounts(CountersAt(counters, e.cpu), EventCounts(e, r))]
  }

  function HandleEvent(b: Bpf, e: Event): Bpf {
    b.(props := PropsAfter(b, e),
       stats := StatsAfter(b, e),
       counters := CountersAfter(b.counters, e, Outcome(b, e)))
  }

  /** How an event ends, case by case. A new socket's failures are looked for in this order: endpoints of
      neither family, a context already recorded or no room for it, registration, no room for statistics. */
  lemma OutcomeIs(b: Bpf, e: Event)
    ensures Outcome(b, e).OperationUnknown? <==>
      e.op in {ActiveEstablished, TimeoutInit, RwndInit, NeedsEcn, UnknownOp}
    ensures Outcome(b, e).ContextInvalid? <==>
      (e.op.TcpConnect? || e.op.PassiveEstablished?) && e.context.addressFamily !in {2, 10}
    ensures Outcome(b, e).SetCbFlagsError? <==> ContextIsNew(b, e) && !e.flagsOk
    ensures Outcome(b, e).Handled? <==>
      && IsStatsOp(e.op) && (IsNewSockEvent(e.op) ==> ContextIsNew(b, e) && e.flagsOk)
      && (KeyOf(e) in b.stats || |b.stats| < b.statsCap)
    ensures Outcome(b, e).MapInsertionError? <==>
      || (IsNewSockEvent(e.op) && e.context.addressFamily in {2, 10} && !ContextIsNew(b, e))
      || (&& IsStatsOp(e.op) && (IsNewSockEvent(e.op) ==> ContextIsNew(b, e) && e.flagsOk)
          && KeyOf(e) !in b.stats && |b.stats| >= b.statsCap)
  {
  }

  /** A usable context of a new socket, not recorded yet, with room for it. */
  predicate ContextIsNew(b: Bpf, e: Event) {
    && (e.op.TcpConnect? || e.op.PassiveEstablished?) && e.context.addressFamily in {2, 10}
    && CpuSockKey(e.cpu, e.sock) !in b.props && |b.props| < b.propsCap
  }

  /** A context is recorded exactly when it is new, whatever fails after that: with the event's endpoints,
      in the client's role exactly on an active connect. */
  lemma RecordedContext(b: Bpf, e: Event)
    ensures ContextIsNew(b, e) ==>
      && CpuSockKey(e.cpu, e.sock) in PropsAfter(b, e)
      && var c := PropsAfter(b, e)[CpuSockKey(e.cpu, e.sock)];
         && (c.isClient <==> e.op.TcpConnect?)
         && c.localIpv4 == e.context.localIpv4 && c.remoteIpv4 == e.context.remoteIpv4
         && c.localIpv6 == e.context.localIpv6 && c.remoteIpv6 == e.context.remoteIpv6
         && c.localPort == e.context.localPort && c.remotePort == e.context.remotePort
         && c.addressFamily == e.context.addressFamily
    ensures !ContextIsNew(b, e) ==> PropsAfter(b, e) == b.props
  {
  }

  /** Under which of the fourteen counts an event falls. */
  predicate FallsUnder(e: Event, r: EventResult, t: Tally) {
    match t
    case Socket => true
    case ActiveConnect => e.op.TcpConnect?
    case PassiveEstablish => e.op.PassiveEstablished?
    case StateChange => e.op.StateCb?
    case Rtt => e.op.RttCb?
    case Retrans => e.op.RetransCb?
    case Rto => e.op.RtoCb?
    case Other => e.op in {ActiveEstablished, TimeoutInit, RwndInit, NeedsEcn, UnknownOp}
    case ActiveEstablish =>
      e.op.StateCb? && e.arg0 == BPF_TCP_SYN_SENT && e.arg1 == BPF_TCP_ESTABLISHED && r.Handled?
    case Invalid => r.ContextInvalid?
    case MapInsertion => r.MapInsertionError?
    case RttInvalid => e.op.RttCb? && e.arg0 == 0
    case SetFlags => r.SetCbFlagsError?
    case OtherError => false
  }

  lemma EventIsCountedUnder(e: Event, r: EventResult, t: Tally)
    ensures Count(EventCounts(e, r), t) == if FallsUnder(e, r, t) then 1 else 0
  {
  }

  // ---------------------------------------------------------------------------------------------
  // What every event keeps
  // ---------------------------------------------------------------------------------------------

  /** A socket severed while established is closed, and a closed socket has started to close. */
  ghost predicate FlagsOk(s: SockStats) {
    && (TerminatedFromEst in s.flags ==> Closed in s.flags)
    && (Closed in s.flags ==> StartedClosure in s.flags)
  }

  lemma UpdateEntryFlagsOk(e: Event, s: SockStats)
    requires FlagsOk(s)
    ensures FlagsOk(UpdateEntry(e, s))
  {
  }

  ghost predicate StatsInv(m: map<CpuSockKey, SockStats>, cap: nat) {
    |m| <= cap && forall k :: k in m ==> FlagsOk(m[k])
  }

  ghost predicate PropsInv(m: map<CpuSockKey, SockContext>, cap: nat) {
    |m| <= cap && forall k :: k in m ==> IsValid(m[k])
  }

  ghost predicate BpfInv(b: Bpf) {
    PropsInv(b.props, b.propsCap) && StatsInv(b.stats, b.statsCap)
  }

  /** `m'` is `m` with at most the entry of `key` added or changed. */
  ghost predicate OnlyAt<K, V>(m: map<K, V>, m': map<K, V>, key: K) {
    && m.Keys <= m'.Keys <= m.Keys + {key}
    && forall k :: k in m && k != key ==> m'[k] == m[k]
  }

  lemma StoreKeeps<K, V>(m: map<K, V>, cap: nat, key: K, v: V)
    requires |m| <= cap && CanStore(m, cap, key)
    ensures |m[key := v]| <= cap && OnlyAt(m, m[key := v], key)
  {
    assert m[key := v].Keys == m.Keys + {key};
  }

  lemma StatsAfterKeeps(b: Bpf, e: Event)
    requires StatsInv(b.stats, b.statsCap)
    ensures StatsInv(StatsAfter(b, e), b.statsCap)
    ensures OnlyAt(b.stats, StatsAfter(b, e), KeyOf(e))
  {
    var entry := if KeyOf(e) in b.stats then b.stats[KeyOf(e)] else DEFAULT;
    UpdateEntryFlagsOk(e, entry);
    if Outcome(b, e).Handled? {
      StoreKeeps(b.stats, b.statsCap, KeyOf(e), UpdateEntry(e, entry));
    }
  }

  lemma PropsAfterKeeps(b: Bpf, e: Event)
    requires PropsInv(b.props, b.propsCap)
    ensures PropsInv(PropsAfter(b, e), b.propsCap)
    ensures OnlyAt(b.props, PropsAfter(b, e), KeyOf(e))
    ensures forall k :: k in b.props ==> PropsAfter(b, e)[k] == b.props[k]
  {
    if StoresContext(b, e) {
      StoreKeeps(b.props, b.propsCap, KeyOf(e), ContextFor(e));
    }
  }

  /** Every event keeps both maps within capacity, all contexts valid and all flags consistent; it
      removes no entry and touches none but its own; and it never overwrites a recorded context. */
  lemma HandleEventKeeps(b: Bpf, e: Event)
    requires BpfInv(b)
    ensures BpfInv(HandleEvent(b, e))
    ensures OnlyAt(b.stats, HandleEvent(b, e).stats, KeyOf(e))
    ensures OnlyAt(b.props, HandleEvent(b, e).props, KeyOf(e))
    ensures forall k :: k in b.props ==> HandleEvent(b, e).props[k] == b.props[k]
  {
    StatsAfterKeeps(b, e);
    PropsAfterKeeps(b, e);
  }
}
