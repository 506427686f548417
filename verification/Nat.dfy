/** NAT resolution: conntrack events are filtered and normalised, kept in a ring of tables, and
    looked up by socket (nfm-controller/src/utils/conntrack_listener.rs,
    nfm-controller/src/events/nat_resolver.rs). */
module NatModel {
  import opened Arith
  import opened SockContextModel
  import opened SockCacheModel
  import opened Cidr

  const IPPROTO_TCP: nat := 6
  const RING_BUF_ENTRIES: nat := 3

  /** One direction of a connection. */
  datatype Tuple5 = Tuple5(srcIp: IpAddr, dstIp: IpAddr, srcPort: nat, dstPort: nat, protocol: nat)

  datatype ConntrackEntry = ConntrackEntry(original: Tuple5, reply: Tuple5)

  // ---------------------------------------------------------------------------------------------
  // Filtering and normalising
  // ---------------------------------------------------------------------------------------------

  predicate IsInverseOf(a: Tuple5, b: Tuple5) {
    && a.srcIp == b.dstIp && a.dstIp == b.srcIp
    && a.srcPort == b.dstPort && a.dstPort == b.srcPort && a.protocol == b.protocol
  }

  datatype Fate = NonTcp | NonNat | SnatSkip | SnatOverride | Accept

  function FateOf(checker: VpcCidrChecker, original: Tuple5, reply: Tuple5): Fate {
    if original.protocol != IPPROTO_TCP then NonTcp
    else if IsInverseOf(original, reply) then NonNat
    else if original.srcIp != reply.dstIp && IsVpcIp(checker, original.srcIp) then
      if original.dstIp != reply.srcIp then SnatOverride else SnatSkip
    else Accept
  }

  predicate Accepted(f: Fate) { f.SnatOverride? || f.Accept? }

  function NormalReply(f: Fate, original: Tuple5, reply: Tuple5): Tuple5 {
    if f.SnatOverride? then reply.(dstIp := original.srcIp, dstPort := original.srcPort) else reply
  }

  class ConntrackListener {
    const checker: VpcCidrChecker
    var snatOverrides: nat
    var snatSkips: nat
    var nonNats: nat
    var nonTcps: nat

    constructor (c: VpcCidrChecker)
      ensures checker == c && snatOverrides == snatSkips == nonNats == nonTcps == 0
    {
      checker := c;
      snatOverrides, snatSkips, nonNats, nonTcps := 0, 0, 0, 0;
    }

    method FilterAndNormalize(original: Tuple5, reply0: Tuple5) returns (accept: bool, reply: Tuple5)
      modifies this
      ensures var f := FateOf(checker, original, reply0);
        && accept == Accepted(f) && reply == NormalReply(f, original, reply0)
        && nonTcps == old(nonTcps) + (if f.NonTcp? then 1 else 0)
        && nonNats == old(nonNats) + (if f.NonNat? then 1 else 0)
        && snatSkips == old(snatSkips) + (if f.SnatSkip? then 1 else 0)
        && snatOverrides == old(snatOverrides) + (if f.SnatOverride? then 1 else 0)
    {
      reply := reply0;
      if original.protocol != IPPROTO_TCP {
        nonTcps := nonTcps + 1;
        return false, reply;
      }
      if IsInverseOf(original, reply) {
        nonNats := nonNats + 1;
        return false, reply;
      }
      if original.srcIp != reply.dstIp && IsVpcIp(checker, original.srcIp) {
        if original.dstIp != reply.srcIp {
          reply := reply.(dstIp := original.srcIp);
          reply := reply.(dstPort := original.srcPort);
          snatOverrides := snatOverrides + 1;
        } else {
          snatSkips := snatSkips + 1;
          return false, reply;
        }
      }
      accept := true;
    }
  }

  /** Every accepted event, as normalised, is still a NAT-ed TCP connection, shows a VPC source as
      itself, keeps the translated destination, and passes a second time unchanged. */
  lemma NormalisationIsSound(checker: VpcCidrChecker, original: Tuple5, reply: Tuple5)
    requires Accepted(FateOf(checker, original, reply))
    ensures var r := NormalReply(FateOf(checker, original, reply), original, reply);
      && original.protocol == IPPROTO_TCP && !IsInverseOf(original, r)
      && (IsVpcIp(checker, original.srcIp) ==> r.dstIp == original.srcIp)
      && r.srcIp == reply.srcIp && r.srcPort == reply.srcPort
      && (r.dstIp == reply.dstIp ==> r == reply)
      && FateOf(checker, original, r) == Accept
      && NormalReply(FateOf(checker, original, r), original, r) == r
  {
  }

  /** Which events pass: TCP connections that NAT changed, except those whose VPC source alone was
      changed; and which replies are rewritten: of those, the ones with a VPC source that was changed. */
  lemma AcceptedIff(checker: VpcCidrChecker, original: Tuple5, reply: Tuple5)
    ensures var sourceChanged := original.srcIp != reply.dstIp && IsVpcIp(checker, original.srcIp);
      && (Accepted(FateOf(checker, original, reply)) <==>
            && original.protocol == 6 && reply != Inverse(original)
            && (sourceChanged ==> original.dstIp != reply.srcIp))
      && (Accepted(FateOf(checker, original, reply)) ==>
            NormalReply(FateOf(checker, original, reply), original, reply)
            == if sourceChanged then Tuple5(reply.srcIp, original.srcIp, reply.srcPort, original.srcPort, reply.protocol)
               else reply)
      && (FateOf(checker, original, reply).NonTcp? <==> original.protocol != 6)
      && (FateOf(checker, original, reply).SnatSkip? <==>
            original.protocol == 6 && reply != Inverse(original) && sourceChanged && original.dstIp == reply.srcIp)
  {
  }

  predicate SameFamily(t: Tuple5) { t.srcIp.V4? <==> t.dstIp.V4? }

  /** Tuples of one family each stay so through normalisation exactly when it leaves the reply alone or
      both sources are of one family: the override can itself make a mixed tuple. */
  lemma NormalisationKeepsFamilyIff(checker: VpcCidrChecker, original: Tuple5, reply: Tuple5)
    requires Accepted(FateOf(checker, original, reply)) && SameFamily(original) && SameFamily(reply)
    ensures SameFamily(NormalReply(FateOf(checker, original, reply), original, reply))
       <==> FateOf(checker, original, reply).Accept? || (original.srcIp.V4? <==> reply.srcIp.V4?)
  {
  }

  // ---------------------------------------------------------------------------------------------
  // Contexts and tuples
  // ---------------------------------------------------------------------------------------------

  /** IPv4 in IPv6 clothing, ::ffff:a.b.c.d (section 2.5.5.2 of RFC 4291). */
  predicate IsV4Mapped(a: Ipv6Bytes) {
    a[..10] == [0, 0, 0, 0, 0, 0, 0, 0, 0, 0] && a[10] == 0xff && a[11] == 0xff
  }

  function Ipv6ToIpAddr(a: Ipv6Bytes): IpAddr {
    if IsV4Mapped(a) then V4(Number(a[12..])) else V6(a)
  }

  function LocalAddr(c: SockContext): IpAddr {
    if c.addressFamily == AF_INET then V4(c.localIpv4) else Ipv6ToIpAddr(c.localIpv6)
  }

  function RemoteAddr(c: SockContext): IpAddr {
    if c.addressFamily == AF_INET then V4(c.remoteIpv4) else Ipv6ToIpAddr(c.remoteIpv6)
  }

  function Egress(c: SockContext): Tuple5
    requires IsValid(c)
  {
    Tuple5(LocalAddr(c), RemoteAddr(c), c.localPort, c.remotePort, IPPROTO_TCP)
  }

  function Inverse(t: Tuple5): Tuple5 {
    Tuple5(t.dstIp, t.srcIp, t.dstPort, t.srcPort, t.protocol)
  }

  /** A tuple of mixed families aborts the agent here. */
  function IngressToContext(t: Tuple5, isClient: bool): SockContext
    requires SameFamily(t)
  {
    match t.srcIp
    case V4(src) =>
      NO_CONTEXT.(localIpv4 := t.dstIp.bits, remoteIpv4 := src, localPort := t.dstPort,
                  remotePort := t.srcPort, addressFamily := AF_INET, isClient := isClient)
    case V6(src) =>
      NO_CONTEXT.(localIpv6 := t.dstIp.octets, remoteIpv6 := src, localPort := t.dstPort,
                  remotePort := t.srcPort, addressFamily := AF_INET6, isClient := isClient)
  }

  /** What leaves a socket has its local end as source and its remote end as destination: its IPv4
      addresses, its IPv6 addresses, or the IPv4 addresses that these stand for. */
  lemma EgressIs(c: SockContext)
    requires IsValid(c)
    ensures Egress(c).srcPort == c.localPort && Egress(c).dstPort == c.remotePort && Egress(c).protocol == 6
    ensures c.addressFamily == AF_INET ==>
      Egress(c).srcIp == V4(c.localIpv4) && Egress(c).dstIp == V4(c.remoteIpv4)
    ensures c.addressFamily == AF_INET6 ==>
      StandsFor(c.localIpv6, Egress(c).srcIp) && StandsFor(c.remoteIpv6, Egress(c).dstIp)
  {
    if c.addressFamily == AF_INET6 {
      ConvertedStandsFor(c.localIpv6);
      ConvertedStandsFor(c.remoteIpv6);
    }
  }

  lemma ConvertedStandsFor(a: Ipv6Bytes)
    ensures StandsFor(a, Ipv6ToIpAddr(a))
  {
    assert a[12..] == [a[12], a[13], a[14], a[15]];
    if forall i :: 0 <= i < 10 ==> a[i] == 0 {
      assert a[..10] == [0, 0, 0, 0, 0, 0, 0, 0, 0, 0];
    } else {
      var i :| 0 <= i < 10 && a[i] != 0;
      assert a[..10][i] != 0;
    }
  }

  /** Ten zero bytes, two of ones, then the IPv4 address; any other address stands for itself. */
  predicate StandsFor(a: Ipv6Bytes, ip: IpAddr) {
    if (forall i :: 0 <= i < 10 ==> a[i] == 0) && a[10] == 255 && a[11] == 255
    then ip == V4(Number([a[12], a[13], a[14], a[15]]))
    else ip == V6(a)
  }

  /** What comes to a socket has its remote end as source and its local end as destination. */
  lemma IngressIs(t: Tuple5, isClient: bool)
    requires SameFamily(t)
    ensures var c := IngressToContext(t, isClient);
      && c.localPort == t.dstPort && c.remotePort == t.srcPort && c.isClient == isClient
      && (t.srcIp.V4? ==> c.addressFamily == AF_INET && V4(c.localIpv4) == t.dstIp && V4(c.remoteIpv4) == t.srcIp)
      && (t.srcIp.V6? ==> c.addressFamily == AF_INET6 && V6(c.localIpv6) == t.dstIp && V6(c.remoteIpv6) == t.srcIp)
  {
  }

  /** Context, egress tuple, inverse, context again: same endpoints, ports and role, with mapped
      pairs now plain IPv4, and nothing more to change. It is defined exactly when neither or both
      ends of an IPv6 context are mapped. */
  lemma ContextRoundTrip(c: SockContext)
    requires IsValid(c)
    ensures SameFamily(Inverse(Egress(c)))
       <==> (c.addressFamily == AF_INET || (IsV4Mapped(c.localIpv6) <==> IsV4Mapped(c.remoteIpv6)))
    ensures SameFamily(Inverse(Egress(c))) ==>
      var d := IngressToContext(Inverse(Egress(c)), c.isClient);
      && IsValid(d) && LocalAddr(d) == LocalAddr(c) && RemoteAddr(d) == RemoteAddr(c)
      && d.localPort == c.localPort && d.remotePort == c.remotePort && d.isClient == c.isClient
      && (d.addressFamily == AF_INET <==> LocalAddr(c).V4?)
      && IngressToContext(Inverse(Egress(d)), d.isClient) == d
  {
  }

  // ---------------------------------------------------------------------------------------------
  // The ring of tables
  // ---------------------------------------------------------------------------------------------

  type Table = map<Tuple5, Tuple5>

  datatype Ring = Ring(slots: seq<Table>, index: nat) {
    predicate Valid() { |slots| == RING_BUF_ENTRIES && index < RING_BUF_ENTRIES }
  }

  const EMPTY_RING: Ring := Ring([map[], map[], map[]], 0)

  /** Each event is keyed by both of its tuples. */
  function LearnInto(table: Table, entries: seq<ConntrackEntry>): Table {
    if entries == [] then table
    else
      var e := entries[|entries| - 1];
      LearnInto(table, entries[..|entries| - 1])[e.original := e.reply][e.reply := e.original]
  }

  datatype NatOp = Learn(entries: seq<ConntrackEntry>) | LearnFailed | EvictOldest

  function RingStep(r: Ring, op: NatOp): (r': Ring)
    requires r.Valid()
    ensures r'.Valid()
  {
    match op
    case Learn(entries) => r.(slots := r.slots[r.index := LearnInto(r.slots[r.index], entries)])
    case LearnFailed => r
    case EvictOldest =>
      var i := (r.index + 1) % RING_BUF_ENTRIES;
      Ring(r.slots[i := map[]], i)
  }

  function RingAfter(ops: seq<NatOp>): (r: Ring)
    ensures r.Valid()
  {
    if ops == [] then EMPTY_RING
    else RingStep(RingAfter(ops[..|ops| - 1]), ops[|ops| - 1])
  }

  /** Slots are searched in the order 0, 1, 2, not newest first. */
  function Lookup(r: Ring, t: Tuple5): Option<Tuple5>
    requires r.Valid()
  {
    if t in r.slots[0] then Some(r.slots[0][t])
    else if t in r.slots[1] then Some(r.slots[1][t])
    else if t in r.slots[2] then Some(r.slots[2][t])
    else None
  }

  // --- The reference: a log of events with a bounded age ---

  function CountEvictions(ops: seq<NatOp>): nat {
    if ops == [] then 0
    else CountEvictions(ops[..|ops| - 1]) + if ops[|ops| - 1].EvictOldest? then 1 else 0
  }

  /** The entry was learnt at step `p`, with exactly `age` evictions since. */
  ghost predicate LearntAt(ops: seq<NatOp>, e: ConntrackEntry, p: nat, age: nat) {
    && p < |ops| && ops[p].Learn? && e in ops[p].entries && CountEvictions(ops[p + 1..]) == age
  }

  /** The entry was learnt since the third most recent eviction. */
  ghost predicate Recent(ops: seq<NatOp>, e: ConntrackEntry) {
    exists p: nat, age: nat :: LearntAt(ops, e, p, age) && age < 3
  }

  /** One side of the event is `t`, the other is `u`. */
  predicate Pairs(e: ConntrackEntry, t: Tuple5, u: Tuple5) {
    (e.original == t && e.reply == u) || (e.reply == t && e.original == u)
  }

  lemma {:induction false} LearnIntoHolds(table: Table, entries: seq<ConntrackEntry>, t: Tuple5)
    ensures t in LearnInto(table, entries) <==>
      t in table || exists e :: e in entries && (e.original == t || e.reply == t)
    ensures t in LearnInto(table, entries) ==>
      (|| (t in table && LearnInto(table, entries)[t] == table[t])
       || exists e :: e in entries && Pairs(e, t, LearnInto(table, entries)[t]))
  {
    if entries != [] {
      var n := |entries| - 1;
      var init, last := entries[..n], entries[n];
      LearnIntoHolds(table, init, t);
      assert entries == init + [last];
      assert forall e :: e in entries <==> e in init || e == last;
      if last.original == t || last.reply == t {
        assert Pairs(last, t, LearnInto(table, entries)[t]);
      } else if t in LearnInto(table, init) {
        assert LearnInto(table, entries)[t] == LearnInto(table, init)[t];
      }
    }
  }

  lemma CountEvictionsSplit(ops: seq<NatOp>, p: nat)
    requires p < |ops|
    ensures CountEvictions(ops[p..])
         == CountEvictions(ops[p..|ops| - 1]) + if ops[|ops| - 1].EvictOldest? then 1 else 0
  {
    assert ops[p..][..|ops| - 1 - p] == ops[p..|ops| - 1];
  }

  /** One more step ages the log. */
  lemma LearntAtStep(ops: seq<NatOp>, e: ConntrackEntry, p: nat, age: nat)
    requires ops != []
    ensures var (init, last) := (ops[..|ops| - 1], ops[|ops| - 1]);
      LearntAt(ops, e, p, age) <==>
        if p == |ops| - 1 then last.Learn? && e in last.entries && age == 0
        else if last.EvictOldest? then age > 0 && LearntAt(init, e, p, age - 1)
        else LearntAt(init, e, p, age)
  {
    var n := |ops| - 1;
    if p < n {
      CountEvictionsSplit(ops, p + 1);
      assert ops[p + 1..n] == ops[..n][p + 1..];
    } else if p == n {
      assert ops[p + 1..] == [];
    }
  }

  /** The slot `age` places behind the head. */
  function SlotOfAge(r: Ring, age: nat): Table
    requires r.Valid() && age < RING_BUF_ENTRIES
  {
    r.slots[(r.index + RING_BUF_ENTRIES - age) % RING_BUF_ENTRIES]
  }

  /** An entry of that age has `t` on one side and `u` on the other. */
  ghost predicate LearntWith(ops: seq<NatOp>, t: Tuple5, u: Tuple5, age: nat) {
    exists e, p: nat :: LearntAt(ops, e, p, age) && Pairs(e, t, u)
  }

  /** The table knows `t` exactly when an entry of that age does, and answers from such an entry. */
  ghost predicate SlotOk(table: Table, ops: seq<NatOp>, age: nat, t: Tuple5) {
    && (forall u :: LearntWith(ops, t, u, age) ==> t in table)
    && (t in table ==> LearntWith(ops, t, table[t], age))
  }

  lemma SlotOkSame(table: Table, init: seq<NatOp>, age: nat, ops: seq<NatOp>, age': nat, t: Tuple5)
    requires SlotOk(table, init, age, t)
    requires forall e, p: nat :: LearntAt(ops, e, p, age') <==> LearntAt(init, e, p, age)
    ensures SlotOk(table, ops, age', t)
  {
    forall u | LearntWith(ops, t, u, age') ensures t in table {
      var e, p: nat :| LearntAt(ops, e, p, age') && Pairs(e, t, u);
      assert LearntAt(init, e, p, age);
      assert LearntWith(init, t, u, age);
    }
    if t in table {
      var e, p: nat :| LearntAt(init, e, p, age) && Pairs(e, t, table[t]);
      assert LearntAt(ops, e, p, age');
    }
  }

  lemma SlotOkLearns(table: Table, ops: seq<NatOp>, t: Tuple5)
    requires ops != [] && ops[|ops| - 1].Learn?
    requires SlotOk(table, ops[..|ops| - 1], 0, t)
    ensures SlotOk(LearnInto(table, ops[|ops| - 1].entries), ops, 0, t)
  {
    var n := |ops| - 1;
    var init, entries := ops[..n], ops[n].entries;
    var table' := LearnInto(table, entries);
    LearnIntoHolds(table, entries, t);
    forall u | LearntWith(ops, t, u, 0) ensures t in table' {
      var e, p: nat :| LearntAt(ops, e, p, 0) && Pairs(e, t, u);
      LearntAtStep(ops, e, p, 0);
      if p != n {
        assert LearntWith(init, t, u, 0);
      }
    }
    if t in table' {
      if e :| e in entries && Pairs(e, t, table'[t]) {
        LearntAtStep(ops, e, n, 0);
        assert LearntAt(ops, e, n, 0);
      } else {
        var e, p: nat :| LearntAt(init, e, p, 0) && Pairs(e, t, table'[t]);
        LearntAtStep(ops, e, p, 0);
        assert LearntAt(ops, e, p, 0);
      }
    }
  }

  /** How a step moves the slots along by age. */
  lemma SlotShifts(r: Ring, op: NatOp, age: nat)
    requires r.Valid() && age < RING_BUF_ENTRIES
    ensures SlotOfAge(RingStep(r, op), age) ==
      match op
      case EvictOldest => if age == 0 then map[] else SlotOfAge(r, age - 1)
      case Learn(entries) =>
        if age == 0 then LearnInto(SlotOfAge(r, 0), entries) else SlotOfAge(r, age)
      case LearnFailed => SlotOfAge(r, age)
  {
  }

  /** Each slot holds what was learnt with that many evictions since. */
  lemma {:induction false} SlotsHoldAges(ops: seq<NatOp>, age: nat, t: Tuple5)
    requires age < RING_BUF_ENTRIES
    ensures SlotOk(SlotOfAge(RingAfter(ops), age), ops, age, t)
  {
    if ops == [] {
      assert SlotOfAge(RingAfter(ops), age) == map[];
    } else {
      var n := |ops| - 1;
      var init, last := ops[..n], ops[n];
      var r := RingAfter(init);
      SlotShifts(r, last, age);
      forall e, p: nat ensures LearntAt(ops, e, p, age) <==>
        if p == n then last.Learn? && e in last.entries && age == 0
        else if last.EvictOldest? then age > 0 && LearntAt(init, e, p, age - 1)
        else LearntAt(init, e, p, age)
      {
        LearntAtStep(ops, e, p, age);
      }
      if last.EvictOldest? {
        if age > 0 {
          SlotsHoldAges(init, age - 1, t);
          SlotOkSame(SlotOfAge(r, age - 1), init, age - 1, ops, age, t);
        }
      } else if last.Learn? && age == 0 {
        SlotsHoldAges(init, 0, t);
        SlotOkLearns(SlotOfAge(r, 0), ops, t);
      } else {
        SlotsHoldAges(init, age, t);
        SlotOkSame(SlotOfAge(r, age), init, age, ops, age, t);
      }
    }
  }

  lemma LookupFindsSlot(r: Ring, t: Tuple5) returns (age: nat)
    requires r.Valid()
    ensures age < RING_BUF_ENTRIES
    ensures Lookup(r, t).Some? ==> t in SlotOfAge(r, age) && Lookup(r, t).value == SlotOfAge(r, age)[t]
    ensures Lookup(r, t).None? ==> forall a: nat :: a < RING_BUF_ENTRIES ==> t !in SlotOfAge(r, a)
  {
    var i := if t in r.slots[0] then 0 else if t in r.slots[1] then 1 else 2;
    age := (r.index + RING_BUF_ENTRIES - i) % RING_BUF_ENTRIES;
    assert SlotOfAge(r, age) == r.slots[i];
  }

  /** After any run of learning and eviction steps, a lookup succeeds exactly when an event with that
      tuple on either side was learnt since the third most recent eviction, and the answer is the
      other side of such an event. */
  lemma RingRefinesRecentLog(ops: seq<NatOp>, t: Tuple5)
    ensures Lookup(RingAfter(ops), t).Some? <==> exists e, u :: Recent(ops, e) && Pairs(e, t, u)
    ensures Lookup(RingAfter(ops), t).Some?
        ==> exists e :: Recent(ops, e) && Pairs(e, t, Lookup(RingAfter(ops), t).value)
  {
    var r := RingAfter(ops);
    var found := LookupFindsSlot(r, t);
    if Lookup(r, t).Some? {
      SlotsHoldAges(ops, found, t);
      var e, p: nat :| LearntAt(ops, e, p, found) && Pairs(e, t, Lookup(r, t).value);
      assert Recent(ops, e);
    }
    if e, u :| Recent(ops, e) && Pairs(e, t, u) {
      var p: nat, age: nat :| LearntAt(ops, e, p, age) && age < 3;
      SlotsHoldAges(ops, age, t);
      assert LearntWith(ops, t, u, age);
    }
  }

  // --- Which event answers ---

  /** What the last of these events with `t` on a side says of it. */
  function LatestIn(entries: seq<ConntrackEntry>, t: Tuple5): Option<Tuple5> {
    if entries == [] then None
    else
      var e := entries[|entries| - 1];
      if e.reply == t then Some(e.original)
      else if e.original == t then Some(e.reply)
      else LatestIn(entries[..|entries| - 1], t)
  }

  /** What the last event learnt with exactly `age` evictions since says of `t`. */
  function LatestAt(ops: seq<NatOp>, age: nat, t: Tuple5): Option<Tuple5> {
    if ops == [] then None
    else
      var init, last := ops[..|ops| - 1], ops[|ops| - 1];
      match last
      case LearnFailed => LatestAt(init, age, t)
      case EvictOldest => if age == 0 then None else LatestAt(init, age - 1, t)
      case Learn(entries) =>
        if age == 0 && LatestIn(entries, t).Some? then LatestIn(entries, t) else LatestAt(init, age, t)
  }

  /** The age of what slot `i` holds after that many evictions. */
  function AgeOfSlot(evictions: nat, i: nat): nat
    requires i < RING_BUF_ENTRIES
  {
    (evictions % RING_BUF_ENTRIES + RING_BUF_ENTRIES - i) % RING_BUF_ENTRIES
  }

  /** The answer read off the log: the last event with that tuple, among those of the first age, in
      slot order, that has one. */
  function LogAnswer(ops: seq<NatOp>, t: Tuple5): Option<Tuple5> {
    var n := CountEvictions(ops);
    if LatestAt(ops, AgeOfSlot(n, 0), t).Some? then LatestAt(ops, AgeOfSlot(n, 0), t)
    else if LatestAt(ops, AgeOfSlot(n, 1), t).Some? then LatestAt(ops, AgeOfSlot(n, 1), t)
    else LatestAt(ops, AgeOfSlot(n, 2), t)
  }

  function TableAnswer(table: Table, t: Tuple5): Option<Tuple5> {
    if t in table then Some(table[t]) else None
  }

  lemma {:induction false} LearnIntoAnswers(table: Table, entries: seq<ConntrackEntry>, t: Tuple5)
    ensures TableAnswer(LearnInto(table, entries), t)
         == if LatestIn(entries, t).Some? then LatestIn(entries, t) else TableAnswer(table, t)
  {
    if entries != [] {
      LearnIntoAnswers(table, entries[..|entries| - 1], t);
    }
  }

  lemma {:induction false} SlotAnswers(ops: seq<NatOp>, age: nat, t: Tuple5)
    requires age < RING_BUF_ENTRIES
    ensures TableAnswer(SlotOfAge(RingAfter(ops), age), t) == LatestAt(ops, age, t)
  {
    if ops == [] {
      assert SlotOfAge(RingAfter(ops), age) == map[];
    } else {
      var init, last := ops[..|ops| - 1], ops[|ops| - 1];
      SlotShifts(RingAfter(init), last, age);
      SlotAnswers(init, if last.EvictOldest? && age > 0 then age - 1 else age, t);
      if last.Learn? && age == 0 {
        LearnIntoAnswers(SlotOfAge(RingAfter(init), 0), last.entries, t);
      }
    }
  }

  lemma {:induction false} IndexCountsEvictions(ops: seq<NatOp>)
    ensures RingAfter(ops).index == CountEvictions(ops) % RING_BUF_ENTRIES
  {
    if ops != [] {
      IndexCountsEvictions(ops[..|ops| - 1]);
    }
  }

  lemma SlotAtAge(r: Ring, i: nat)
    requires r.Valid() && i < RING_BUF_ENTRIES
    ensures SlotOfAge(r, AgeOfSlot(r.index, i)) == r.slots[i]
  {
  }

  /** After any run the ring answers exactly as the log does. */
  lemma LookupIsLogAnswer(ops: seq<NatOp>, t: Tuple5)
    ensures Lookup(RingAfter(ops), t) == LogAnswer(ops, t)
  {
    var r := RingAfter(ops);
    IndexCountsEvictions(ops);
    forall i: nat | i < RING_BUF_ENTRIES
      ensures TableAnswer(r.slots[i], t) == LatestAt(ops, AgeOfSlot(CountEvictions(ops), i), t)
    {
      SlotAtAge(r, i);
      SlotAnswers(ops, AgeOfSlot(CountEvictions(ops), i), t);
    }
    assert TableAnswer(r.slots[0], t) == LatestAt(ops, AgeOfSlot(CountEvictions(ops), 0), t);
    assert TableAnswer(r.slots[1], t) == LatestAt(ops, AgeOfSlot(CountEvictions(ops), 1), t);
    assert TableAnswer(r.slots[2], t) == LatestAt(ops, AgeOfSlot(CountEvictions(ops), 2), t);
  }

  // ---------------------------------------------------------------------------------------------
  // Attaching answers to cached sockets
  // ---------------------------------------------------------------------------------------------

  /** The outcome of looking up a socket: nothing, its endpoints beyond NAT, or the end of the agent,
      when the answer mixes address families. */
  datatype Resolution = Unknown | Known(context: SockContext) | Aborts

  function Resolve(r: Ring, c: SockContext): (o: Resolution)
    requires r.Valid()
    ensures o.Known? ==> IsValid(c) && IsValid(o.context) && o.context.isClient == c.isClient
    ensures o.Unknown? <==> !IsValid(c) || Lookup(r, Egress(c)).None?
  {
    if !IsValid(c) then Unknown
    else
      match Lookup(r, Egress(c))
      case None => Unknown
      case Some(t) => if SameFamily(t) then Known(IngressToContext(t, c.isClient)) else Aborts
  }

  /** Over every run: a lookup aborts exactly when the event that answers, read off the log, has mixed
      families on the other side; other events in the ring do not matter. */
  lemma ResolveAbortsIff(ops: seq<NatOp>, c: SockContext)
    requires IsValid(c)
    ensures Resolve(RingAfter(ops), c).Aborts? <==>
      LogAnswer(ops, Egress(c)).Some? && !SameFamily(LogAnswer(ops, Egress(c)).value)
  {
    LookupIsLogAnswer(ops, Egress(c));
  }

  /** It happens. A socket of plain IPv6 endpoints in the VPC, translated in both addresses to IPv4:
      the SNAT override puts the IPv6 source beside the IPv4 one, the event is accepted and learnt, and
      looking up that very socket aborts. */
  lemma MixedEventAborts(c: SockContext, reply: Tuple5)
    requires c.addressFamily == AF_INET6 && !IsV4Mapped(c.localIpv6) && !IsV4Mapped(c.remoteIpv6)
    requires reply.srcIp.V4? && reply.dstIp.V4?
    ensures var (checker, original) := (VpcCidrChecker([], [Block(0, 0)]), Egress(c));
      var fate := FateOf(checker, original, reply);
      && SameFamily(original) && SameFamily(reply) && fate == SnatOverride
      && var entry := ConntrackEntry(original, NormalReply(fate, original, reply));
      Resolve(RingAfter([Learn([entry])]), c).Aborts?
  {
    var checker, original := VpcCidrChecker([], [Block(0, 0)]), Egress(c);
    assert Matches(Number(c.localIpv6), checker.v6[0]);
    var fate := FateOf(checker, original, reply);
    var entry := ConntrackEntry(original, NormalReply(fate, original, reply));
    var entries := [entry];
    var ops := [Learn(entries)];
    assert entries[..0] == [] && ops[..0] == [];
    assert LearnInto(map[], entries) == map[original := entry.reply][entry.reply := original];
    assert RingAfter(ops) == RingStep(EMPTY_RING, Learn(entries));
  }

  /** Over every run: the ring knows a socket exactly when an event with its egress tuple on either side
      is recent, and its endpoints are then built from the other side of such an event, unless that side
      is mixed. Where no recent event of this socket is mixed, the lookup does not abort. */
  lemma ResolveIffRecent(ops: seq<NatOp>, c: SockContext)
    requires IsValid(c)
    ensures !Resolve(RingAfter(ops), c).Unknown? <==> exists e, u :: Recent(ops, e) && Pairs(e, Egress(c), u)
    ensures Resolve(RingAfter(ops), c).Known? ==>
      exists e, u :: (&& Recent(ops, e) && Pairs(e, Egress(c), u) && SameFamily(u)
                      && Resolve(RingAfter(ops), c) == Known(IngressToContext(u, c.isClient)))
    ensures Resolve(RingAfter(ops), c).Aborts? ==>
      exists e, u :: Recent(ops, e) && Pairs(e, Egress(c), u) && !SameFamily(u)
  {
    RingRefinesRecentLog(ops, Egress(c));
    if !Resolve(RingAfter(ops), c).Unknown? {
      var u := Lookup(RingAfter(ops), Egress(c)).value;
      var e :| Recent(ops, e) && Pairs(e, Egress(c), u);
    }
  }

  /** No socket that is looked up has a mixed answer: those without an external context are. */
  ghost predicate NatSafe(r: Ring, cache: Cache)
    requires r.Valid()
  {
    forall k :: k in cache && cache[k].contextExternal.None? ==> !Resolve(r, cache[k].context).Aborts?
  }

  /** An entry with the endpoints beyond NAT attached, where these are known. */
  function WithNat(r: Ring, w: SockWrapper): SockWrapper
    requires r.Valid()
  {
    if w.contextExternal.Some? then w
    else
      match Resolve(r, w.context)
      case Known(c) => w.(contextExternal := Some(c))
      case _ => w
  }

  /** Endpoints that are known stay; otherwise they are those the ring resolves to, if it does. */
  lemma AttachedContext(r: Ring, w: SockWrapper)
    requires r.Valid()
    ensures w.contextExternal.Some? ==> WithNat(r, w) == w
    ensures w.contextExternal.None? ==>
      WithNat(r, w) == w.(contextExternal := match Resolve(r, w.context) case Known(c) => Some(c) case _ => None)
  {
  }

  function AttachNat(r: Ring, cache: Cache): Cache
    requires r.Valid()
  {
    map k | k in cache :: WithNat(r, cache[k])
  }

  /** Sockets that had no external context before, and after have one or still have none. */
  ghost function Looked(before: Cache, after: Cache, done: set<SockKey>, found: bool): set<SockKey> {
    set k | k in done && k in before && k in after
            && before[k].contextExternal.None? && after[k].contextExternal.Some? == found
  }

  /** Completed: sockets given an external context. Partial: sockets still without one. */
  ghost function NatCounts(before: Cache, after: Cache, done: set<SockKey>): OpResult {
    OpResult(|Looked(before, after, done, true)|, |Looked(before, after, done, false)|, 0)
  }

  /** Completed counts the sockets that got an external context, partial those that still have none. */
  lemma NatCountsAre(before: Cache, after: Cache)
    requires before.Keys == after.Keys
    ensures var r := NatCounts(before, after, before.Keys);
      && r.completed == |set k | k in before && before[k].contextExternal.None? && after[k].contextExternal.Some?|
      && r.partial == |set k | k in before && before[k].contextExternal.None? && after[k].contextExternal.None?|
      && r.failed == 0
  {
    assert Looked(before, after, before.Keys, true)
        == set k | k in before && before[k].contextExternal.None? && after[k].contextExternal.Some?;
    assert Looked(before, after, before.Keys, false)
        == set k | k in before && before[k].contextExternal.None? && after[k].contextExternal.None?;
  }

  lemma NatCountNone(before: Cache, after: Cache)
    ensures NatCounts(before, after, {}) == NOTHING_DONE
  {
    assert Looked(before, after, {}, true) == {} && Looked(before, after, {}, false) == {};
  }

  lemma LookedStep(before: Cache, after: Cache, done: set<SockKey>, k: SockKey, found: bool)
    requires k in before && k in after && k !in done
    ensures var more := before[k].contextExternal.None? && after[k].contextExternal.Some? == found;
      |Looked(before, after, done + {k}, found)|
      == |Looked(before, after, done, found)| + if more then 1 else 0
  {
    var small, big := Looked(before, after, done, found), Looked(before, after, done + {k}, found);
    if before[k].contextExternal.None? && after[k].contextExternal.Some? == found {
      assert big == small + {k};
    } else {
      assert big == small;
    }
  }

  lemma NatCountStep(before: Cache, after: Cache, done: set<SockKey>, k: SockKey)
    requires k in before && k in after && k !in done
    ensures NatCounts(before, after, done + {k}) ==
      var r := NatCounts(before, after, done);
      if before[k].contextExternal.Some? then r
      else if after[k].contextExternal.Some? then r.(completed := r.completed + 1)
      else r.(partial := r.partial + 1)
  {
    LookedStep(before, after, done, k, true);
    LookedStep(before, after, done, k, false);
  }

  class NatResolver {
    const ringbuf: array<Table>
    var index: nat

    ghost predicate Valid()
      reads this, ringbuf
    {
      ringbuf.Length == RING_BUF_ENTRIES && index < RING_BUF_ENTRIES
    }

    ghost function View(): (r: Ring)
      requires Valid()
      reads this, ringbuf
      ensures r.Valid()
    {
      Ring(ringbuf[..], index)
    }

    constructor ()
      ensures Valid() && View() == EMPTY_RING && fresh(ringbuf)
    {
      var none: Table := map[];
      ringbuf := new Table[3] [none, none, none];
      index := 0;
    }

    /** `learnt` is what the listener delivered, or nothing when reading failed. */
    method PerformAggregationCycle(learnt: Option<seq<ConntrackEntry>>)
      requires Valid()
      modifies ringbuf
      ensures Valid() && index == old(index)
      ensures View() == RingStep(old(View()), match learnt
                                              case Some(entries) => Learn(entries)
                                              case None => LearnFailed)
    {
      match learnt {
        case None =>
        case Some(entries) =>
          var table := ringbuf[index];
          for n := 0 to |entries|
            invariant table == LearnInto(ringbuf[index], entries[..n])
          {
            var e := entries[n];
            assert entries[..n + 1][..n] == entries[..n];
            table := table[e.original := e.reply];
            table := table[e.reply := e.original];
          }
          assert entries[..|entries|] == entries;
          ringbuf[index] := table;
      }
    }

    method PerformEviction()
      requires Valid()
      modifies this, ringbuf
      ensures Valid() && View() == RingStep(old(View()), EvictOldest)
    {
      index := (index + 1) % ringbuf.Length;
      ringbuf[index] := map[];
    }

    method GetBeyondNatEntry(c: SockContext) returns (o: Resolution)
      requires Valid()
      ensures o == Resolve(View(), c)
    {
      o := Unknown;
      if IsValid(c) {
        var internal := Egress(c);
        for i := 0 to ringbuf.Length
          invariant forall j :: 0 <= j < i ==> internal !in ringbuf[j]
        {
          if internal in ringbuf[i] {
            assert View().slots[i] == ringbuf[i];
            var answer := ringbuf[i][internal];
            if !SameFamily(answer) {
              return Aborts;
            }
            return Known(IngressToContext(answer, c.isClient));
          }
        }
      }
    }

    /** Sockets with no external context yet get one where the ring knows it. The agent ends at the first
        answer that mixes address families, exactly when some socket looked up has one. */
    method StoreBeyondNatEntries(sockCache: SockCache) returns (aborted: bool, r: OpResult)
      requires Valid()
      modifies sockCache
      ensures Valid() && View() == old(View())
      ensures aborted <==> !NatSafe(View(), old(sockCache.cache))
      ensures !aborted ==> sockCache.cache == AttachNat(View(), old(sockCache.cache))
      ensures !aborted ==>
        r == NatCounts(old(sockCache.cache), sockCache.cache, old(sockCache.cache).Keys)
    {
      ghost var before := sockCache.cache;
      ghost var target := AttachNat(View(), before);
      var todo := sockCache.cache.Keys;
      r := NOTHING_DONE;
      UpToNone(before, target);
      NatCountNone(before, target);
      assert before.Keys - todo == {};
      while todo != {}
        invariant todo <= before.Keys
        invariant sockCache.cache == UpTo(before, target, before.Keys - todo)
        invariant r == NatCounts(before, target, before.Keys - todo)
        invariant forall k :: k in before.Keys - todo && before[k].contextExternal.None? ==>
          !Resolve(View(), before[k].context).Aborts?
        decreases todo
      {
        var k :| k in todo;
        NatCountStep(before, target, before.Keys - todo, k);
        DoneStep(before.Keys, todo, k);
        UpToStep(before, target, before.Keys - todo, k);
        var w := sockCache.cache[k];
        if w.contextExternal.None? {
          var o := GetBeyondNatEntry(w.context);
          match o {
            case Aborts => return true, r;
            case Known(c) =>
              w := w.(contextExternal := Some(c));
              r := r.(completed := r.completed + 1);
            case Unknown =>
              r := r.(partial := r.partial + 1);
          }
        }
        assert w == target[k];
        sockCache.cache := sockCache.cache[k := w];
        todo := todo - {k};
      }
      aborted := false;
      assert before.Keys - todo == target.Keys;
      UpToAll(before, target);
    }
  }
}
