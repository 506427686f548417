/** Sharding refines a single store: the per-core entries of one socket, merged by the controller,
    carry what one shared entry would have carried. */
module Sharding {
  import opened Arith
  import opened SockStatsModel
  import opened SockOps

  type Trace = seq<Event>

  /** The reference: one entry fed the whole trace. */
  function Single(tr: Trace): SockStats {
    if tr == [] then DEFAULT
    else UpdateEntry(tr[|tr| - 1], Single(tr[..|tr| - 1]))
  }

  /** What the BPF layer keeps: each core's entry is fed the events of that core only. */
  function Shard(tr: Trace, cpu: nat): SockStats {
    if tr == [] then DEFAULT
    else
      var e, s := tr[|tr| - 1], Shard(tr[..|tr| - 1], cpu);
      if e.cpu == cpu then UpdateEntry(e, s) else s
  }

  function Shards(tr: Trace, cpus: seq<nat>): (xs: seq<SockStats>)
    ensures |xs| == |cpus| && forall i :: 0 <= i < |cpus| ==> xs[i] == Shard(tr, cpus[i])
  {
    seq(|cpus|, i requires 0 <= i < |cpus| => Shard(tr, cpus[i]))
  }

  // ---------------------------------------------------------------------------------------------
  // Accumulated counters
  // ---------------------------------------------------------------------------------------------

  /** What one event adds to a per-core counter, before any wrap-around. */
  function Amount(e: Event, f: Counter): nat {
    match f
    case RttCount => if e.op.RttCb? then 1 else 0
    case RetransSyn =>
      if e.op.RetransCb? && e.sockState in {BPF_TCP_SYN_SENT, BPF_TCP_SYN_RECV} then e.arg1 else 0
    case RetransEst => if e.op.RetransCb? && e.sockState == BPF_TCP_ESTABLISHED then e.arg1 else 0
    case RetransClose =>
      if e.op.RetransCb?
         && e.sockState !in {BPF_TCP_ESTABLISHED, BPF_TCP_SYN_SENT, BPF_TCP_SYN_RECV}
      then e.arg1 else 0
    case RtosSyn =>
      if e.op.RtoCb? && e.sockState in {BPF_TCP_SYN_SENT, BPF_TCP_SYN_RECV} then 1 else 0
    case RtosEst => if e.op.RtoCb? && e.sockState == BPF_TCP_ESTABLISHED then 1 else 0
    case RtosClose =>
      if e.op.RtoCb? && e.sockState !in {BPF_TCP_ESTABLISHED, BPF_TCP_SYN_SENT, BPF_TCP_SYN_RECV}
      then 1 else 0
    case ConnectAttempts =>
      if e.op.TcpConnect? then 1
      else if e.op.RetransCb? && e.sockState == BPF_TCP_SYN_SENT then e.arg1 % U8 else 0
    case ConnectSuccesses =>
      if e.op.StateCb? && e.arg0 == BPF_TCP_SYN_SENT && e.arg1 == BPF_TCP_ESTABLISHED then 1 else 0
    case _ => 0
  }

  /** The true total over a trace. */
  function Total(tr: Trace, f: Counter): nat {
    if tr == [] then 0 else Total(tr[..|tr| - 1], f) + Amount(tr[|tr| - 1], f)
  }

  ghost predicate SumsFit(tr: Trace) {
    forall f :: !Kernel(f) ==> Total(tr, f) < Width(f)
  }

  lemma UpdateEntryAdds(e: Event, s: SockStats, f: Counter)
    requires !Kernel(f) && IsStatsOp(e.op) && Ctr(s, f) < Width(f)
    ensures Ctr(UpdateEntry(e, s), f) == WrapAdd(Ctr(s, f), Amount(e, f), Width(f))
  {
  }

  lemma UpdateEntryAddsExactly(e: Event, s: SockStats, f: Counter)
    requires !Kernel(f) && IsStatsOp(e.op) && Ctr(s, f) + Amount(e, f) < Width(f)
    ensures Ctr(UpdateEntry(e, s), f) == Ctr(s, f) + Amount(e, f)
  {
    UpdateEntryAdds(e, s, f);
  }

  lemma {:induction false} SumOfUpdate(xs: seq<SockStats>, i: nat, x: SockStats, f: Counter)
    requires i < |xs|
    ensures SumOf(xs[i := x], f) == SumOf(xs, f) - Ctr(xs[i], f) + Ctr(x, f)
    ensures Ctr(xs[i], f) <= SumOf(xs, f)
  {
    var n := |xs| - 1;
    if i < n {
      assert xs[i := x][..n] == xs[..n][i := x];
      SumOfUpdate(xs[..n], i, x, f);
    } else {
      assert xs[i := x][..n] == xs[..n];
    }
  }

  /** One more event changes exactly one shard. */
  lemma ShardsStep(tr: Trace, cpus: seq<nat>, i: nat)
    requires tr != [] && NoDup(cpus) && i < |cpus| && cpus[i] == tr[|tr| - 1].cpu
    ensures var init, e := tr[..|tr| - 1], tr[|tr| - 1];
      Shards(tr, cpus) == Shards(init, cpus)[i := UpdateEntry(e, Shards(init, cpus)[i])]
  {
  }

  lemma {:induction false} SumOfDefaults(cpus: seq<nat>, f: Counter)
    ensures SumOf(Shards([], cpus), f) == 0
  {
    if cpus != [] {
      var n := |cpus| - 1;
      assert Shards([], cpus)[..n] == Shards([], cpus[..n]);
      SumOfDefaults(cpus[..n], f);
    }
  }

  lemma {:induction false} ShardInRange(tr: Trace, cpu: nat, f: Counter)
    requires !Kernel(f) && forall i :: 0 <= i < |tr| ==> IsStatsOp(tr[i].op)
    ensures Ctr(Shard(tr, cpu), f) < Width(f) && Ctr(Single(tr), f) < Width(f)
  {
    if tr != [] {
      var init, e := tr[..|tr| - 1], tr[|tr| - 1];
      ShardInRange(init, cpu, f);
      UpdateEntryAdds(e, Shard(init, cpu), f);
      UpdateEntryAdds(e, Single(init), f);
    }
  }

  /** With no bound on the trace: whatever wraps on the way, the sum over the shards stays congruent
      to the single store's counter and to the true total. */
  lemma {:induction false} ShardSumCongruent(tr: Trace, cpus: seq<nat>, f: Counter)
    requires NoDup(cpus) && !Kernel(f)
    requires forall i :: 0 <= i < |tr| ==> IsStatsOp(tr[i].op) && tr[i].cpu in cpus
    ensures Congruent(Total(tr, f), SumOf(Shards(tr, cpus), f), Width(f))
    ensures Congruent(Total(tr, f), Ctr(Single(tr), f), Width(f))
  {
    if tr == [] {
      SumOfDefaults(cpus, f);
      CongruentRefl(0, Width(f));
    } else {
      var init, e := tr[..|tr| - 1], tr[|tr| - 1];
      ShardSumCongruent(init, cpus, f);
      var i :| 0 <= i < |cpus| && cpus[i] == e.cpu;
      ShardsStep(tr, cpus, i);
      var xs, x := Shards(init, cpus), UpdateEntry(e, Shards(init, cpus)[i]);
      SumOfUpdate(xs, i, x, f);
      ShardInRange(init, e.cpu, f);
      UpdateEntryAdds(e, xs[i], f);
      UpdateEntryAdds(e, Single(init), f);
      WrapAddCongruent(Total(init, f), Ctr(Single(init), f), Amount(e, f), Width(f));
      BumpKeepsCongruent(Total(init, f), SumOf(xs, f), Ctr(xs[i], f), Amount(e, f), Width(f));
    }
  }

  /** While the true totals fit, nothing wraps: shards add up to the total exactly. */
  lemma {:induction false} ShardSumExact(tr: Trace, cpus: seq<nat>, f: Counter)
    requires NoDup(cpus) && !Kernel(f) && Total(tr, f) < Width(f)
    requires forall i :: 0 <= i < |tr| ==> IsStatsOp(tr[i].op) && tr[i].cpu in cpus
    ensures SumOf(Shards(tr, cpus), f) == Total(tr, f) == Ctr(Single(tr), f)
  {
    if tr == [] {
      SumOfDefaults(cpus, f);
    } else {
      var init, e := tr[..|tr| - 1], tr[|tr| - 1];
      ShardSumExact(init, cpus, f);
      var i :| 0 <= i < |cpus| && cpus[i] == e.cpu;
      ShardsStep(tr, cpus, i);
      var xs := Shards(init, cpus);
      SumOfUpdate(xs, i, UpdateEntry(e, xs[i]), f);
      UpdateEntryAddsExactly(e, xs[i], f);
      UpdateEntryAddsExactly(e, Single(init), f);
    }
  }

  // ---------------------------------------------------------------------------------------------
  // Registers: fields that hold the latest observation
  // ---------------------------------------------------------------------------------------------

  datatype Register = OfKernel(f: Counter) | OfStamp(t: Stamp)

  predicate IsRegister(r: Register) { r.OfKernel? ==> Kernel(r.f) }

  function Reading(s: SockStats, r: Register): nat {
    match r case OfKernel(f) => Ctr(s, f) case OfStamp(t) => StampOf(s, t)
  }

  /** The event overwrites the register. */
  predicate Writes(e: Event, r: Register) {
    match r
    case OfKernel(_) =>
      e.op.RttCb? || IsHdrOpt(e.op) || (e.op.StateCb? && e.arg1 == BPF_TCP_CLOSE)
    case OfStamp(LastTouched) => true
    case OfStamp(ConnectStart) => IsNewSockEvent(e.op)
    case OfStamp(ConnectEnd) => e.op.StateCb? && e.arg1 == BPF_TCP_ESTABLISHED
  }

  function Written(e: Event, r: Register): nat {
    match r
    case OfStamp(_) => e.nowUs
    case OfKernel(BytesReceived) => e.kernel.bytesReceived
    case OfKernel(BytesDelivered) => e.kernel.bytesAcked
    case OfKernel(SegmentsReceived) => e.kernel.segmentsReceived
    case OfKernel(_) => e.kernel.segmentsDelivered
  }

  /** Time does not run backwards, nor do the counters the kernel reports. */
  ghost predicate Monotone(tr: Trace) {
    && (forall i, j :: 0 <= i < j < |tr| ==> tr[i].nowUs <= tr[j].nowUs)
    && (forall i, j, f :: 0 <= i < j < |tr| && Kernel(f)
          && Writes(tr[i], OfKernel(f)) && Writes(tr[j], OfKernel(f))
          ==> Written(tr[i], OfKernel(f)) <= Written(tr[j], OfKernel(f)))
  }

  lemma UpdateEntryWrites(e: Event, s: SockStats, r: Register)
    requires IsStatsOp(e.op) && IsRegister(r)
    ensures Reading(UpdateEntry(e, s), r) == if Writes(e, r) then Written(e, r) else Reading(s, r)
  {
  }

  function MaxReading(xs: seq<SockStats>, r: Register): nat {
    if xs == [] then 0 else Max(MaxReading(xs[..|xs| - 1], r), Reading(xs[|xs| - 1], r))
  }

  lemma {:induction false} MergeRegister(xs: seq<SockStats>, lastAgg: nat, r: Register)
    requires IsRegister(r)
    ensures Reading(Merge(xs, lastAgg), r) == MaxReading(xs, r)
  {
    if xs != [] {
      MergeRegister(xs[..|xs| - 1], lastAgg, r);
    }
  }

  lemma {:induction false} MaxReadingIs(xs: seq<SockStats>, r: Register, v: nat)
    requires forall i :: 0 <= i < |xs| ==> Reading(xs[i], r) <= v
    ensures MaxReading(xs, r) <= v
    ensures (exists i :: 0 <= i < |xs| && Reading(xs[i], r) == v) || v == 0 ==> MaxReading(xs, r) == v
  {
    if xs != [] {
      var n := |xs| - 1;
      MaxReadingIs(xs[..n], r, v);
      if i :| 0 <= i < |xs| && Reading(xs[i], r) == v {
        assert i < n ==> Reading(xs[..n][i], r) == v;
      }
    }
  }

  /** A register of the single store is unwritten, or holds what some event wrote. */
  lemma {:induction false} ReadingWasWritten(tr: Trace, r: Register)
    requires IsRegister(r) && forall i :: 0 <= i < |tr| ==> IsStatsOp(tr[i].op)
    ensures Reading(Single(tr), r) == 0
         || exists j :: 0 <= j < |tr| && Writes(tr[j], r) && Written(tr[j], r) == Reading(Single(tr), r)
  {
    if tr != [] {
      var n := |tr| - 1;
      ReadingWasWritten(tr[..n], r);
      UpdateEntryWrites(tr[n], Single(tr[..n]), r);
      if !Writes(tr[n], r) && Reading(Single(tr[..n]), r) != 0 {
        var j :| 0 <= j < n && Writes(tr[..n][j], r) && Written(tr[..n][j], r) == Reading(Single(tr[..n]), r);
        assert tr[j] == tr[..n][j];
      }
    }
  }

  /** What the last event writes is not behind what was there. */
  lemma WritesForward(tr: Trace, r: Register)
    requires tr != [] && IsRegister(r) && Monotone(tr) && Writes(tr[|tr| - 1], r)
    requires forall i :: 0 <= i < |tr| ==> IsStatsOp(tr[i].op)
    ensures Reading(Single(tr[..|tr| - 1]), r) <= Written(tr[|tr| - 1], r)
  {
    var n := |tr| - 1;
    ReadingWasWritten(tr[..n], r);
    if Reading(Single(tr[..n]), r) != 0 {
      var j :| 0 <= j < n && Writes(tr[..n][j], r) && Written(tr[..n][j], r) == Reading(Single(tr[..n]), r);
      assert tr[j] == tr[..n][j];
      assert Written(tr[j], r) <= Written(tr[n], r);
    }
  }

  /** No shard is ahead of the last value written, and the core that wrote it holds it. */
  lemma {:induction false} LatestIsGreatest(tr: Trace, cpus: seq<nat>, r: Register)
    requires IsRegister(r) && Monotone(tr) && NoDup(cpus)
    requires forall i :: 0 <= i < |tr| ==> IsStatsOp(tr[i].op) && tr[i].cpu in cpus
    ensures forall i :: 0 <= i < |cpus| ==> Reading(Shard(tr, cpus[i]), r) <= Reading(Single(tr), r)
    ensures Reading(Single(tr), r) == 0
         || exists i :: 0 <= i < |cpus| && Reading(Shard(tr, cpus[i]), r) == Reading(Single(tr), r)
  {
    if tr != [] {
      var n := |tr| - 1;
      var init, e := tr[..n], tr[n];
      LatestIsGreatest(init, cpus, r);
      UpdateEntryWrites(e, Single(init), r);
      UpdateEntryWrites(e, Shard(init, e.cpu), r);
      if Writes(e, r) {
        WritesForward(tr, r);
        var k :| 0 <= k < |cpus| && cpus[k] == e.cpu;
        assert Reading(Shard(tr, cpus[k]), r) == Written(e, r);
      } else if Reading(Single(init), r) != 0 {
        var i :| 0 <= i < |cpus| && Reading(Shard(init, cpus[i]), r) == Reading(Single(init), r);
        assert Reading(Shard(tr, cpus[i]), r) == Reading(Single(tr), r);
      }
    }
  }

  // ---------------------------------------------------------------------------------------------
  // State flags
  // ---------------------------------------------------------------------------------------------

  function UnionFlags(xs: seq<SockStats>): set<Flag> {
    if xs == [] then {} else UnionFlags(xs[..|xs| - 1]) + xs[|xs| - 1].flags
  }

  lemma {:induction false} MergeFlags(xs: seq<SockStats>, lastAgg: nat)
    ensures Merge(xs, lastAgg).flags == UnionFlags(xs)
    ensures forall fl :: fl in UnionFlags(xs) <==> exists i :: 0 <= i < |xs| && fl in xs[i].flags
  {
    if xs != [] {
      var n := |xs| - 1;
      MergeFlags(xs[..n], lastAgg);
      forall fl ensures fl in UnionFlags(xs) <==> exists i :: 0 <= i < |xs| && fl in xs[i].flags {
        if fl in UnionFlags(xs[..n]) {
          var i :| 0 <= i < n && fl in xs[..n][i].flags;
          assert fl in xs[i].flags;
        }
        if i :| 0 <= i < |xs| && fl in xs[i].flags {
          assert i < n ==> fl in xs[..n][i].flags;
        }
      }
    }
  }

  /** A flag is set exactly when some event of the trace made that transition. */
  lemma {:induction false} FlagsTellTransitions(tr: Trace, fl: Flag)
    requires forall i :: 0 <= i < |tr| ==> IsStatsOp(tr[i].op)
    ensures fl in Single(tr).flags <==> exists i :: 0 <= i < |tr| && Marks(tr[i], fl)
  {
    if tr != [] {
      var n := |tr| - 1;
      FlagsTellTransitions(tr[..n], fl);
      UpdateEntryFlags(tr[n], Single(tr[..n]), fl);
      if i :| 0 <= i < n && Marks(tr[..n][i], fl) {
        assert Marks(tr[i], fl);
      }
      if i :| 0 <= i < |tr| && Marks(tr[i], fl) {
        assert i < n ==> Marks(tr[..n][i], fl);
      }
    }
  }

  lemma {:induction false} FlagSomewhere(tr: Trace, cpus: seq<nat>, fl: Flag)
    requires forall i :: 0 <= i < |tr| ==> IsStatsOp(tr[i].op) && tr[i].cpu in cpus
    ensures fl in Single(tr).flags
       <==> exists i :: 0 <= i < |cpus| && fl in Shard(tr, cpus[i]).flags
  {
    if tr != [] {
      var n := |tr| - 1;
      var init, e := tr[..n], tr[n];
      FlagSomewhere(init, cpus, fl);
      var k :| 0 <= k < |cpus| && cpus[k] == e.cpu;
      UpdateEntryFlags(e, Single(init), fl);
      UpdateEntryFlags(e, Shard(init, e.cpu), fl);
      if Marks(e, fl) {
        assert fl in Shard(tr, cpus[k]).flags;
      } else {
        forall i | 0 <= i < |cpus|
          ensures fl in Shard(tr, cpus[i]).flags <==> fl in Shard(init, cpus[i]).flags
        {
        }
      }
    }
  }

  // ---------------------------------------------------------------------------------------------
  // Round-trip times
  // ---------------------------------------------------------------------------------------------

  predicate IsRttOn(e: Event, cpu: nat) { e.op.RttCb? && e.cpu == cpu }

  /** The `j`-th event is the core's last RTT event. */
  ghost predicate IsLastRtt(tr: Trace, cpu: nat, j: nat) {
    && j < |tr| && IsRttOn(tr[j], cpu)
    && forall i :: j < i < |tr| ==> !IsRttOn(tr[i], cpu)
  }

  /** A shard's two round-trip times are those that the last RTT event on its core reported, or 0. */
  lemma {:induction false} ShardRttIsLast(tr: Trace, cpu: nat)
    requires forall i :: 0 <= i < |tr| ==> IsStatsOp(tr[i].op)
    ensures forall j: nat :: IsLastRtt(tr, cpu, j) ==>
      ReportsRtt(tr[j], Shard(tr, cpu).rttLatestUs, Shard(tr, cpu).rttSmoothedUs)
    ensures (forall i :: 0 <= i < |tr| ==> !IsRttOn(tr[i], cpu)) ==>
      Shard(tr, cpu).rttLatestUs == 0 && Shard(tr, cpu).rttSmoothedUs == 0
  {
    if tr != [] {
      var n := |tr| - 1;
      var init := tr[..n];
      ShardRttIsLast(init, cpu);
      UpdateEntryRtt(tr[n], Shard(init, cpu));
      forall j: nat | IsLastRtt(tr, cpu, j)
        ensures ReportsRtt(tr[j], Shard(tr, cpu).rttLatestUs, Shard(tr, cpu).rttSmoothedUs)
      {
        if j < n {
          assert !IsRttOn(tr[n], cpu);
          assert forall i :: j < i < n ==> init[i] == tr[i];
          assert IsLastRtt(init, cpu, j);
        }
      }
    }
  }

  // ---------------------------------------------------------------------------------------------
  // Main theorem
  // ---------------------------------------------------------------------------------------------

  /** Latest observations merge to those of the single store, with no condition on the totals. */
  lemma MergedRegisterIsSingle(tr: Trace, cpus: seq<nat>, lastAgg: nat, r: Register)
    requires NoDup(cpus) && Monotone(tr) && IsRegister(r)
    requires forall i :: 0 <= i < |tr| ==> IsStatsOp(tr[i].op) && tr[i].cpu in cpus
    ensures Reading(Merge(Shards(tr, cpus), lastAgg), r) == Reading(Single(tr), r)
  {
    var xs := Shards(tr, cpus);
    MergeRegister(xs, lastAgg, r);
    LatestIsGreatest(tr, cpus, r);
    var v := Reading(Single(tr), r);
    if i :| 0 <= i < |cpus| && Reading(Shard(tr, cpus[i]), r) == v {
      assert Reading(xs[i], r) == v;
    }
    MaxReadingIs(xs, r, v);
  }

  /** For every trace of one socket's events over any cores, with time and kernel counters that do
      not run backwards and totals that fit, merging the per-core entries gives the counters,
      timestamps and flags of one entry fed the whole trace, without overflow. */
  lemma ShardingRefinesSingleStore(tr: Trace, cpus: seq<nat>, lastAgg: nat)
    requires NoDup(cpus) && Monotone(tr) && SumsFit(tr)
    requires forall i :: 0 <= i < |tr| ==> IsStatsOp(tr[i].op) && tr[i].cpu in cpus
    ensures var merged := Merge(Shards(tr, cpus), lastAgg);
      && (forall f :: Ctr(merged, f) == Ctr(Single(tr), f))
      && (forall f :: !Kernel(f) ==> Ctr(merged, f) == Total(tr, f))
      && (forall t :: StampOf(merged, t) == StampOf(Single(tr), t))
      && merged.flags == Single(tr).flags
  {
    var xs := Shards(tr, cpus);
    var merged := Merge(xs, lastAgg);
    forall r | IsRegister(r) ensures Reading(merged, r) == Reading(Single(tr), r) {
      MergedRegisterIsSingle(tr, cpus, lastAgg, r);
    }
    forall f ensures Ctr(merged, f) == Ctr(Single(tr), f)
             ensures !Kernel(f) ==> Ctr(merged, f) == Total(tr, f) {
      if Kernel(f) {
        assert Reading(merged, OfKernel(f)) == Reading(Single(tr), OfKernel(f));
      } else {
        MergeCounter(xs, lastAgg, f);
        ShardSumExact(tr, cpus, f);
      }
    }
    forall t ensures StampOf(merged, t) == StampOf(Single(tr), t) {
      assert Reading(merged, OfStamp(t)) == Reading(Single(tr), OfStamp(t));
    }
    MergeFlags(xs, lastAgg);
    forall fl ensures fl in merged.flags <==> fl in Single(tr).flags {
      FlagSomewhere(tr, cpus, fl);
    }
  }

  /** With no condition on the totals: the merged counter is the single store's counter exactly when
      the sum over the shards fits its width, that is, when the controller's checked additions do not
      abort. Wrap-around inside the shards does no harm. */
  lemma MergedCounterIsSingleIff(tr: Trace, cpus: seq<nat>, lastAgg: nat, f: Counter)
    requires NoDup(cpus) && !Kernel(f)
    requires forall i :: 0 <= i < |tr| ==> IsStatsOp(tr[i].op) && tr[i].cpu in cpus
    ensures Ctr(Merge(Shards(tr, cpus), lastAgg), f) == Ctr(Single(tr), f)
       <==> SumOf(Shards(tr, cpus), f) < Width(f)
  {
    var sum, single := SumOf(Shards(tr, cpus), f), Ctr(Single(tr), f);
    MergeCounter(Shards(tr, cpus), lastAgg, f);
    ShardInRange(tr, 0, f);
    ShardSumCongruent(tr, cpus, f);
    if sum < Width(f) {
      CongruentSym(Total(tr, f), sum, Width(f));
      CongruentTrans(sum, Total(tr, f), single, Width(f));
      CongruentInRange(sum, single, Width(f));
    }
  }

  function Copies(e: Event, n: nat): seq<Event> {
    if n == 0 then [] else Copies(e, n - 1) + [e]
  }

  /** One callback for one retransmitted SYN. */
  predicate IsSynRetransmit(e: Event) {
    e.op.RetransCb? && e.sockState == BPF_TCP_SYN_SENT && e.arg1 == 1
  }

  lemma ShardOneMore(tr: Trace, e: Event, cpu: nat)
    ensures Shard(tr + [e], cpu) == if e.cpu == cpu then UpdateEntry(e, Shard(tr, cpu)) else Shard(tr, cpu)
  {
    assert (tr + [e])[..|tr|] == tr;
  }

  lemma {:induction false} CopiesAttempts(tr: Trace, e: Event, n: nat)
    requires IsSynRetransmit(e) && Shard(tr, e.cpu).connectAttempts + n < U8
    ensures Shard(tr + Copies(e, n), e.cpu).connectAttempts == Shard(tr, e.cpu).connectAttempts + n
  {
    if n == 0 {
      assert tr + Copies(e, n) == tr;
    } else {
      var init := tr + Copies(e, n - 1);
      assert tr + Copies(e, n) == init + [e];
      CopiesAttempts(tr, e, n - 1);
      ShardOneMore(init, e, e.cpu);
      UpdateEntryAddsExactly(e, Shard(init, e.cpu), ConnectAttempts);
    }
  }

  lemma {:induction false} OtherCoreUnchanged(tr: Trace, e: Event, n: nat, cpu: nat)
    requires e.cpu != cpu
    ensures Shard(tr + Copies(e, n), cpu) == Shard(tr, cpu)
  {
    if n == 0 {
      assert tr + Copies(e, n) == tr;
    } else {
      assert tr + Copies(e, n) == tr + Copies(e, n - 1) + [e];
      ShardOneMore(tr + Copies(e, n - 1), e, cpu);
      OtherCoreUnchanged(tr, e, n - 1, cpu);
    }
  }

  lemma SumOfTwo(x: SockStats, y: SockStats, f: Counter)
    ensures SumOf([x, y], f) == Ctr(x, f) + Ctr(y, f)
  {
    var both, one := [x, y], [x];
    assert both[..1] == one && one[..0] == [];
    assert SumOf(one, f) == SumOf(one[..0], f) + Ctr(one[0], f);
    assert SumOf(both, f) == SumOf(both[..1], f) + Ctr(both[1], f);
  }

  /** Retransmitted SYNs, `n` on each of two cores. */
  function SynsOnTwoCores(a: Event, b: Event, n: nat): Trace { Copies(a, n) + Copies(b, n) }

  lemma EachShardHoldsItsSyns(a: Event, b: Event, n: nat)
    requires IsSynRetransmit(a) && IsSynRetransmit(b) && a.cpu != b.cpu && n < U8
    ensures Shard(SynsOnTwoCores(a, b, n), a.cpu).connectAttempts == n
    ensures Shard(SynsOnTwoCores(a, b, n), b.cpu).connectAttempts == n
  {
    var first := Copies(a, n);
    assert [] + first == first;
    CopiesAttempts([], a, n);
    OtherCoreUnchanged(first, b, n, a.cpu);
    OtherCoreUnchanged([], a, n, b.cpu);
    CopiesAttempts(first, b, n);
  }

  lemma TwoShardsOverflow(x: SockStats, y: SockStats, lastAgg: nat)
    requires x.connectAttempts + y.connectAttempts >= U8
    ensures !InRange(Merge([x, y], lastAgg))
  {
    SumOfTwo(x, y, ConnectAttempts);
    MergeCounter([x, y], lastAgg, ConnectAttempts);
    assert Ctr(Merge([x, y], lastAgg), ConnectAttempts) >= Width(ConnectAttempts);
  }

  /** The condition can fail. Retransmitted SYNs are added to an 8-bit counter on each core; from 128
      of them, one by one, on each of two cores they make a sum that the controller cannot hold,
      although each shard can. */
  lemma RetransmittedSynsCanAbortTheMerge(a: Event, b: Event, n: nat, lastAgg: nat)
    requires IsSynRetransmit(a) && IsSynRetransmit(b) && a.cpu != b.cpu && 128 <= n < U8
    ensures var shards := Shards(SynsOnTwoCores(a, b, n), [a.cpu, b.cpu]);
      && (forall i :: 0 <= i < |shards| ==> shards[i].connectAttempts == n < U8)
      && !InRange(Merge(shards, lastAgg))
  {
    var tr := SynsOnTwoCores(a, b, n);
    EachShardHoldsItsSyns(a, b, n);
    TwoShardsOverflow(Shard(tr, a.cpu), Shard(tr, b.cpu), lastAgg);
    assert Shards(tr, [a.cpu, b.cpu]) == [Shard(tr, a.cpu), Shard(tr, b.cpu)];
  }
}
