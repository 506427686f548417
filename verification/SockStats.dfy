/** Per-socket statistics and how the shards kept by several CPU cores are merged
    (nfm-common/src/network.rs). */
module SockStatsModel {
  import opened Arith

  datatype Flag = EnteredEstablish | StartedClosure | TerminatedFromSyn | TerminatedFromEst | Closed

  datatype SockStats = SockStats(
    lastTouchedUs: nat, connectStartUs: nat, connectEndUs: nat,
    bytesReceived: nat, bytesDelivered: nat, segmentsReceived: nat, segmentsDelivered: nat,
    rttCount: nat, rttLatestUs: nat, rttSmoothedUs: nat,
    retransSyn: nat, retransEst: nat, retransClose: nat,
    rtosSyn: nat, rtosEst: nat, rtosClose: nat,
    flags: set<Flag>,
    connectAttempts: nat, connectSuccesses: nat)

  const DEFAULT: SockStats :=
    SockStats(0, 0, 0, 0, 0, 0, 0, 0, 0, 0, 0, 0, 0, 0, 0, 0, {}, 0, 0)

  /** The names of the thirteen counters. Laws about all of them quantify over this type. */
  datatype Counter =
    | BytesReceived | BytesDelivered | SegmentsReceived | SegmentsDelivered | RttCount
    | RetransSyn | RetransEst | RetransClose | RtosSyn | RtosEst | RtosClose
    | ConnectAttempts | ConnectSuccesses

  /** The names of the three timestamps. */
  datatype Stamp = LastTouched | ConnectStart | ConnectEnd

  function Ctr(s: SockStats, f: Counter): nat {
    match f
    case BytesReceived => s.bytesReceived
    case BytesDelivered => s.bytesDelivered
    case SegmentsReceived => s.segmentsReceived
    case SegmentsDelivered => s.segmentsDelivered
    case RttCount => s.rttCount
    case RetransSyn => s.retransSyn
    case RetransEst => s.retransEst
    case RetransClose => s.retransClose
    case RtosSyn => s.rtosSyn
    case RtosEst => s.rtosEst
    case RtosClose => s.rtosClose
    case ConnectAttempts => s.connectAttempts
    case ConnectSuccesses => s.connectSuccesses
  }

  function StampOf(s: SockStats, t: Stamp): nat {
    match t
    case LastTouched => s.lastTouchedUs
    case ConnectStart => s.connectStartUs
    case ConnectEnd => s.connectEndUs
  }

  /** The modulus of a counter's machine width. */
  function Width(f: Counter): (m: nat)
    ensures m > 0
  {
    match f
    case BytesReceived => U64
    case BytesDelivered => U64
    case ConnectAttempts => U8
    case ConnectSuccesses => U8
    case _ => U32
  }

  /** Counters the kernel already accumulates per socket; the others are accumulated per core. */
  predicate Kernel(f: Counter) {
    f.BytesReceived? || f.BytesDelivered? || f.SegmentsReceived? || f.SegmentsDelivered?
  }

  /** Every counter fits its machine width. */
  ghost predicate InRange(s: SockStats) {
    forall f :: Ctr(s, f) < Width(f)
  }

  predicate IsClosed(s: SockStats) { Closed in s.flags }

  function ConnectUs(s: SockStats): Option<nat> {
    if s.connectStartUs > 0 && s.connectEndUs > s.connectStartUs
    then Some((s.connectEndUs - s.connectStartUs) % U32)
    else None
  }

  /** Adds one core's statistics to those of another core for the same socket. The additions abort
      the controller when they overflow; `InRange` of the result is exactly the absence of that. */
  function AddFrom(a: SockStats, b: SockStats, lastAgg: nat): SockStats {
    var isFresh := b.lastTouchedUs >= lastAgg;
    var bothFresh := isFresh && a.lastTouchedUs >= lastAgg;
    SockStats(
      Max(a.lastTouchedUs, b.lastTouchedUs),
      Max(a.connectStartUs, b.connectStartUs),
      Max(a.connectEndUs, b.connectEndUs),
      Max(a.bytesReceived, b.bytesReceived),
      Max(a.bytesDelivered, b.bytesDelivered),
      Max(a.segmentsReceived, b.segmentsReceived),
      Max(a.segmentsDelivered, b.segmentsDelivered),
      a.rttCount + b.rttCount,
      if bothFresh then MinNonZero(a.rttLatestUs, b.rttLatestUs)
      else if isFresh then b.rttLatestUs else a.rttLatestUs,
      if bothFresh then Max(a.rttSmoothedUs, b.rttSmoothedUs)
      else if isFresh then b.rttSmoothedUs else a.rttSmoothedUs,
      a.retransSyn + b.retransSyn, a.retransEst + b.retransEst, a.retransClose + b.retransClose,
      a.rtosSyn + b.rtosSyn, a.rtosEst + b.rtosEst, a.rtosClose + b.rtosClose,
      a.flags + b.flags,
      a.connectAttempts + b.connectAttempts,
      a.connectSuccesses + b.connectSuccesses)
  }

  /** The merge as it is carried out, one field after another. The round-trip times come first: which
      ones to take depends on `lastTouchedUs` as it was before this merge. */
  method MergeShard(a: SockStats, b: SockStats, lastAgg: nat) returns (s: SockStats)
    ensures s == AddFrom(a, b, lastAgg)
  {
    s := a;
    if b.lastTouchedUs >= lastAgg {
      if s.lastTouchedUs >= lastAgg {
        s := s.(rttLatestUs := MinNonZero(s.rttLatestUs, b.rttLatestUs));
        s := s.(rttSmoothedUs := Max(s.rttSmoothedUs, b.rttSmoothedUs));
      } else {
        s := s.(rttLatestUs := b.rttLatestUs);
        s := s.(rttSmoothedUs := b.rttSmoothedUs);
      }
    }
    s := s.(lastTouchedUs := Max(s.lastTouchedUs, b.lastTouchedUs));
    s := s.(connectStartUs := Max(s.connectStartUs, b.connectStartUs));
    s := s.(connectEndUs := Max(s.connectEndUs, b.connectEndUs));
    s := s.(flags := s.flags + b.flags);
    s := s.(bytesReceived := Max(s.bytesReceived, b.bytesReceived));
    s := s.(bytesDelivered := Max(s.bytesDelivered, b.bytesDelivered));
    s := s.(segmentsReceived := Max(s.segmentsReceived, b.segmentsReceived));
    s := s.(segmentsDelivered := Max(s.segmentsDelivered, b.segmentsDelivered));
    s := s.(retransSyn := s.retransSyn + b.retransSyn);
    s := s.(retransEst := s.retransEst + b.retransEst);
    s := s.(retransClose := s.retransClose + b.retransClose);
    s := s.(rtosSyn := s.rtosSyn + b.rtosSyn);
    s := s.(rtosEst := s.rtosEst + b.rtosEst);
    s := s.(rtosClose := s.rtosClose + b.rtosClose);
    s := s.(rttCount := s.rttCount + b.rttCount);
    s := s.(connectAttempts := s.connectAttempts + b.connectAttempts);
    s := s.(connectSuccesses := s.connectSuccesses + b.connectSuccesses);
  }

  /** The change from `b` to `a`: wrapping differences of counters, everything else from `a`. */
  function Subtract(a: SockStats, b: SockStats): SockStats {
    a.(bytesReceived := WrapSub(a.bytesReceived, b.bytesReceived, U64),
       bytesDelivered := WrapSub(a.bytesDelivered, b.bytesDelivered, U64),
       segmentsReceived := WrapSub(a.segmentsReceived, b.segmentsReceived, U32),
       segmentsDelivered := WrapSub(a.segmentsDelivered, b.segmentsDelivered, U32),
       rttCount := WrapSub(a.rttCount, b.rttCount, U32),
       retransSyn := WrapSub(a.retransSyn, b.retransSyn, U32),
       retransEst := WrapSub(a.retransEst, b.retransEst, U32),
       retransClose := WrapSub(a.retransClose, b.retransClose, U32),
       rtosSyn := WrapSub(a.rtosSyn, b.rtosSyn, U32),
       rtosEst := WrapSub(a.rtosEst, b.rtosEst, U32),
       rtosClose := WrapSub(a.rtosClose, b.rtosClose, U32),
       connectAttempts := WrapSub(a.connectAttempts, b.connectAttempts, U8),
       connectSuccesses := WrapSub(a.connectSuccesses, b.connectSuccesses, U8))
  }

  lemma SubtractCounter(a: SockStats, b: SockStats, f: Counter)
    ensures Ctr(Subtract(a, b), f) == WrapSub(Ctr(a, f), Ctr(b, f), Width(f))
  {
    match f {
      case BytesReceived =>
      case BytesDelivered =>
      case ConnectAttempts =>
      case ConnectSuccesses =>
      case _ =>
    }
  }

  /** A difference keeps everything that is not a counter as it is now. */
  lemma SubtractKeepsTheRest(a: SockStats, b: SockStats)
    ensures Subtract(a, b).flags == a.flags
    ensures forall t :: StampOf(Subtract(a, b), t) == StampOf(a, t)
    ensures Subtract(a, b).rttLatestUs == a.rttLatestUs && Subtract(a, b).rttSmoothedUs == a.rttSmoothedUs
    ensures ConnectUs(Subtract(a, b)) == ConnectUs(a)
  {
  }

  /** There is a connect time exactly when a start was seen and an end after it; it is the time between
      the two, truncated to 32 bits. */
  lemma ConnectTimeIff(s: SockStats)
    ensures ConnectUs(s).Some? <==> 0 < s.connectStartUs < s.connectEndUs
    ensures ConnectUs(s).Some? ==>
      && ConnectUs(s).value < U32
      && Congruent(s.connectEndUs, s.connectStartUs + ConnectUs(s).value, U32)
      && (s.connectEndUs < s.connectStartUs + U32 ==> s.connectStartUs + ConnectUs(s).value == s.connectEndUs)
  {
    if ConnectUs(s).Some? {
      var span := s.connectEndUs - s.connectStartUs;
      assert span == (span / U32) * U32 + span % U32;
      assert s.connectEndUs == s.connectStartUs + ConnectUs(s).value + (span / U32) * U32;
    }
  }

  // ---------------------------------------------------------------------------------------------
  // Merging the shards of one socket
  // ---------------------------------------------------------------------------------------------

  /** What the controller computes for one socket: shards folded, in the order read, into a
      default entry. */
  function Merge(shards: seq<SockStats>, lastAgg: nat): SockStats {
    if shards == [] then DEFAULT
    else AddFrom(Merge(shards[..|shards| - 1], lastAgg), shards[|shards| - 1], lastAgg)
  }

  function SumOf(shards: seq<SockStats>, f: Counter): nat {
    if shards == [] then 0
    else SumOf(shards[..|shards| - 1], f) + Ctr(shards[|shards| - 1], f)
  }

  function MaxOf(shards: seq<SockStats>, f: Counter): nat {
    if shards == [] then 0
    else Max(MaxOf(shards[..|shards| - 1], f), Ctr(shards[|shards| - 1], f))
  }

  /** Kernel counters merge to the maximum over the shards, the others to the sum. */
  lemma {:induction false} MergeCounter(shards: seq<SockStats>, lastAgg: nat, f: Counter)
    ensures Ctr(Merge(shards, lastAgg), f)
         == if Kernel(f) then MaxOf(shards, f) else SumOf(shards, f)
  {
    if shards != [] {
      MergeCounter(shards[..|shards| - 1], lastAgg, f);
    }
  }

  lemma {:induction false} SumOfPrefix(shards: seq<SockStats>, n: nat, f: Counter)
    requires n <= |shards|
    ensures SumOf(shards[..n], f) <= SumOf(shards, f)
  {
    if n < |shards| {
      var init := shards[..|shards| - 1];
      assert init[..n] == shards[..n];
      SumOfPrefix(init, n, f);
    } else {
      assert shards[..n] == shards;
    }
  }

  lemma {:induction false} MaxOfBelow(shards: seq<SockStats>, f: Counter, bound: nat)
    requires forall i :: 0 <= i < |shards| ==> Ctr(shards[i], f) < bound
    requires bound > 0
    ensures MaxOf(shards, f) < bound
  {
    if shards != [] {
      MaxOfBelow(shards[..|shards| - 1], f, bound);
    }
  }

  /** The controller's checked additions overflow nowhere while merging, at no intermediate step,
      exactly when the sums over all shards fit. */
  lemma MergeAbortsIff(shards: seq<SockStats>, lastAgg: nat)
    requires forall i :: 0 <= i < |shards| ==> InRange(shards[i])
    ensures (forall n :: 0 <= n <= |shards| ==> InRange(Merge(shards[..n], lastAgg)))
       <==> (forall f :: !Kernel(f) ==> SumOf(shards, f) < Width(f))
  {
    if forall f :: !Kernel(f) ==> SumOf(shards, f) < Width(f) {
      forall n, f | 0 <= n <= |shards|
        ensures Ctr(Merge(shards[..n], lastAgg), f) < Width(f)
      {
        MergeCounter(shards[..n], lastAgg, f);
        if Kernel(f) {
          MaxOfBelow(shards[..n], f, Width(f));
        } else {
          SumOfPrefix(shards, n, f);
        }
      }
    }
    if forall n :: 0 <= n <= |shards| ==> InRange(Merge(shards[..n], lastAgg)) {
      assert shards[..|shards|] == shards;
      assert InRange(Merge(shards[..|shards|], lastAgg));
      forall f | !Kernel(f)
        ensures SumOf(shards, f) < Width(f)
      {
        MergeCounter(shards, lastAgg, f);
      }
    }
  }

  ghost predicate Fresh(s: SockStats, lastAgg: nat) { s.lastTouchedUs >= lastAgg }

  /** `v` is the least non-zero latest RTT among the fresh shards, or 0 if there is none. */
  ghost predicate LeastFreshRtt(shards: seq<SockStats>, lastAgg: nat, v: nat) {
    && (v != 0 ==> exists i :: 0 <= i < |shards| && Fresh(shards[i], lastAgg)
                               && shards[i].rttLatestUs == v)
    && (forall i :: 0 <= i < |shards| && Fresh(shards[i], lastAgg) && shards[i].rttLatestUs != 0
                    ==> 0 < v <= shards[i].rttLatestUs)
  }

  /** `v` is the greatest smoothed RTT among the fresh shards, or 0 if there is none. */
  ghost predicate GreatestFreshRtt(shards: seq<SockStats>, lastAgg: nat, v: nat) {
    && (v != 0 ==> exists i :: 0 <= i < |shards| && Fresh(shards[i], lastAgg)
                               && shards[i].rttSmoothedUs == v)
    && (forall i :: 0 <= i < |shards| && Fresh(shards[i], lastAgg) ==> shards[i].rttSmoothedUs <= v)
  }

  lemma {:induction false} MergeFresh(shards: seq<SockStats>, lastAgg: nat)
    ensures (exists i :: 0 <= i < |shards| && Fresh(shards[i], lastAgg)) || lastAgg == 0
       <==> Fresh(Merge(shards, lastAgg), lastAgg)
  {
    if shards != [] {
      var n := |shards| - 1;
      MergeFresh(shards[..n], lastAgg);
      assert forall i :: 0 <= i < n ==> shards[..n][i] == shards[i];
    }
  }

  lemma {:induction false} MergeLatestRtt(shards: seq<SockStats>, lastAgg: nat)
    ensures LeastFreshRtt(shards, lastAgg, Merge(shards, lastAgg).rttLatestUs)
  {
    if shards != [] {
      var n := |shards| - 1;
      var init, b, v := shards[..n], shards[n], Merge(shards, lastAgg).rttLatestUs;
      MergeLatestRtt(init, lastAgg);
      MergeFresh(init, lastAgg);
      assert forall i :: 0 <= i < n ==> init[i] == shards[i];
      if v != 0 && !(Fresh(b, lastAgg) && v == b.rttLatestUs) {
        var i :| 0 <= i < n && Fresh(init[i], lastAgg) && init[i].rttLatestUs == v;
        assert Fresh(shards[i], lastAgg);
      }
    }
  }

  lemma {:induction false} MergeSmoothedRtt(shards: seq<SockStats>, lastAgg: nat)
    ensures GreatestFreshRtt(shards, lastAgg, Merge(shards, lastAgg).rttSmoothedUs)
  {
    if shards != [] {
      var n := |shards| - 1;
      var init, b, v := shards[..n], shards[n], Merge(shards, lastAgg).rttSmoothedUs;
      MergeSmoothedRtt(init, lastAgg);
      MergeFresh(init, lastAgg);
      assert forall i :: 0 <= i < n ==> init[i] == shards[i];
      if v != 0 && !(Fresh(b, lastAgg) && v == b.rttSmoothedUs) {
        var i :| 0 <= i < n && Fresh(init[i], lastAgg) && init[i].rttSmoothedUs == v;
        assert Fresh(shards[i], lastAgg);
      }
    }
  }

  /** The merged RTT values come from exactly the shards touched at or after the last read. */
  lemma MergeRtt(shards: seq<SockStats>, lastAgg: nat)
    ensures LeastFreshRtt(shards, lastAgg, Merge(shards, lastAgg).rttLatestUs)
    ensures GreatestFreshRtt(shards, lastAgg, Merge(shards, lastAgg).rttSmoothedUs)
    ensures (exists i :: 0 <= i < |shards| && Fresh(shards[i], lastAgg)) || lastAgg == 0
       <==> Fresh(Merge(shards, lastAgg), lastAgg)
  {
    MergeFresh(shards, lastAgg);
    MergeLatestRtt(shards, lastAgg);
    MergeSmoothedRtt(shards, lastAgg);
  }

  // ---------------------------------------------------------------------------------------------
  // Order independence
  // ---------------------------------------------------------------------------------------------

  lemma AddFromSwap(a: SockStats, x: SockStats, y: SockStats, t: nat)
    ensures AddFrom(AddFrom(a, x, t), y, t) == AddFrom(AddFrom(a, y, t), x, t)
  {
    var l, r := AddFrom(AddFrom(a, x, t), y, t), AddFrom(AddFrom(a, y, t), x, t);
    assert l.flags == r.flags;
  }

  lemma MergeOneMore(xs: seq<SockStats>, y: SockStats, t: nat)
    ensures Merge(xs + [y], t) == AddFrom(Merge(xs, t), y, t)
  {
    assert (xs + [y])[..|xs|] == xs;
  }

  lemma {:induction false} MergeMoveToEnd(xs: seq<SockStats>, x: SockStats, ys: seq<SockStats>, t: nat)
    ensures Merge(xs + [x] + ys, t) == AddFrom(Merge(xs + ys, t), x, t)
    decreases |ys|
  {
    if ys == [] {
      assert xs + [x] + ys == xs + [x] && xs + ys == xs;
      MergeOneMore(xs, x, t);
    } else {
      var init, y := ys[..|ys| - 1], ys[|ys| - 1];
      assert xs + [x] + ys == (xs + [x] + init) + [y];
      assert xs + ys == (xs + init) + [y];
      MergeOneMore(xs + [x] + init, y, t);
      MergeOneMore(xs + init, y, t);
      MergeMoveToEnd(xs, x, init, t);
      AddFromSwap(Merge(xs + init, t), x, y, t);
    }
  }

  /** The whole merged entry, RTTs included, does not depend on the order the shards are read. */
  lemma {:induction false} MergeIsOrderFree(xs: seq<SockStats>, ys: seq<SockStats>, t: nat)
    requires multiset(xs) == multiset(ys)
    ensures Merge(xs, t) == Merge(ys, t)
    decreases |xs|
  {
    assert |xs| == |multiset(xs)| == |multiset(ys)| == |ys|;
    if xs != [] {
      var x := xs[|xs| - 1];
      assert x in multiset(xs);
      assert x in ys;
      var i :| 0 <= i < |ys| && ys[i] == x;
      var pre, post := ys[..i], ys[i + 1..];
      assert ys == pre + [x] + post;
      assert xs == xs[..|xs| - 1] + [x];
      assert multiset(xs[..|xs| - 1]) == multiset(xs) - multiset{x};
      assert multiset(pre + post) == multiset(ys) - multiset{x};
      MergeIsOrderFree(xs[..|xs| - 1], pre + post, t);
      MergeMoveToEnd(pre, x, post, t);
    }
  }
}
