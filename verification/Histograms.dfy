/** Timing histograms: how flows build them (nfm-controller/src/events/network_event.rs) and how a
    report reader merges them (verifiers/report-verifier/src/report_ext.rs). */
module Histograms {
  import opened Arith
  import opened SockStatsModel
  import opened SockOps
  import opened SockCacheModel
  import opened Flows
  import Sharding

  /** Samples are non-zero 32-bit microsecond values, as the guards before each observation ensure. */
  type Samples = seq<nat>

  ghost predicate Proper(xs: Samples) {
    |xs| < U32 && forall i :: 0 <= i < |xs| ==> 0 < xs[i] < U32
  }

  function Total(xs: Samples): nat {
    if xs == [] then 0 else Total(xs[..|xs| - 1]) + xs[|xs| - 1]
  }

  /** The histogram of a window, one observation at a time. */
  function HistogramOf(xs: Samples): Histogram {
    if xs == [] then EMPTY_HISTOGRAM
    else Observe(HistogramOf(xs[..|xs| - 1]), xs[|xs| - 1], 1)
  }

  function MergeFrom(a: Histogram, b: Histogram): Histogram {
    Histogram(a.count + b.count, MinNonZero(a.min, b.min), Max(a.max, b.max), a.sum + b.sum)
  }

  lemma ProductBound(a: nat, b: nat, m: nat)
    requires a < m && b <= a * m
    ensures b < m * m
  {
    assert a * m <= (m - 1) * m;
    assert (m - 1) * m == m * m - m;
  }

  lemma {:induction false} TotalBounds(xs: Samples, lo: nat, hi: nat)
    requires forall i :: 0 <= i < |xs| ==> lo <= xs[i] <= hi
    ensures |xs| * lo <= Total(xs) <= |xs| * hi
  {
    if xs != [] {
      var n := |xs| - 1;
      TotalBounds(xs[..n], lo, hi);
      assert |xs| * lo == n * lo + lo;
      assert |xs| * hi == n * hi + hi;
    }
  }

  /** Below 2^32 samples nothing saturates, the sum included. */
  lemma TotalFits(xs: Samples)
    requires Proper(xs)
    ensures Total(xs) < U64
  {
    TotalBounds(xs, 0, U32);
    ProductBound(|xs|, Total(xs), U32);
  }

  /** Count and sum are exact; minimum and maximum are the true extremes. */
  ghost predicate Exact(h: Histogram, xs: Samples) {
    && h.count == |xs| && h.sum == Total(xs)
    && (xs == [] ==> h.min == 0 && h.max == 0)
    && (xs != [] ==> h.min in xs && h.max in xs)
    && (forall i :: 0 <= i < |xs| ==> 0 < h.min <= xs[i] <= h.max)
  }

  lemma {:induction false} HistogramIsExact(xs: Samples)
    requires Proper(xs)
    ensures Exact(HistogramOf(xs), xs)
  {
    if xs != [] {
      var n := |xs| - 1;
      HistogramIsExact(xs[..n]);
      TotalFits(xs);
      var h, h' := HistogramOf(xs[..n]), HistogramOf(xs);
      assert xs == xs[..n] + [xs[n]];
      assert forall i :: 0 <= i < n ==> xs[..n][i] == xs[i];
    }
  }

  /** What any histogram should satisfy: empty means all zeros, otherwise the average of its samples
      lies between a non-zero minimum and the maximum. */
  ghost predicate Coherent(h: Histogram) {
    && (h.count == 0 ==> h == EMPTY_HISTOGRAM)
    && (h.count > 0 ==> 0 < h.min <= h.max && h.count * h.min <= h.sum <= h.count * h.max)
  }

  /** An exact histogram is coherent. */
  lemma HistogramIsCoherent(xs: Samples)
    requires Proper(xs)
    ensures Coherent(HistogramOf(xs))
  {
    HistogramIsExact(xs);
    TotalBounds(xs, HistogramOf(xs).min, HistogramOf(xs).max);
  }

  lemma {:induction false} TotalConcat(xs: Samples, ys: Samples)
    ensures Total(xs + ys) == Total(xs) + Total(ys)
  {
    if ys == [] {
      assert xs + ys == xs;
    } else {
      var n := |ys| - 1;
      assert (xs + ys)[..|xs| + n] == xs + ys[..n];
      TotalConcat(xs, ys[..n]);
    }
  }

  lemma ExactIsUnique(g: Histogram, h: Histogram, xs: Samples)
    requires Exact(g, xs) && Exact(h, xs)
    ensures g == h
  {
    if xs != [] {
      var i :| 0 <= i < |xs| && xs[i] == g.min;
      var j :| 0 <= j < |xs| && xs[j] == h.min;
      var k :| 0 <= k < |xs| && xs[k] == g.max;
      var l :| 0 <= l < |xs| && xs[l] == h.max;
    }
  }

  lemma MergeIsExact(a: Histogram, b: Histogram, xs: Samples, ys: Samples)
    requires Exact(a, xs) && Exact(b, ys)
    ensures Exact(MergeFrom(a, b), xs + ys)
  {
    TotalConcat(xs, ys);
    var m := MergeFrom(a, b);
    forall i | 0 <= i < |xs + ys| ensures 0 < m.min <= (xs + ys)[i] <= m.max {
      var v := (xs + ys)[i];
      assert if i < |xs| then v == xs[i] else v == ys[i - |xs|];
      assert xs != [] ==> 0 < xs[0];
      assert ys != [] ==> 0 < ys[0];
    }
  }

  /** Merging two windows' histograms gives the histogram of the windows' samples together. */
  lemma MergeIsHomomorphism(xs: Samples, ys: Samples)
    requires Proper(xs + ys)
    ensures MergeFrom(HistogramOf(xs), HistogramOf(ys)) == HistogramOf(xs + ys)
  {
    assert forall i :: 0 <= i < |xs| ==> xs[i] == (xs + ys)[i];
    assert forall i :: 0 <= i < |ys| ==> ys[i] == (xs + ys)[|xs| + i];
    HistogramIsExact(xs);
    HistogramIsExact(ys);
    HistogramIsExact(xs + ys);
    MergeIsExact(HistogramOf(xs), HistogramOf(ys), xs, ys);
    ExactIsUnique(MergeFrom(HistogramOf(xs), HistogramOf(ys)), HistogramOf(xs + ys), xs + ys);
  }

  // ---------------------------------------------------------------------------------------------
  // The connect histogram counts differently
  // ---------------------------------------------------------------------------------------------

  /** One aggregation of a socket: its connect time, and how many connects succeeded since. */
  datatype Connect = Connect(us: nat, successes: nat)

  function ConnectHistogram(cs: seq<Connect>): Histogram {
    if cs == [] then EMPTY_HISTOGRAM
    else Observe(ConnectHistogram(cs[..|cs| - 1]), cs[|cs| - 1].us, cs[|cs| - 1].successes)
  }

  ghost predicate ProperConnects(cs: seq<Connect>) {
    forall i :: 0 <= i < |cs| ==> cs[i].successes > 0
  }

  function Successes(cs: seq<Connect>): nat {
    if cs == [] then 0 else Successes(cs[..|cs| - 1]) + cs[|cs| - 1].successes
  }

  lemma {:induction false} ConnectCount(cs: seq<Connect>)
    requires Successes(cs) < U32
    ensures ConnectHistogram(cs).count == Successes(cs)
  {
    if cs != [] {
      ConnectCount(cs[..|cs| - 1]);
    }
  }

  lemma {:induction false} SuccessesAtLeast(cs: seq<Connect>)
    requires ProperConnects(cs)
    ensures Successes(cs) >= |cs|
    ensures Successes(cs) == |cs| <==> forall i :: 0 <= i < |cs| ==> cs[i].successes == 1
  {
    if cs != [] {
      var n := |cs| - 1;
      SuccessesAtLeast(cs[..n]);
      assert forall i :: 0 <= i < n ==> cs[..n][i] == cs[i];
    }
  }

  /** The count is the number of measurements summed exactly when no socket succeeded twice between
      two aggregations. */
  lemma ConnectCountIsSampleCountIff(cs: seq<Connect>)
    requires ProperConnects(cs) && Successes(cs) < U32
    ensures ConnectHistogram(cs).count == |cs| <==> forall i :: 0 <= i < |cs| ==> cs[i].successes == 1
  {
    ConnectCount(cs);
    SuccessesAtLeast(cs);
  }

  /** One success, and a time that was not truncated to zero. */
  predicate Clean(c: Connect) { c.successes == 1 && c.us > 0 }

  /** Nothing saturates when the measurement is added. */
  predicate HasRoom(h: Histogram, c: Connect) {
    h.count + c.successes < U32 && h.sum + c.us < U64
  }

  lemma BoundsExtend(n: nat, lo: nat, hi: nat, sum: nat, v: nat, lo': nat, hi': nat)
    requires n * lo <= sum <= n * hi && lo' <= lo && lo' <= v && hi <= hi' && v <= hi'
    ensures (n + 1) * lo' <= sum + v <= (n + 1) * hi'
  {
    MulMono(n, lo', lo);
    MulMono(n, hi, hi');
    assert (n + 1) * lo' == n * lo' + lo';
    assert (n + 1) * hi' == n * hi' + hi';
  }

  lemma ObserveKeepsCoherent(h: Histogram, v: nat)
    requires Coherent(h) && v > 0 && h.count + 1 < U32 && h.sum + v < U64
    ensures Coherent(Observe(h, v, 1))
  {
    if h.count > 0 {
      BoundsExtend(h.count, h.min, h.max, h.sum, v, Min(h.min, v), Max(h.max, v));
    }
  }

  lemma MulMono(n: nat, a: nat, b: nat)
    requires a <= b
    ensures n * a <= n * b
  {
  }

  /** A single measurement is coherent by itself exactly when it is clean. */
  lemma FirstMeasurement(c: Connect)
    requires c.successes > 0 && HasRoom(EMPTY_HISTOGRAM, c)
    ensures Coherent(Observe(EMPTY_HISTOGRAM, c.us, c.successes)) <==> Clean(c)
  {
    if c.successes > 1 && c.us > 0 {
      MulMono(c.us, 2, c.successes);
    }
  }

  /** Exactly the clean measurements keep every coherent window coherent. */
  lemma MeasurementKeepsCoherentIff(c: Connect)
    requires c.successes > 0 && HasRoom(EMPTY_HISTOGRAM, c)
    ensures (forall h :: Coherent(h) && HasRoom(h, c) ==> Coherent(Observe(h, c.us, c.successes)))
       <==> Clean(c)
  {
    FirstMeasurement(c);
    if Clean(c) {
      forall h | Coherent(h) && HasRoom(h, c) ensures Coherent(Observe(h, c.us, c.successes)) {
        ObserveKeepsCoherent(h, c.us);
      }
    } else {
      assert Coherent(EMPTY_HISTOGRAM);
    }
  }

  function Times(cs: seq<Connect>): (xs: Samples)
    ensures |xs| == |cs| && forall i :: 0 <= i < |cs| ==> xs[i] == cs[i].us
  {
    seq(|cs|, i requires 0 <= i < |cs| => cs[i].us)
  }

  /** A window of clean measurements gives the plain histogram of the connect times, so it is exact
      and coherent. */
  lemma {:induction false} CleanConnectsAreSamples(cs: seq<Connect>)
    requires forall i :: 0 <= i < |cs| ==> Clean(cs[i])
    ensures ConnectHistogram(cs) == HistogramOf(Times(cs))
  {
    if cs != [] {
      var n := |cs| - 1;
      CleanConnectsAreSamples(cs[..n]);
      assert Times(cs)[..n] == Times(cs[..n]);
    }
  }

  // ---------------------------------------------------------------------------------------------
  // The histograms of a flow
  // ---------------------------------------------------------------------------------------------

  /** A flow's statistics after a sequence of socket deltas. */
  function FlowOfSocks(ss: seq<SockStats>): NetworkStats {
    if ss == [] then NO_TRAFFIC else AddSock(FlowOfSocks(ss[..|ss| - 1]), ss[|ss| - 1])
  }

  /** The RTTs measured in the period: at most one per delta that saw an RTT event. */
  function RttSamples(ss: seq<SockStats>, smoothed: bool): Samples {
    if ss == [] then []
    else
      var init, s := RttSamples(ss[..|ss| - 1], smoothed), ss[|ss| - 1];
      var v := if smoothed then s.rttSmoothedUs else s.rttLatestUs;
      if s.rttCount > 0 && v > 0 then init + [v] else init
  }

  function Connects(ss: seq<SockStats>): seq<Connect> {
    if ss == [] then []
    else
      var init, s := Connects(ss[..|ss| - 1]), ss[|ss| - 1];
      match ConnectUs(s)
      case Some(us) => if s.connectSuccesses > 0 then init + [Connect(us, s.connectSuccesses)] else init
      case None => init
  }

  lemma ObserveExtends(xs: Samples, v: nat)
    ensures HistogramOf(xs + [v]) == Observe(HistogramOf(xs), v, 1)
  {
    assert (xs + [v])[..|xs|] == xs;
  }

  lemma ConnectExtends(cs: seq<Connect>, c: Connect)
    ensures ConnectHistogram(cs + [c]) == Observe(ConnectHistogram(cs), c.us, c.successes)
  {
    assert (cs + [c])[..|cs|] == cs;
  }

  /** A flow's histograms are those of the measurements in the deltas folded into it. */
  lemma {:induction false} FlowHistograms(ss: seq<SockStats>)
    ensures FlowOfSocks(ss).rttUs == HistogramOf(RttSamples(ss, false))
    ensures FlowOfSocks(ss).rttSmoothedUs == HistogramOf(RttSamples(ss, true))
    ensures FlowOfSocks(ss).connectUs == ConnectHistogram(Connects(ss))
  {
    if ss != [] {
      var init, s := ss[..|ss| - 1], ss[|ss| - 1];
      FlowHistograms(init);
      AddSockTimings(FlowOfSocks(init), s);
      ObserveExtends(RttSamples(init, false), s.rttLatestUs);
      ObserveExtends(RttSamples(init, true), s.rttSmoothedUs);
      if ConnectUs(s).Some? {
        ConnectExtends(Connects(init), Connect(ConnectUs(s).value, s.connectSuccesses));
      }
    }
  }

  /** Where every delta that carries a connect time stands for one success and a time not truncated
      to zero, a flow's connect histogram is exact and coherent too. */
  lemma FlowConnectHistogramIsCoherent(ss: seq<SockStats>)
    requires |ss| < U32
    requires forall i :: 0 <= i < |ss| && ss[i].connectSuccesses > 0 && ConnectUs(ss[i]).Some?
               ==> Clean(Connect(ConnectUs(ss[i]).value, ss[i].connectSuccesses))
    ensures Exact(FlowOfSocks(ss).connectUs, Times(Connects(ss))) && Coherent(FlowOfSocks(ss).connectUs)
  {
    FlowHistograms(ss);
    ConnectsClean(ss);
    CleanConnectsAreSamples(Connects(ss));
    HistogramIsExact(Times(Connects(ss)));
    HistogramIsCoherent(Times(Connects(ss)));
  }

  lemma {:induction false} ConnectsClean(ss: seq<SockStats>)
    requires forall i :: 0 <= i < |ss| && ss[i].connectSuccesses > 0 && ConnectUs(ss[i]).Some?
               ==> Clean(Connect(ConnectUs(ss[i]).value, ss[i].connectSuccesses))
    ensures |Connects(ss)| <= |ss|
    ensures forall i :: 0 <= i < |Connects(ss)| ==> Clean(Connects(ss)[i]) && Connects(ss)[i].us < U32
  {
    if ss != [] {
      var n := |ss| - 1;
      assert forall i :: 0 <= i < n ==> ss[..n][i] == ss[i];
      ConnectsClean(ss[..n]);
    }
  }

  lemma OneDelta(s: SockStats)
    requires s.connectSuccesses > 0 && ConnectUs(s).Some?
    ensures FlowOfSocks([s]).connectUs == Observe(EMPTY_HISTOGRAM, ConnectUs(s).value, s.connectSuccesses)
  {
    assert [s][..0] == [];
    AddSockTimings(NO_TRAFFIC, s);
  }

  // --- Over several cycles ---

  /** One aggregation: the cache it sees, the deltas, and the order they are taken in. */
  datatype Round = Round(cache: Cache, deltas: Stream, order: seq<SockKey>)

  ghost predicate ProperRound(r: Round) {
    forall i :: 0 <= i < |r.order| ==> r.order[i] in r.deltas && r.order[i] in r.cache
  }

  /** The flows after several aggregations, none of them taken meanwhile. */
  function FlowsAfter(rounds: seq<Round>): FlowTable
    requires forall i :: 0 <= i < |rounds| ==> ProperRound(rounds[i])
  {
    if rounds == [] then map[]
    else
      var r := rounds[|rounds| - 1];
      assert ProperRound(r);
      FlowFold(ClearAllLevels(FlowsAfter(rounds[..|rounds| - 1])), r.cache, r.deltas, r.order)
  }

  /** The deltas of one aggregation that belong to a flow, in order. */
  function DeltasTo(r: Round, order: seq<SockKey>, p: FlowProperties): seq<SockStats>
    requires forall i :: 0 <= i < |order| ==> order[i] in r.deltas && order[i] in r.cache
  {
    if order == [] then []
    else
      var init, k := DeltasTo(r, order[..|order| - 1], p), order[|order| - 1];
      if GoesTo(r.cache[k], p) then init + [r.deltas[k].stats] else init
  }

  /** All deltas that belong to a flow since it is in the table. */
  function AllDeltasTo(rounds: seq<Round>, p: FlowProperties): seq<SockStats>
    requires forall i :: 0 <= i < |rounds| ==> ProperRound(rounds[i])
  {
    if rounds == [] || p !in FlowsAfter(rounds) then []
    else
      var r := rounds[|rounds| - 1];
      assert ProperRound(r);
      AllDeltasTo(rounds[..|rounds| - 1], p) + DeltasTo(r, r.order, p)
  }

  predicate SameTimings(a: NetworkStats, b: NetworkStats) {
    a.connectUs == b.connectUs && a.rttUs == b.rttUs && a.rttSmoothedUs == b.rttSmoothedUs
  }

  lemma TimingsStep(a: NetworkStats, b: NetworkStats, w: SockWrapper, s: SockStats)
    requires SameTimings(a, b)
    ensures SameTimings(AddToFlow(a, w, s), AddSock(b, s))
  {
    AddSockTimings(a, s);
    AddSockTimings(b, s);
  }

  lemma FlowOneMore(ss: seq<SockStats>, s: SockStats)
    ensures FlowOfSocks(ss + [s]) == AddSock(FlowOfSocks(ss), s)
  {
    assert (ss + [s])[..|ss|] == ss;
  }

  lemma {:induction false} OwnFoldTimings(n: NetworkStats, ss: seq<SockStats>, r: Round, order: seq<SockKey>,
                                          p: FlowProperties)
    requires forall i :: 0 <= i < |order| ==> order[i] in r.deltas && order[i] in r.cache
    requires SameTimings(n, FlowOfSocks(ss))
    ensures SameTimings(OwnFold(n, r.cache, r.deltas, order, p), FlowOfSocks(ss + DeltasTo(r, order, p)))
  {
    if order == [] {
      assert ss + DeltasTo(r, order, p) == ss;
    } else {
      var init, k := order[..|order| - 1], order[|order| - 1];
      OwnFoldTimings(n, ss, r, init, p);
      if GoesTo(r.cache[k], p) {
        var all, s := ss + DeltasTo(r, init, p), r.deltas[k].stats;
        assert ss + DeltasTo(r, order, p) == all + [s];
        FlowOneMore(all, s);
        TimingsStep(OwnFold(n, r.cache, r.deltas, init, p), FlowOfSocks(all), r.cache[k], s);
      }
    }
  }

  lemma ClearKeepsTimings(flows: FlowTable, p: FlowProperties)
    ensures SameTimings(FlowAt(ClearAllLevels(flows), p), FlowAt(flows, p))
  {
  }

  lemma {:induction false} FlowsStay(rounds: seq<Round>, p: FlowProperties)
    requires rounds != [] && forall i :: 0 <= i < |rounds| ==> ProperRound(rounds[i])
    ensures p in FlowsAfter(rounds[..|rounds| - 1]) ==> p in FlowsAfter(rounds)
  {
    var r, start := rounds[|rounds| - 1], ClearAllLevels(FlowsAfter(rounds[..|rounds| - 1]));
    assert ProperRound(r);
    FlowIsOwnFold(start, r.cache, r.deltas, r.order, p);
  }

  lemma {:induction false} TimingsOverCycles(rounds: seq<Round>, p: FlowProperties)
    requires forall i :: 0 <= i < |rounds| ==> ProperRound(rounds[i])
    ensures SameTimings(FlowAt(FlowsAfter(rounds), p), FlowOfSocks(AllDeltasTo(rounds, p)))
  {
    if rounds != [] {
      var init, r := rounds[..|rounds| - 1], rounds[|rounds| - 1];
      assert ProperRound(r);
      TimingsOverCycles(init, p);
      FlowsStay(rounds, p);
      var before := FlowsAfter(init);
      ClearKeepsTimings(before, p);
      FlowIsOwnFold(ClearAllLevels(before), r.cache, r.deltas, r.order, p);
      if p in FlowsAfter(rounds) {
        OwnFoldTimings(FlowAt(ClearAllLevels(before), p), AllDeltasTo(init, p), r, r.order, p);
      }
    }
  }

  /** Over any number of cycles, a flow's histograms are those of all the measurements in the deltas of the
      sockets that belong to it, since it is in the table: clearing the levels touches none of them. */
  lemma FlowHistogramsOverCycles(rounds: seq<Round>, p: FlowProperties)
    requires forall i :: 0 <= i < |rounds| ==> ProperRound(rounds[i])
    requires p in FlowsAfter(rounds)
    ensures var (n, ss) := (FlowsAfter(rounds)[p], AllDeltasTo(rounds, p));
      && n.rttUs == HistogramOf(RttSamples(ss, false)) && n.rttSmoothedUs == HistogramOf(RttSamples(ss, true))
      && n.connectUs == ConnectHistogram(Connects(ss))
  {
    TimingsOverCycles(rounds, p);
    FlowHistograms(AllDeltasTo(rounds, p));
  }

  // --- Where the condition fails, from events on ---

  /** The delta of a socket's first read, all its events so far being on one core. */
  function FirstDelta(tr: seq<Event>, cpu: nat): SockStats {
    Delta(None, AggSockStats(Merge(Sharding.Shards(tr, [cpu]), 0), [cpu])).stats
  }

  lemma AddToNothing(x: SockStats)
    ensures AddFrom(DEFAULT, x, 0) == x
  {
    assert DEFAULT.flags + x.flags == x.flags;
  }

  lemma MergeOfOne(x: SockStats)
    ensures Merge([x], 0) == x
  {
    assert [x][..0] == [];
    AddToNothing(x);
  }

  lemma FirstDeltaIsShard(tr: seq<Event>, cpu: nat)
    ensures FirstDelta(tr, cpu) == Sharding.Shard(tr, cpu)
  {
    assert Sharding.Shards(tr, [cpu]) == [Sharding.Shard(tr, cpu)];
    MergeOfOne(Sharding.Shard(tr, cpu));
  }

  predicate IsConnect(e: Event) { e.op.TcpConnect? && e.nowUs > 0 }

  /** The callback of an active connection that is established. */
  predicate IsEstablish(e: Event, cpu: nat) {
    e.op.StateCb? && e.arg0 == BPF_TCP_SYN_SENT && e.arg1 == BPF_TCP_ESTABLISHED && e.cpu == cpu
  }

  lemma Connected(c: Event)
    requires IsConnect(c)
    ensures var s := Sharding.Shard([c], c.cpu); s.connectStartUs == c.nowUs && s.connectSuccesses == 0
  {
    Sharding.ShardOneMore([], c, c.cpu);
    assert [] + [c] == [c];
  }

  lemma Establishes(tr: seq<Event>, e: Event, cpu: nat)
    requires IsEstablish(e, cpu)
    ensures var (before, after) := (Sharding.Shard(tr, cpu), Sharding.Shard(tr + [e], cpu));
      && after.connectStartUs == before.connectStartUs && after.connectEndUs == e.nowUs
      && after.connectSuccesses == WrapAdd(before.connectSuccesses, 1, U8)
  {
    Sharding.ShardOneMore(tr, e, cpu);
  }

  /** The condition fails in two ways. A socket that is established twice between two reads: the count is
      two, the sum one time. */
  lemma TwoSuccessesAreIncoherent(c: Event, e: Event, e': Event)
    requires IsConnect(c) && IsEstablish(e, c.cpu) && IsEstablish(e', c.cpu) && e'.nowUs == c.nowUs + 10
    ensures var h := FlowOfSocks([FirstDelta([c, e, e'], c.cpu)]).connectUs;
      h.count == 2 && h.min == 10 && h.sum == 10 && h.count * h.min > h.sum && !Coherent(h)
  {
    var cpu := c.cpu;
    Connected(c);
    assert [c] + [e] == [c, e] && [c, e] + [e'] == [c, e, e'];
    Establishes([c], e, cpu);
    Establishes([c, e], e', cpu);
    FirstDeltaIsShard([c, e, e'], cpu);
    OneDelta(FirstDelta([c, e, e'], cpu));
  }

  /** A connect that took 2^32 microseconds: truncated to 32 bits its time is zero, which is counted
      and leaves the minimum unset. */
  lemma TruncatedConnectIsIncoherent(c: Event, e: Event)
    requires IsConnect(c) && IsEstablish(e, c.cpu) && e.nowUs == c.nowUs + U32
    ensures var h := FlowOfSocks([FirstDelta([c, e], c.cpu)]).connectUs;
      h.count == 1 && h.min == 0 && !Coherent(h)
  {
    Connected(c);
    assert [c] + [e] == [c, e];
    Establishes([c], e, c.cpu);
    FirstDeltaIsShard([c, e], c.cpu);
    OneDelta(FirstDelta([c, e], c.cpu));
  }

  lemma AddSockTimings(n: NetworkStats, s: SockStats)
    ensures AddSock(n, s).rttUs == AddTimings(n, s).rttUs
    ensures AddSock(n, s).rttSmoothedUs == AddTimings(n, s).rttSmoothedUs
    ensures AddSock(n, s).connectUs == AddTimings(n, s).connectUs
  {
  }

  lemma {:induction false} RttSamplesProper(ss: seq<SockStats>, smoothed: bool)
    requires |ss| < U32
    requires forall i :: 0 <= i < |ss| ==> ss[i].rttLatestUs < U32 && ss[i].rttSmoothedUs < U32
    ensures |RttSamples(ss, smoothed)| <= |ss| && Proper(RttSamples(ss, smoothed))
  {
    if ss != [] {
      RttSamplesProper(ss[..|ss| - 1], smoothed);
    }
  }

  /** Hence both RTT histograms of every flow are exact and coherent, below 2^32 deltas. */
  lemma FlowRttHistogramsAreCoherent(ss: seq<SockStats>)
    requires |ss| < U32
    requires forall i :: 0 <= i < |ss| ==> ss[i].rttLatestUs < U32 && ss[i].rttSmoothedUs < U32
    ensures Exact(FlowOfSocks(ss).rttUs, RttSamples(ss, false))
    ensures Exact(FlowOfSocks(ss).rttSmoothedUs, RttSamples(ss, true))
    ensures Coherent(FlowOfSocks(ss).rttUs) && Coherent(FlowOfSocks(ss).rttSmoothedUs)
  {
    FlowHistograms(ss);
    RttSamplesProper(ss, false);
    RttSamplesProper(ss, true);
    HistogramIsExact(RttSamples(ss, false));
    HistogramIsExact(RttSamples(ss, true));
    HistogramIsCoherent(RttSamples(ss, false));
    HistogramIsCoherent(RttSamples(ss, true));
  }
}
