/** From kernel events to emitted deltas, over whole runs: what the audit books and what the event logs
    say, put together. */
module Conservation {
  import opened Arith
  import opened SockStatsModel
  import opened SockContextModel
  import opened SockOps
  import opened SockCacheModel
  import opened Flows
  import opened NatModel
  import opened Pipeline
  import opened Audit
  import opened Levels
  import EndToEnd
  import Sharding

  // ---------------------------------------------------------------------------------------------
  // Cached counters are the merge of the map's shards
  // ---------------------------------------------------------------------------------------------

  ghost predicate NoCounts(s: SockStats) { forall f :: Ctr(s, f) == 0 }

  /** A cached socket without cores was never read; a socket just read has a core; and what is cached
      fits its width, since what was read did. */
  ghost predicate CoresMeanCounts(cache: Cache, stream: Stream) {
    && (forall k :: k in cache ==> InRange(cache[k].agg.stats))
    && (forall k :: k in cache && cache[k].agg.cpus == [] ==> NoCounts(cache[k].agg.stats))
    && (forall k :: k in stream ==> stream[k].cpus != [])
  }

  lemma CoresMeanCountsAbsorb(cache: Cache, stream: Stream, maxSocks: nat, j: SockKey, c: SockContext, nowUs: nat)
    requires CoresMeanCounts(cache, stream)
    ensures CoresMeanCounts(AddContextTo(cache, maxSocks, j, c, nowUs), stream)
  {
    var cache' := AddContextTo(cache, maxSocks, j, c, nowUs);
    forall k, f | k in cache'
      ensures Ctr(cache'[k].agg.stats, f) < Width(f)
      ensures cache'[k].agg.cpus == [] ==> Ctr(cache'[k].agg.stats, f) == 0
    {
      AbsorbKeepsLevels(cache, maxSocks, j, c, nowUs, k, Counting(f));
    }
  }

  lemma CoresMeanCountsRead(cache: Cache, stream: Stream, key: CpuSockKey, s: SockStats)
    requires CoresMeanCounts(cache, stream)
    ensures CoresMeanCounts(cache, ReadInto(stream, cache, key, s))
  {
  }

  lemma CoresMeanCountsProcess(s: Sys, ring: Ring, order: seq<SockKey>)
    requires CoresMeanCounts(s.cache, s.stream) && ring.Valid() && CacheOk(s.cache, s.bpf.stats)
    requires StreamInRange(s.stream) && forall i :: 0 <= i < |order| ==> order[i] in s.stream
    ensures CoresMeanCounts(DoProcess(s, ring, order).cache, map[])
  {
    var t := DoProcess(s, ring, order);
    forall k | k in t.cache
      ensures InRange(t.cache[k].agg.stats)
      ensures t.cache[k].agg.cpus == [] ==> NoCounts(t.cache[k].agg.stats)
    {
      ProcessedEntry(s.cache, s.stream, StalenessUs(s), ring, k);
    }
  }

  lemma CoresMeanCountsStep(s: Sys, step: Step)
    requires Inv(s) && CoresMeanCounts(s.cache, s.stream) && Enabled(s, step)
    ensures CoresMeanCounts(Do(s, step).cache, Do(s, step).stream)
  {
    match step {
      case Absorb(key) =>
        CoresMeanCountsAbsorb(s.cache, s.stream, s.maxSocks, key.sock, s.bpf.props[key],
                              SatSub(s.nowUs, s.notrackUs / 2));
      case Read(key) => CoresMeanCountsRead(s.cache, s.stream, key, s.bpf.stats[key]);
      case Process(ring, order) => CoresMeanCountsProcess(s, ring, order);
      case _ => OthersKeepCache(s, step);
    }
  }

  lemma OthersKeepCache(s: Sys, step: Step)
    requires Enabled(s, step) && !step.Absorb? && !step.Read? && !step.Process?
    ensures Do(s, step).cache == s.cache && Do(s, step).stream == s.stream
  {
    match step {
      case BpfEvent(_) =>
      case Begin(_) =>
      case StopAbsorbing =>
      case Drop(_) =>
      case StartReading =>
      case Remove(_) =>
      case Finish =>
      case TakeFlows =>
    }
  }

  lemma {:induction false} CoresMeanCountsAlongRun(s: Sys, steps: seq<Step>)
    requires Initial(s) && Run(s, steps).Some?
    ensures CoresMeanCounts(Run(s, steps).value.cache, Run(s, steps).value.stream)
  {
    if steps != [] {
      var init := steps[..|steps| - 1];
      RunKeepsInv(s, init);
      CoresMeanCountsAlongRun(s, init);
      CoresMeanCountsStep(Run(s, init).value, steps[|steps| - 1]);
    }
  }

  /** The counters are those of the merged shards of the listed cores. */
  ghost predicate CountersOf(k: SockKey, agg: AggSockStats, stats: map<CpuSockKey, SockStats>) {
    && (forall c :: c in agg.cpus ==> CpuSockKey(c, k) in stats)
    && forall f :: Ctr(agg.stats, f) == Ctr(Merge(ShardsOf(stats, k, agg.cpus), 0), f)
  }

  ghost predicate CacheCounts(cache: Cache, stats: map<CpuSockKey, SockStats>) {
    forall k :: k in cache ==> CountersOf(k, cache[k].agg, stats)
  }

  /** While undisturbed, after processing, cached counters are those of the map. */
  ghost predicate QuietCounts(s: Sys) {
    s.quiet && (s.phase.Idle? || s.phase.Removing?) ==> CacheCounts(s.cache, s.bpf.stats)
  }

  lemma MergedHasCounters(k: SockKey, agg: AggSockStats, cache: Cache, stats: map<CpuSockKey, SockStats>)
    requires IsMerge(k, agg, cache, stats)
    ensures CountersOf(k, agg, stats)
  {
    var shards := ShardsOf(stats, k, agg.cpus);
    forall f ensures Ctr(agg.stats, f) == Ctr(Merge(shards, 0), f) {
      MergeCounter(shards, LastTouchedOf(cache, k), f);
      MergeCounter(shards, 0, f);
    }
  }

  lemma NothingHasNoCounters(k: SockKey, agg: AggSockStats, stats: map<CpuSockKey, SockStats>)
    requires agg.cpus == [] && NoCounts(agg.stats)
    ensures CountersOf(k, agg, stats)
  {
    assert ShardsOf(stats, k, agg.cpus) == [];
    assert NoCounts(DEFAULT);
  }

  /** A complete undisturbed read finds every cached socket that has cores. */
  lemma CoresAreRead(s: Sys, k: SockKey)
    requires QuietReading(s) && s.toRead == {} && CacheOk(s.cache, s.bpf.stats)
    requires k in s.cache && s.cache[k].agg.cpus != []
    ensures k in s.stream
  {
    var cpus := s.cache[k].agg.cpus;
    assert CpusOk(k, cpus, s.bpf.stats) && cpus[0] in cpus;
    assert WasRead(s.stream, CpuSockKey(cpus[0], k));
  }

  lemma CountsProcess(s: Sys, ring: Ring, order: seq<SockKey>)
    requires QuietReading(s) && s.toRead == {} && ring.Valid()
    requires CacheOk(s.cache, s.bpf.stats) && CoresMeanCounts(s.cache, s.stream)
    requires forall i :: 0 <= i < |order| ==> order[i] in s.stream
    ensures CacheCounts(DoProcess(s, ring, order).cache, s.bpf.stats)
  {
    var t := DoProcess(s, ring, order);
    forall k | k in t.cache ensures CountersOf(k, t.cache[k].agg, s.bpf.stats) {
      ProcessedEntry(s.cache, s.stream, StalenessUs(s), ring, k);
      if k in s.cache && s.cache[k].agg.cpus != [] {
        CoresAreRead(s, k);
      }
      if k in s.stream {
        MergedHasCounters(k, s.stream[k], s.cache, s.bpf.stats);
      } else {
        NothingHasNoCounters(k, s.cache[k].agg, s.bpf.stats);
      }
    }
  }

  lemma CountsRemove(cache: Cache, stats: map<CpuSockKey, SockStats>, key: CpuSockKey)
    requires CacheCounts(cache, stats) && key.sock !in cache
    ensures CacheCounts(cache, stats - {key})
  {
    forall k | k in cache ensures CountersOf(k, cache[k].agg, stats - {key}) {
      assert CountersOf(k, cache[k].agg, stats);
      assert ShardsOf(stats - {key}, k, cache[k].agg.cpus) == ShardsOf(stats, k, cache[k].agg.cpus);
    }
  }

  lemma CountsRemoveStep(s: Sys, k: SockKey)
    requires CacheCounts(s.cache, s.bpf.stats) && RemovalOk(s.toRemove, s.cache, s.bpf.stats) && k in s.toRemove
    ensures DoRemove(s, k).cache == s.cache && CacheCounts(s.cache, DoRemove(s, k).bpf.stats)
  {
    if s.toRemove[k] != [] {
      CountsRemove(s.cache, s.bpf.stats, CpuSockKey(s.toRemove[k][0], k));
    }
  }

  lemma QuietCountsStep(s: Sys, step: Step)
    requires Inv(s) && QuietInv(s) && QuietCounts(s) && CoresMeanCounts(s.cache, s.stream) && Enabled(s, step)
    ensures QuietCounts(Do(s, step))
  {
    match step {
      case Process(ring, order) =>
        if s.quiet {
          CountsProcess(s, ring, order);
        }
        assert DoProcess(s, ring, order).bpf == s.bpf;
      case Remove(k) =>
        if s.quiet {
          CountsRemoveStep(s, k);
        }
      case _ => QuietCountsOther(s, step);
    }
  }

  lemma QuietCountsOther(s: Sys, step: Step)
    requires QuietCounts(s) && Enabled(s, step) && !step.Process? && !step.Remove?
    ensures QuietCounts(Do(s, step))
  {
    match step {
      case BpfEvent(_) =>
      case Begin(_) =>
      case Absorb(key) => assert DoAbsorb(s, key).phase.Absorbing? || DoAbsorb(s, key).phase.Dropping?;
      case StopAbsorbing =>
      case Drop(key) => assert DoDrop(s, key).phase.Dropping?;
      case StartReading =>
      case Read(key) => assert DoRead(s, key).phase.Reading?;
      case Finish =>
      case TakeFlows =>
    }
  }

  lemma {:induction false} QuietCountsAlongRun(s: Sys, steps: seq<Step>)
    requires Initial(s) && Run(s, steps).Some?
    ensures QuietCounts(Run(s, steps).value)
  {
    if steps != [] {
      var init := steps[..|steps| - 1];
      RunKeepsInv(s, init);
      RunKeepsQuietInv(s, init);
      CoresMeanCountsAlongRun(s, init);
      QuietCountsAlongRun(s, init);
      QuietCountsStep(Run(s, init).value, steps[|steps| - 1]);
    }
  }

  // ---------------------------------------------------------------------------------------------
  // From events to emitted deltas
  // ---------------------------------------------------------------------------------------------

  /** Merged shards of a log against one entry fed the log. */
  lemma MergedIsSingle(tr: seq<Event>, cpus: seq<nat>, f: Counter)
    requires NoDup(cpus) && forall i :: 0 <= i < |tr| ==> IsStatsOp(tr[i].op) && tr[i].cpu in cpus
    requires Kernel(f) ==> Sharding.Monotone(tr)
    ensures Congruent(Ctr(Merge(Sharding.Shards(tr, cpus), 0), f), Ctr(Sharding.Single(tr), f), Width(f))
    ensures Ctr(Merge(Sharding.Shards(tr, cpus), 0), f) < Width(f)
        ==> Ctr(Merge(Sharding.Shards(tr, cpus), 0), f) == Ctr(Sharding.Single(tr), f)
  {
    var shards, single := Sharding.Shards(tr, cpus), Ctr(Sharding.Single(tr), f);
    if Kernel(f) {
      Sharding.MergedRegisterIsSingle(tr, cpus, 0, Sharding.OfKernel(f));
      CongruentRefl(single, Width(f));
    } else {
      MergeCounter(shards, 0, f);
      Sharding.ShardSumCongruent(tr, cpus, f);
      CongruentSym(Sharding.Total(tr, f), SumOf(shards, f), Width(f));
      CongruentTrans(SumOf(shards, f), Sharding.Total(tr, f), single, Width(f));
      Sharding.MergedCounterIsSingleIff(tr, cpus, 0, f);
    }
  }

  /** After an undisturbed cycle the cached counters are those of one entry fed the socket's log. */
  lemma CachedIsSingle(t: Sys, k: SockKey, tr: seq<Event>, f: Counter)
    requires InStep(t) && CacheCounts(t.cache, t.bpf.stats) && k in t.cache && InRange(t.cache[k].agg.stats)
    requires EndToEnd.LogOk(t.bpf.stats, k, tr) && (Kernel(f) ==> Sharding.Monotone(tr))
    ensures Ctr(t.cache[k].agg.stats, f) == Ctr(Sharding.Single(tr), f)
  {
    var cpus := t.cache[k].agg.cpus;
    assert ExactCpus(k, cpus, t.bpf.stats) && CountersOf(k, t.cache[k].agg, t.bpf.stats);
    assert ShardsOf(t.bpf.stats, k, cpus) == Sharding.Shards(tr, cpus);
    MergedIsSingle(tr, cpus, f);
    assert Ctr(t.cache[k].agg.stats, f) < Width(f);
  }

  /** Over every run, after an undisturbed cycle, each cached counter is that of one entry fed the socket's
      whole event log; the kernel's own counters provided these and time do not run backwards. */
  lemma CachedFollowsLog(s: Sys, steps: seq<Step>, k: SockKey, f: Counter)
    requires Initial(s) && Run(s, steps).Some?
    requires Kernel(f) ==> Sharding.Monotone(EndToEnd.LogOf(s, steps, k))
    ensures var t := Run(s, steps).value;
      t.phase.Idle? && t.quiet && k in t.cache ==>
        Ctr(t.cache[k].agg.stats, f) == Ctr(Sharding.Single(EndToEnd.LogOf(s, steps, k)), f)
  {
    var t := Run(s, steps).value;
    if t.phase.Idle? && t.quiet && k in t.cache {
      RunKeepsInv(s, steps);
      RunKeepsQuietInv(s, steps);
      QuietCountsAlongRun(s, steps);
      CoresMeanCountsAlongRun(s, steps);
      EndToEnd.LogAlongRun(s, steps, k);
      CachedIsSingle(t, k, EndToEnd.LogOf(s, steps, k), f);
    }
  }

  /** Events reach the books. Over every run, after an undisturbed cycle, what was emitted for a cached
      socket is, modulo the counter's width, what one entry fed its whole event log would hold: with no
      condition for the counters accumulated per core, and for the kernel's own counters if these and
      time do not run backwards. */
  lemma EmittedIsSingleStore(s: Sys, steps: seq<Step>, k: SockKey, f: Counter)
    requires Initial(s) && Run(s, steps).Some?
    requires Kernel(f) ==> Sharding.Monotone(EndToEnd.LogOf(s, steps, k))
    ensures var (t, a) := (Run(s, steps).value, BooksOf(OfCounter(f), s, steps));
      t.phase.Idle? && t.quiet && k in t.cache ==>
        && k in a.current
        && Congruent(LifeOf(a, k).emitted, Ctr(Sharding.Single(EndToEnd.LogOf(s, steps, k)), f), Width(f))
  {
    ConservationLedger(f, s, steps);
    CachedFollowsLog(s, steps, k, f);
  }

  // ---------------------------------------------------------------------------------------------
  // Counters are emitted exactly
  // ---------------------------------------------------------------------------------------------

  predicate IsEventOf(step: Step, k: SockKey) { step.BpfEvent? && step.e.sock == k && IsStatsOp(step.e.op) }

  /** The event reports the kernel counter of that socket. */
  predicate Reports(step: Step, k: SockKey, f: Counter) {
    IsEventOf(step, k) && Sharding.Writes(step.e, Sharding.OfKernel(f))
  }

  /** What the counter can have reached after the step, if it had reached `water` at most before. */
  function Raised(water: nat, step: Step, k: SockKey, f: Counter): nat {
    if !IsEventOf(step, k) then water
    else if !Kernel(f) then water + Sharding.Amount(step.e, f)
    else if Reports(step, k, f) then Max(water, Sharding.Written(step.e, Sharding.OfKernel(f)))
    else water
  }

  /** The greatest value of a kernel counter reported so far; the total of an accumulated one. */
  function HighWater(steps: seq<Step>, k: SockKey, f: Counter): nat {
    if steps == [] then 0 else Raised(HighWater(steps[..|steps| - 1], k, f), steps[|steps| - 1], k, f)
  }

  /** The socket's counter goes forward: a kernel counter is never reported below an earlier report, an
      accumulated one does not outgrow its width. */
  ghost predicate Forward(steps: seq<Step>, k: SockKey, f: Counter) {
    forall n :: 0 <= n < |steps| ==> StepForward(HighWater(steps[..n], k, f), steps[n], k, f)
  }

  predicate StepForward(water: nat, step: Step, k: SockKey, f: Counter) {
    if Kernel(f) then Reports(step, k, f) ==> water <= Sharding.Written(step.e, Sharding.OfKernel(f))
    else Raised(water, step, k, f) < Width(f)
  }

  lemma ForwardSplit(steps: seq<Step>, k: SockKey, f: Counter)
    requires Forward(steps, k, f) && steps != []
    ensures var (init, last) := (steps[..|steps| - 1], steps[|steps| - 1]);
      Forward(init, k, f) && StepForward(HighWater(init, k, f), last, k, f)
  {
    var init := steps[..|steps| - 1];
    forall n | 0 <= n < |init| ensures StepForward(HighWater(init[..n], k, f), init[n], k, f) {
      assert init[..n] == steps[..n] && init[n] == steps[n];
    }
  }

  /** No entry of the socket is above that. */
  ghost predicate BelowWater(stats: map<CpuSockKey, SockStats>, k: SockKey, f: Counter, water: nat) {
    forall c :: CpuSockKey(c, k) in stats ==> Ctr(stats[CpuSockKey(c, k)], f) <= water
  }

  lemma UpdateRaises(e: Event, entry: SockStats, k: SockKey, f: Counter, water: nat)
    requires e.sock == k && IsStatsOp(e.op) && Ctr(entry, f) <= water
    ensures Ctr(UpdateEntry(e, entry), f) <= Raised(water, BpfEvent(e), k, f)
    ensures StepForward(water, BpfEvent(e), k, f) ==> Ctr(entry, f) <= Ctr(UpdateEntry(e, entry), f)
  {
    if Kernel(f) {
      Sharding.UpdateEntryWrites(e, entry, Sharding.OfKernel(f));
    } else {
      UpdateAddsAtMost(e, entry, f);
      if StepForward(water, BpfEvent(e), k, f) {
        Sharding.UpdateEntryAddsExactly(e, entry, f);
      }
    }
  }

  lemma UpdateAddsAtMost(e: Event, entry: SockStats, f: Counter)
    requires !Kernel(f) && IsStatsOp(e.op)
    ensures Ctr(UpdateEntry(e, entry), f) <= Ctr(entry, f) + Sharding.Amount(e, f)
  {
    WrapAddAtMost(Ctr(entry, f), Sharding.Amount(e, f), Width(f));
  }

  lemma WrapAddAtMost(a: nat, b: nat, m: nat)
    requires m > 0
    ensures WrapAdd(a, b, m) <= a + b
  {
    assert a + b == ((a + b) / m) * m + (a + b) % m;
  }

  lemma EntryBelow(b: Bpf, e: Event, k: SockKey, f: Counter, water: nat)
    requires BelowWater(b.stats, k, f, water) && e.sock == k
    ensures Ctr(EntryFor(b, e), f) <= water
  {
    assert KeyOf(e) == CpuSockKey(e.cpu, k);
    NothingIsLevelZero(Counting(f));
  }

  lemma EventBelowWater(b: Bpf, e: Event, k: SockKey, f: Counter, water: nat)
    requires BelowWater(b.stats, k, f, water)
    ensures BelowWater(StatsAfter(b, e), k, f, Raised(water, BpfEvent(e), k, f))
    ensures StepForward(water, BpfEvent(e), k, f) ==> TakesNothingBack(b, e, k, Counting(f))
  {
    if e.sock == k && Outcome(b, e).Handled? {
      EntryBelow(b, e, k, f, water);
      UpdateRaises(e, EntryFor(b, e), k, f, water);
    }
  }

  lemma BelowWaterStep(s: Sys, step: Step, k: SockKey, f: Counter, water: nat)
    requires Enabled(s, step) && BelowWater(s.bpf.stats, k, f, water)
    ensures BelowWater(Do(s, step).bpf.stats, k, f, Raised(water, step, k, f))
  {
    match step {
      case BpfEvent(e) => EventBelowWater(s.bpf, e, k, f, water);
      case Remove(j) => assert DoRemove(s, j).bpf.stats.Keys <= s.bpf.stats.Keys;
      case _ => EndToEnd.OtherStepsKeepStats(s, step);
    }
  }

  lemma {:induction false} BelowWaterAlongRun(s: Sys, steps: seq<Step>, k: SockKey, f: Counter)
    requires Initial(s) && Run(s, steps).Some?
    ensures BelowWater(Run(s, steps).value.bpf.stats, k, f, HighWater(steps, k, f))
  {
    if steps != [] {
      var init := steps[..|steps| - 1];
      BelowWaterAlongRun(s, init, k, f);
      BelowWaterStep(Run(s, init).value, steps[|steps| - 1], k, f, HighWater(init, k, f));
    }
  }

  /** A counter that goes forward is not taken back in any entry. */
  lemma ForwardTakesNothingBack(s: Sys, steps: seq<Step>, k: SockKey, f: Counter)
    requires Initial(s) && Forward(steps, k, f)
    ensures NeverTakenBack(s, steps, k, Counting(f))
  {
    forall n | 0 <= n < |steps| && steps[n].BpfEvent? && Run(s, steps[..n]).Some?
      ensures TakesNothingBack(Run(s, steps[..n]).value.bpf, steps[n].e, k, Counting(f))
    {
      BelowWaterAlongRun(s, steps[..n], k, f);
      assert StepForward(HighWater(steps[..n], k, f), steps[n], k, f);
      assert steps[n] == BpfEvent(steps[n].e);
      EventBelowWater(Run(s, steps[..n]).value.bpf, steps[n].e, k, f, HighWater(steps[..n], k, f));
    }
  }

  // --- The books of it ---

  /** What was emitted for the socket is its cached counter, with no modulus. */
  ghost predicate EmittedExactly(a: Books, cache: Cache, k: SockKey, f: Counter)
    requires WellFormed(a)
  {
    k in cache ==> LifeOf(a, k).emitted == Ctr(cache[k].agg.stats, f)
  }

  lemma DeltaIsExact(prior: Option<SockWrapper>, incoming: AggSockStats, f: Counter)
    requires InRange(incoming.stats)
    requires prior.Some? ==> Ctr(prior.value.agg.stats, f) <= Ctr(incoming.stats, f)
    ensures Ctr(Delta(prior, incoming).stats, f)
         == Ctr(incoming.stats, f) - if prior.Some? then Ctr(prior.value.agg.stats, f) else 0
  {
    assert Ctr(incoming.stats, f) < Width(f);
    if prior.Some? {
      SubtractCounter(incoming.stats, prior.value.agg.stats, f);
    }
  }

  /** Everything is read, nothing overflowed, and nothing is behind the cache. */
  ghost predicate FullyRead(s: Sys, k: SockKey, f: Counter) {
    && NotBehind(s, k, Counting(f)) && s.phase.Reading? && s.toRead == {}
    && StreamInRange(s.stream) && CacheOk(s.cache, s.bpf.stats)
  }

  /** The delta of a read is the exact difference, and the cache holds the read value. */
  lemma ReadIsCachedPlusDelta(s: Sys, ring: Ring, k: SockKey, f: Counter)
    requires FullyRead(s, k, f) && ring.Valid() && (k in s.cache || k in s.stream)
    ensures var (cache, deltas) := (Processed(s.cache, s.stream, StalenessUs(s), ring), DeltasOf(s.cache, s.stream));
      && k in cache && (k in deltas <==> k in s.stream)
      && Ctr(cache[k].agg.stats, f)
         == (if k in s.cache then Ctr(s.cache[k].agg.stats, f) else 0) + if k in deltas then Ctr(deltas[k].stats, f) else 0
  {
    ProcessedEntry(s.cache, s.stream, StalenessUs(s), ring, k);
    if k in s.stream {
      assert InRange(s.stream[k].stats);
      if k in s.cache {
        CompleteReadIsNotBehind(s, k, Counting(f));
      }
      DeltaIsExact(Find(s.cache, k), s.stream[k], f);
    }
  }

  lemma EmittedProcessed(a: Books, s: Sys, ring: Ring, order: seq<SockKey>, cache: Cache, deltas: Stream,
                         k: SockKey, f: Counter)
    requires WellFormed(a) && a.current.Keys == s.cache.Keys && a.metric == OfCounter(f)
    requires EmittedExactly(a, s.cache, k, f) && FullyRead(s, k, f) && ring.Valid()
    requires cache == Processed(s.cache, s.stream, StalenessUs(s), ring) && deltas == DeltasOf(s.cache, s.stream)
    requires Visits(order, deltas.Keys)
    ensures var b := Processing(a, ClearAllLevels(s.flows), cache, deltas, order);
      WellFormed(b) && EmittedExactly(b, Kept(cache), k, f)
  {
    var start := ClearAllLevels(s.flows);
    if k in Kept(cache) {
      assert k in s.cache || k in s.stream;
      ReadIsCachedPlusDelta(s, ring, k, f);
      EmittedPosted(a, start, cache, deltas, order, k, f);
    }
    PostAllKeys(a, Postings(start, cache, deltas, order, a.metric), k);
  }

  lemma EmittedProcess(a: Books, s: Sys, ring: Ring, order: seq<SockKey>, k: SockKey, f: Counter)
    requires WellFormed(a) && a.current.Keys == s.cache.Keys && a.metric == OfCounter(f)
    requires EmittedExactly(a, s.cache, k, f) && FullyRead(s, k, f) && ring.Valid()
    requires Visits(order, s.stream.Keys)
    ensures EmittedExactly(BookProcess(a, s, ring, order),
                           Kept(Processed(s.cache, s.stream, StalenessUs(s), ring)), k, f)
  {
    var cache, deltas := Processed(s.cache, s.stream, StalenessUs(s), ring), DeltasOf(s.cache, s.stream);
    DeltasKeepKeys(s.cache, s.stream);
    EmittedProcessed(a, s, ring, order, cache, deltas, k, f);
    BookProcessIs(a, s, ring, order, cache, deltas);
  }

  lemma EmittedPosted(a: Books, flows: FlowTable, cache: Cache, deltas: Stream, order: seq<SockKey>, k: SockKey,
                      f: Counter)
    requires WellFormed(a) && a.metric == OfCounter(f) && Visits(order, deltas.Keys) && k in Kept(cache)
    requires k in a.current || k in deltas
    ensures WellFormed(Processing(a, flows, cache, deltas, order))
    ensures LifeOf(Processing(a, flows, cache, deltas, order), k).emitted
         == LifeOf(a, k).emitted + if k in deltas then Ctr(deltas[k].stats, f) else 0
  {
    var ps := Postings(flows, cache, deltas, order, a.metric);
    CyclePostings(flows, cache, deltas, order, a.metric);
    PostAllKeys(a, ps, k);
    if k in deltas {
      assert Posted(ps, k);
      var i :| 0 <= i < |ps| && ps[i].sock == k;
      PostAllTouched(a, ps, i);
      assert PostingIs(ps[i], cache, k, deltas[k].stats, a.metric);
    } else {
      assert !Posted(ps, k);
      PostAllUntouched(a, ps, k);
    }
  }

  lemma AbsorbKeepsEmitted(a: Books, s: Sys, key: CpuSockKey, k: SockKey)
    requires WellFormed(a)
    ensures LifeOf(BookAbsorb(a, s, key), k).emitted == LifeOf(a, k).emitted
  {
    SetLifeEffect(a, key.sock, LifeOf(a, key.sock).(hadContext := true));
  }

  lemma EmittedAbsorb(a: Books, s: Sys, key: CpuSockKey, k: SockKey, f: Counter)
    requires WellFormed(a) && a.current.Keys == s.cache.Keys
    requires EmittedExactly(a, s.cache, k, f) && key in s.bpf.props && s.phase.Absorbing?
    ensures EmittedExactly(BookAbsorb(a, s, key), DoAbsorb(s, key).cache, k, f)
  {
    AbsorbFields(s, key);
    AbsorbKeepsLevels(s.cache, s.maxSocks, key.sock, s.bpf.props[key], SatSub(s.nowUs, s.notrackUs / 2), k,
                      Counting(f));
    AbsorbKeepsEmitted(a, s, key, k);
  }

  lemma EmittedStep(a: Books, s: Sys, step: Step, k: SockKey, f: Counter)
    requires Inv(s) && BooksInv(a, s) && Enabled(s, step) && a.metric == OfCounter(f)
    requires EmittedExactly(a, s.cache, k, f) && NotBehind(s, k, Counting(f))
    ensures EmittedExactly(Book(a, s, step), Do(s, step).cache, k, f)
  {
    match step {
      case Absorb(key) => EmittedAbsorb(a, s, key, k, f);
      case Process(ring, order) =>
        EmittedProcess(a, s, ring, order, k, f);
        ProcessOutcome(s, ring, order, Processed(s.cache, s.stream, StalenessUs(s), ring));
      case Read(key) => assert DoRead(s, key).cache == s.cache;
      case _ =>
        OthersKeepCache(s, step);
        assert LifeOf(Book(a, s, step), k) == LifeOf(a, k);
    }
  }

  /** Over every run, events inside cycles included, and for every counter: while no event takes the
      counter back in the entry it updates, what was emitted for the cached socket is its cached counter
      exactly. No delta ever wraps around. */
  lemma {:induction false} CountersAreEmittedExactly(s: Sys, steps: seq<Step>, k: SockKey, f: Counter)
    requires Initial(s) && Run(s, steps).Some? && NeverTakenBack(s, steps, k, Counting(f))
    ensures EmittedExactly(BooksOf(OfCounter(f), s, steps), Run(s, steps).value.cache, k, f)
  {
    if steps != [] {
      var init, last := steps[..|steps| - 1], steps[|steps| - 1];
      NeverTakenBackSplit(s, steps, k, Counting(f));
      CountersAreEmittedExactly(s, init, k, f);
      BooksAlongRun(OfCounter(f), s, init);
      NotBehindAlongRun(s, init, k, Counting(f));
      EmittedStep(BooksOf(OfCounter(f), s, init), Run(s, init).value, last, k, f);
    }
  }

  /** In terms of the events alone: what was emitted is exact while a kernel counter is never reported
      below an earlier report, and an accumulated counter does not outgrow its width. */
  lemma ForwardCountersAreEmittedExactly(s: Sys, steps: seq<Step>, k: SockKey, f: Counter)
    requires Initial(s) && Run(s, steps).Some? && Forward(steps, k, f)
    ensures EmittedExactly(BooksOf(OfCounter(f), s, steps), Run(s, steps).value.cache, k, f)
  {
    ForwardTakesNothingBack(s, steps, k, f);
    CountersAreEmittedExactly(s, steps, k, f);
  }

  /** Put together, for each of the thirteen counters: after an undisturbed cycle, what was emitted for a
      cached socket is exactly what one entry fed its whole event log would hold. */
  lemma CountersEndToEnd(s: Sys, steps: seq<Step>, k: SockKey, f: Counter)
    requires Initial(s) && Run(s, steps).Some? && NeverTakenBack(s, steps, k, Counting(f))
    requires Kernel(f) ==> Sharding.Monotone(EndToEnd.LogOf(s, steps, k))
    ensures var (t, a) := (Run(s, steps).value, BooksOf(OfCounter(f), s, steps));
      t.phase.Idle? && t.quiet && k in t.cache ==>
        LifeOf(a, k).emitted == Ctr(Sharding.Single(EndToEnd.LogOf(s, steps, k)), f)
  {
    CountersAreEmittedExactly(s, steps, k, f);
    CachedFollowsLog(s, steps, k, f);
  }
}
