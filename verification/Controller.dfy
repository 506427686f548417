/** The controller's half as it runs: the aggregation cycle over the shared maps
    (nfm-controller/src/events/event_provider_ebpf.rs). Each loop iteration is one step of the state
    machine in module Pipeline, so what is proved of every run of that machine holds of this code. */
module Controller {
  import opened Arith
  import opened SockStatsModel
  import opened SockContextModel
  import opened EventCountersModel
  import opened SockOps
  import opened EbpfMapsModel
  import opened SockCacheModel
  import opened Flows
  import opened NatModel
  import opened Pipeline
  import CounterPublication
  import Sampling

  /** `steps` lead from `start` to `end`. */
  ghost predicate Leads(start: Sys, steps: seq<Step>, end: Sys) {
    Run(start, steps) == Some(end)
  }

  lemma LeadsOn(start: Sys, steps: seq<Step>, mid: Sys, step: Step)
    requires Leads(start, steps, mid) && Enabled(mid, step)
    ensures Leads(start, steps + [step], Do(mid, step))
  {
    assert (steps + [step])[..|steps|] == steps;
  }

  lemma LeadsAbsorb(start: Sys, steps: seq<Step>, s: Sys, key: CpuSockKey)
    requires Leads(start, steps, s)
    requires s.phase.Absorbing? && key in s.bpf.props && key !in s.toDrop
    ensures Leads(start, steps + [Absorb(key)], DoAbsorb(s, key))
  {
    LeadsOn(start, steps, s, Absorb(key));
  }

  /** A context is taken in, ... */
  lemma AbsorbTakes(s: Sys, key: CpuSockKey)
    requires key in s.bpf.props && !AddContextFails(s.cache, s.maxSocks, key.sock)
    ensures var cache := AddContextTo(s.cache, s.maxSocks, key.sock, s.bpf.props[key],
                                      SatSub(s.nowUs, s.notrackUs / 2));
      && cache.Keys == s.cache.Keys + {key.sock}
      && DoAbsorb(s, key) == s.(cache := cache, toAbsorb := s.toAbsorb - {key}, toDrop := s.toDrop + {key})
  {
  }

  /** ... or the cache is full and the walk stops. */
  lemma AbsorbStops(s: Sys, key: CpuSockKey)
    requires key in s.bpf.props && AddContextFails(s.cache, s.maxSocks, key.sock)
    ensures DoAbsorb(s, key) == s.(phase := Dropping, toAbsorb := {})
  {
  }

  lemma LeadsDrop(start: Sys, steps: seq<Step>, s: Sys, key: CpuSockKey)
    requires Leads(start, steps, s) && s.phase.Dropping? && key in s.toDrop
    ensures Leads(start, steps + [Drop(key)], DoDrop(s, key))
  {
    LeadsOn(start, steps, s, Drop(key));
  }

  lemma LeadsRead(start: Sys, steps: seq<Step>, s: Sys, key: CpuSockKey)
    requires Leads(start, steps, s)
    requires s.phase.Reading? && key in s.bpf.stats && !WasRead(s.stream, key)
    ensures Leads(start, steps + [Read(key)], DoRead(s, key))
  {
    LeadsOn(start, steps, s, Read(key));
  }

  lemma LeadsProcess(start: Sys, steps: seq<Step>, s: Sys, ring: Ring, order: seq<SockKey>)
    requires Leads(start, steps, s)
    requires s.phase.Reading? && s.toRead == {} && StreamInRange(s.stream)
    requires ring.Valid() && NatReady(s, ring) && Visits(order, s.stream.Keys)
    ensures Leads(start, steps + [Process(ring, order)], DoProcess(s, ring, order))
  {
    LeadsOn(start, steps, s, Process(ring, order));
  }

  /** What processing leaves, from the cache and deltas in between. */
  ghost predicate ProcessGives(s: Sys, cache: Cache, deltas: Stream, order: seq<SockKey>, t: Sys)
    requires forall i :: 0 <= i < |order| ==> order[i] in deltas
  {
    && t.bpf == s.bpf && t.cache == Kept(cache) && t.maxSocks == s.maxSocks
    && t.flows == FlowFold(ClearAllLevels(s.flows), cache, deltas, order)
    && t.notrackUs == s.notrackUs && t.evictionFailed == s.evictionFailed
    && t.phase.Removing? && t.quiet == s.quiet
    && t.toRemove == map k | k in Evicted(cache) :: cache[k].agg.cpus
  }

  lemma ProcessGivesFields(s: Sys, ring: Ring, order: seq<SockKey>, cache: Cache, deltas: Stream)
    requires ring.Valid()
    requires cache == Processed(s.cache, s.stream, StalenessUs(s), ring)
    requires deltas == DeltasOf(s.cache, s.stream)
    requires forall i :: 0 <= i < |order| ==> order[i] in deltas
    ensures ProcessGives(s, cache, deltas, order, DoProcess(s, ring, order))
  {
  }

  lemma ProcessLeads(start: Sys, steps: seq<Step>, s: Sys, ring: Ring, order: seq<SockKey>, cache: Cache,
                     deltas: Stream)
    returns (t: Sys)
    requires Leads(start, steps, s)
    requires s.phase.Reading? && s.toRead == {} && StreamInRange(s.stream)
    requires ring.Valid() && NatReady(s, ring)
    requires cache == Processed(s.cache, s.stream, StalenessUs(s), ring)
    requires deltas == DeltasOf(s.cache, s.stream) && Visits(order, deltas.Keys)
    ensures Leads(start, steps + [Process(ring, order)], t)
    ensures ProcessGives(s, cache, deltas, order, t)
  {
    assert deltas.Keys == s.stream.Keys;
    t := DoProcess(s, ring, order);
    LeadsProcess(start, steps, s, ring, order);
    ProcessGivesFields(s, ring, order, cache, deltas);
  }

  lemma LeadsRemove(start: Sys, steps: seq<Step>, s: Sys, k: SockKey)
    requires Leads(start, steps, s) && s.phase.Removing? && k in s.toRemove
    ensures Leads(start, steps + [Remove(k)], DoRemove(s, k))
  {
    LeadsOn(start, steps, s, Remove(k));
  }

  /** The three ways a removal step can go: the entry is there and the list advances, ... */
  lemma RemoveAdvances(s: Sys, k: SockKey, others: map<SockKey, seq<nat>>, cpu: nat, rest: seq<nat>)
    requires k !in others && s.toRemove == others[k := [cpu] + rest] && CpuSockKey(cpu, k) in s.bpf.stats
    ensures DoRemove(s, k) == s.(bpf := s.bpf.(stats := s.bpf.stats - {CpuSockKey(cpu, k)}),
                                 toRemove := others[k := rest])
  {
    assert ([cpu] + rest)[1..] == rest;
    RemovalStep(others, k, [cpu] + rest);
  }

  /** ... it is missing and the socket is given up, ... */
  lemma RemoveAbandons(s: Sys, k: SockKey, others: map<SockKey, seq<nat>>, cpu: nat, rest: seq<nat>)
    requires k !in others && s.toRemove == others[k := [cpu] + rest] && CpuSockKey(cpu, k) !in s.bpf.stats
    ensures DoRemove(s, k) == s.(toRemove := others, evictionFailed := s.evictionFailed + 1)
  {
    RemovalStep(others, k, [cpu] + rest);
  }

  /** ... or the list is used up. */
  lemma RemoveCompletes(s: Sys, k: SockKey, others: map<SockKey, seq<nat>>)
    requires k !in others && s.toRemove == others[k := []]
    ensures DoRemove(s, k) == s.(toRemove := others)
  {
    RemovalStep(others, k, []);
  }

  /** Whatever cores a socket's shards are read in, their sums fit: the checked additions of the
      merge do not abort. */
  ghost predicate ShardSumsFit(stats: map<CpuSockKey, SockStats>) {
    forall k, cpus: seq<nat> :: NoDup(cpus) && ExactCpus(k, cpus, stats) ==>
      InRange(Merge(ShardsOf(stats, k, cpus), 0))
  }

  lemma MinusStep<K, V>(m: map<K, V>, todo: set<K>, k: K)
    requires k in m && k in todo
    ensures (m - todo)[k := m[k]] == m - (todo - {k})
  {
  }

  lemma MinusMore<K, V>(m: map<K, V>, all: set<K>, todo: set<K>, k: K)
    requires todo <= all && k in todo
    ensures (m - (all - todo)) - {k} == m - (all - (todo - {k}))
  {
  }

  lemma RemovalStep<K, V>(others: map<K, seq<V>>, k: K, rest: seq<V>)
    requires k !in others
    ensures others[k := rest] - {k} == others
    ensures rest != [] ==> others[k := rest][k := rest[1..]] == others[k := rest[1..]]
  {
  }

  /** What a complete read without interference yields fits the counters' widths. */
  lemma ReadFits(s: Sys)
    requires QuietReading(s) && s.toRead == {} && StreamOk(s.stream, s.bpf.stats)
    requires ShardSumsFit(s.bpf.stats)
    ensures StreamInRange(s.stream)
  {
    forall k | k in s.stream ensures InRange(s.stream[k].stats) {
      var cpus := s.stream[k].cpus;
      assert CpusOk(k, cpus, s.bpf.stats) && IsMerge(k, s.stream[k], s.cache, s.bpf.stats);
      forall c | CpuSockKey(c, k) in s.bpf.stats ensures c in cpus {
        assert WasRead(s.stream, CpuSockKey(c, k));
      }
      assert ExactCpus(k, cpus, s.bpf.stats);
      var shards := ShardsOf(s.bpf.stats, k, cpus);
      forall f ensures Ctr(s.stream[k].stats, f) < Width(f) {
        MergeCounter(shards, LastTouchedOf(s.cache, k), f);
        MergeCounter(shards, 0, f);
        assert InRange(Merge(shards, 0));
      }
    }
  }

  /** The ring operation that a delivery from the listener amounts to. */
  function Learning(learnt: Option<seq<ConntrackEntry>>): NatOp {
    match learnt case Some(entries) => Learn(entries) case None => LearnFailed
  }

  class EventProviderEbpf {
    const maps: EbpfMaps
    const sockCache: SockCache
    const notrackUs: nat
    var flowCache: FlowTable
    var socketEvictionFailed: nat
    var samplingInterval: nat
    var countersLatest: EventCounters
    var countersPublished: EventCounters

    ghost predicate Valid()
      reads this, maps, maps.props, maps.stats
    {
      && maps.Valid()
      && (maps as object) !in {maps.props as object, maps.stats as object}
    }

    /** The machine state `s` is what the fields hold, the cycle in progress aside. */
    ghost predicate Holds(s: Sys)
      reads this, maps, maps.props, maps.stats, sockCache
    {
      && s.bpf == maps.View()
      && s.cache == sockCache.cache && s.maxSocks == sockCache.maxEntries
      && s.flows == flowCache && s.notrackUs == notrackUs
      && s.evictionFailed == socketEvictionFailed
    }

    constructor (propsCap: nat, statsCap: nat, notrackSecs: nat)
      ensures Valid() && Holds(Start(propsCap, statsCap, propsCap, notrackSecs * 1_000_000))
      ensures samplingInterval == Sampling.Interval([])
      ensures countersLatest == NO_EVENTS && countersPublished == NO_EVENTS
    {
      maps := new EbpfMaps(propsCap, statsCap);
      sockCache := new SockCache(propsCap);
      notrackUs := notrackSecs * 1_000_000;
      flowCache := map[];
      socketEvictionFailed := 0;
      samplingInterval := Sampling.Increase(0);
      countersLatest, countersPublished := NO_EVENTS, NO_EVENTS;
    }

    /** Reads all cores' counters and returns the change since the last read. When the per-core array
        cannot be read, the counters read as zero. */
    method EbpfCounters(readable: bool) returns (delta: EventCounters)
      modifies this`countersLatest
      ensures readable ==> CounterPublication.IsTotal(countersLatest, maps.counters)
      ensures !readable ==> countersLatest == NO_EVENTS
      ensures delta == SubtractCounts(countersLatest, old(countersLatest))
    {
      var total := NO_EVENTS;
      if readable {
        total := AddAllCores();
      }
      delta := SubtractCounts(total, countersLatest);
      countersLatest := total;
    }

    method AddAllCores() returns (total: EventCounters)
      ensures CounterPublication.IsTotal(total, maps.counters)
    {
      total := NO_EVENTS;
      var todo := maps.counters.Keys;
      ghost var seen: map<nat, EventCounters> := map[];
      CounterPublication.NoneRead();
      while todo != {}
        invariant todo <= maps.counters.Keys && seen == maps.counters - todo
        invariant CounterPublication.IsTotal(total, seen)
        decreases todo
      {
        var cpu :| cpu in todo;
        CounterPublication.OneMoreRead(total, seen, cpu, maps.counters[cpu]);
        MinusStep(maps.counters, todo, cpu);
        total := AddCounts(total, maps.counters[cpu]);
        seen := seen[cpu := maps.counters[cpu]];
        todo := todo - {cpu};
      }
      assert seen == maps.counters;
    }

    /** Hands out the counts since the last publication. */
    method Counters() returns (delta: EventCounters)
      modifies this`countersPublished
      ensures delta == SubtractCounts(countersLatest, old(countersPublished))
      ensures countersPublished == countersLatest
    {
      delta := SubtractCounts(countersLatest, countersPublished);
      countersPublished := countersLatest;
    }

    /** Hands out the pending flows. */
    method NetworkStats(ghost s: Sys) returns (flows: FlowTable)
      requires Holds(s) && s.phase.Idle?
      modifies this`flowCache
      ensures flows == old(flowCache) && Holds(Do(s, TakeFlows))
    {
      flows := flowCache;
      flowCache := map[];
    }

    method AdaptSampling(readable: bool)
      modifies this`samplingInterval, this`countersLatest
      ensures readable ==> CounterPublication.IsTotal(countersLatest, maps.counters)
      ensures !readable ==> countersLatest == NO_EVENTS
      ensures samplingInterval == Sampling.Adapt(old(samplingInterval),
                SubtractCounts(countersLatest, old(countersLatest)).mapInsertionErrors > 0)
    {
      var delta := EbpfCounters(readable);
      if delta.mapInsertionErrors > 0 {
        samplingInterval := Sampling.Increase(samplingInterval);
      } else {
        samplingInterval := Sampling.Decrease(samplingInterval);
      }
    }

    /** Takes in the contexts of new sockets, until the cache is full. */
    method AbsorbContexts(nowUs: nat, ghost start: Sys, ghost steps0: seq<Step>, ghost s0: Sys)
      returns (absorbed: set<CpuSockKey>, ghost steps: seq<Step>, ghost s: Sys)
      requires Valid() && Holds(s0) && Leads(start, steps0, s0)
      requires s0.phase.Absorbing? && s0.nowUs == nowUs && s0.toDrop == {} && s0.quiet
      requires s0.toAbsorb == maps.props.data.Keys
      modifies sockCache
      ensures Valid() && Holds(s) && Leads(start, steps, s)
      ensures s.phase.Dropping? && s.toDrop == absorbed && s.nowUs == nowUs && s.quiet
      ensures absorbed <= maps.props.data.Keys
      ensures absorbed == maps.props.data.Keys || |sockCache.cache| >= sockCache.maxEntries
      ensures forall key :: key in absorbed ==> key.sock in sockCache.cache
    {
      absorbed, steps, s := {}, steps0, s0;
      var contextUs := SatSub(nowUs, notrackUs / 2);
      var todo := maps.props.data.Keys;
      while todo != {}
        invariant Holds(s) && Leads(start, steps, s) && s.phase.Absorbing? && s.nowUs == nowUs && s.quiet
        invariant s.toAbsorb == todo <= maps.props.data.Keys && s.toDrop == absorbed
        invariant absorbed == maps.props.data.Keys - todo
        invariant forall key :: key in absorbed ==> key.sock in sockCache.cache
        decreases todo
      {
        var key :| key in todo;
        DoneStep(maps.props.data.Keys, todo, key);
        var ok;
        ok, steps, s := AbsorbContext(key, contextUs, start, steps, s);
        if !ok {
          return;
        }
        absorbed := absorbed + {key};
        todo := todo - {key};
      }
      LeadsOn(start, steps, s, StopAbsorbing);
      steps, s := steps + [StopAbsorbing], s.(phase := Dropping);
    }

    method AbsorbContext(key: CpuSockKey, contextUs: nat, ghost start: Sys, ghost steps0: seq<Step>, ghost s0: Sys)
      returns (ok: bool, ghost steps: seq<Step>, ghost s: Sys)
      requires Valid() && Holds(s0) && Leads(start, steps0, s0) && s0.phase.Absorbing?
      requires key in maps.props.data && key !in s0.toDrop && contextUs == SatSub(s0.nowUs, notrackUs / 2)
      modifies sockCache
      ensures Valid() && Holds(s) && Leads(start, steps, s) && s.nowUs == s0.nowUs && s.quiet == s0.quiet
      ensures ok ==> s.phase.Absorbing? && s.toAbsorb == s0.toAbsorb - {key} && s.toDrop == s0.toDrop + {key}
      ensures ok ==> sockCache.cache.Keys == old(sockCache.cache.Keys) + {key.sock}
      ensures !ok ==> s.phase.Dropping? && s.toDrop == s0.toDrop && sockCache.cache == old(sockCache.cache)
      ensures !ok ==> |sockCache.cache| >= sockCache.maxEntries
    {
      var r := sockCache.AddContext(key.sock, maps.props.data[key], contextUs);
      ok := r.failed == 0;
      LeadsAbsorb(start, steps0, s0, key);
      steps := steps0 + [Absorb(key)];
      if ok {
        AbsorbTakes(s0, key);
        s := s0.(cache := sockCache.cache, toAbsorb := s0.toAbsorb - {key}, toDrop := s0.toDrop + {key});
      } else {
        AbsorbStops(s0, key);
        s := s0.(phase := Dropping, toAbsorb := {});
      }
    }

    /** Frees the contexts taken in from the BPF map. */
    method DropContexts(absorbed: set<CpuSockKey>, ghost start: Sys, ghost steps0: seq<Step>, ghost s0: Sys)
      returns (ghost steps: seq<Step>, ghost s: Sys)
      requires Valid() && Holds(s0) && Leads(start, steps0, s0)
      requires s0.phase.Dropping? && s0.toDrop == absorbed && s0.quiet
      modifies this`socketEvictionFailed, maps.props
      ensures Valid() && Holds(s) && Leads(start, steps, s)
      ensures s.phase.Dropping? && s.toDrop == {} && s.nowUs == s0.nowUs && s.quiet
      ensures maps.props.data == old(maps.props.data) - absorbed
    {
      steps, s := steps0, s0;
      var todo := absorbed;
      assert maps.props.data - {} == maps.props.data && absorbed - absorbed == {};
      while todo != {}
        invariant Valid() && Holds(s) && Leads(start, steps, s)
        invariant s.phase.Dropping? && s.toDrop == todo && s.nowUs == s0.nowUs && s.quiet
        invariant todo <= absorbed && maps.props.data == old(maps.props.data) - (absorbed - todo)
        decreases todo
      {
        var key :| key in todo;
        MinusMore(old(maps.props.data), absorbed, todo, key);
        steps, s := DropContext(key, start, steps, s);
        todo := todo - {key};
      }
      assert absorbed - todo == absorbed;
    }

    method DropContext(key: CpuSockKey, ghost start: Sys, ghost steps0: seq<Step>, ghost s0: Sys)
      returns (ghost steps: seq<Step>, ghost s: Sys)
      requires Valid() && Holds(s0) && Leads(start, steps0, s0) && s0.phase.Dropping? && key in s0.toDrop
      modifies this`socketEvictionFailed, maps.props
      ensures Valid() && Holds(s) && Leads(start, steps, s)
      ensures s.phase.Dropping? && s.toDrop == s0.toDrop - {key} && s.nowUs == s0.nowUs && s.quiet == s0.quiet
      ensures maps.props.data == old(maps.props.data) - {key}
    {
      var ok := maps.props.Remove(key);
      if !ok {
        socketEvictionFailed := socketEvictionFailed + 1;
      }
      LeadsDrop(start, steps0, s0, key);
      steps, s := steps0 + [Drop(key)], DoDrop(s0, key);
    }

    /** Merges the statistics of all cores, socket by socket. */
    method AggregateSockStats(ghost start: Sys, ghost steps0: seq<Step>, ghost s0: Sys)
      returns (stream: Stream, ghost steps: seq<Step>, ghost s: Sys)
      requires Valid() && Holds(s0) && Leads(start, steps0, s0)
      requires s0.phase.Reading? && s0.toRead == maps.stats.data.Keys && s0.stream == map[] && s0.quiet
      ensures Valid() && Holds(s) && Leads(start, steps, s)
      ensures s.phase.Reading? && s.toRead == {} && s.stream == stream && s.nowUs == s0.nowUs && s.quiet
      ensures ReadAllBut(stream, sockCache.cache, maps.stats.data, {})
    {
      stream, steps, s := map[], steps0, s0;
      var todo := maps.stats.data.Keys;
      while todo != {}
        invariant Holds(s) && Leads(start, steps, s) && s.phase.Reading? && s.quiet
        invariant s.toRead == todo <= maps.stats.data.Keys && s.stream == stream && s.nowUs == s0.nowUs
        invariant ReadAllBut(stream, sockCache.cache, maps.stats.data, todo)
        decreases todo
      {
        var key :| key in todo;
        ReadOneMore(stream, sockCache.cache, maps.stats.data, todo, key);
        var agg := if key.sock in stream then stream[key.sock] else AggSockStats(DEFAULT, []);
        var lastRead := LastTouchedOf(sockCache.cache, key.sock);
        var merged := MergeShard(agg.stats, maps.stats.data[key], lastRead);
        agg := AggSockStats(merged, agg.cpus + [key.cpu]);
        stream := stream[key.sock := agg];
        LeadsRead(start, steps, s, key);
        steps, s := steps + [Read(key)], DoRead(s, key);
        todo := todo - {key};
      }
    }

    /** Removes one core's entry of an evicted socket. */
    method RemoveEntry(k: SockKey, cpu: nat, ghost others: map<SockKey, seq<nat>>, ghost rest: seq<nat>,
                       ghost start: Sys, ghost steps0: seq<Step>, ghost s0: Sys)
      returns (ok: bool, ghost steps: seq<Step>, ghost s: Sys)
      requires Valid() && Holds(s0) && Leads(start, steps0, s0) && s0.phase.Removing? && s0.quiet
      requires s0.toRemove == others[k := [cpu] + rest] && k !in others
      modifies this`socketEvictionFailed, maps.stats
      ensures Valid() && Holds(s) && Leads(start, steps, s) && s.phase.Removing? && s.quiet
      ensures s.toRemove == if ok then others[k := rest] else others
      ensures s.evictionFailed == s0.evictionFailed + if ok then 0 else 1
    {
      LeadsRemove(start, steps0, s0, k);
      steps := steps0 + [Remove(k)];
      ok := maps.stats.Remove(CpuSockKey(cpu, k));
      if ok {
        RemoveAdvances(s0, k, others, cpu, rest);
        s := s0.(bpf := maps.View(), toRemove := others[k := rest]);
      } else {
        socketEvictionFailed := socketEvictionFailed + 1;
        assert maps.stats.data == old(maps.stats.data);
        RemoveAbandons(s0, k, others, cpu, rest);
        s := s0.(toRemove := others, evictionFailed := s0.evictionFailed + 1);
      }
    }

    /** Removes one evicted socket's entries, core by core; gives up at the first that is missing. */
    method RemoveSocket(k: SockKey, cpus: seq<nat>, ghost start: Sys, ghost steps0: seq<Step>, ghost s0: Sys)
      returns (ok: bool, ghost steps: seq<Step>, ghost s: Sys)
      requires Valid() && Holds(s0) && Leads(start, steps0, s0)
      requires s0.phase.Removing? && k in s0.toRemove && s0.toRemove[k] == cpus && s0.quiet
      modifies this`socketEvictionFailed, maps.stats
      ensures Valid() && Holds(s) && Leads(start, steps, s)
      ensures s.phase.Removing? && s.toRemove == s0.toRemove - {k} && s.quiet
      ensures s.evictionFailed == s0.evictionFailed + if ok then 0 else 1
    {
      steps, s, ok := steps0, s0, true;
      ghost var others := s0.toRemove - {k};
      assert others[k := cpus] == s0.toRemove;
      var i := 0;
      while i < |cpus|
        invariant 0 <= i <= |cpus| && Valid() && Holds(s) && Leads(start, steps, s)
        invariant s.phase.Removing? && s.quiet && s.evictionFailed == s0.evictionFailed
        invariant s.toRemove == others[k := cpus[i..]] && ok
      {
        assert cpus[i..] == [cpus[i]] + cpus[i + 1..];
        ok, steps, s := RemoveEntry(k, cpus[i], others, cpus[i + 1..], start, steps, s);
        if !ok {
          return;
        }
        i := i + 1;
      }
      LeadsRemove(start, steps, s, k);
      RemoveCompletes(s, k, others);
      steps, s := steps + [Remove(k)], s.(toRemove := others);
    }

    /** Frees the statistics of evicted sockets from the BPF map. */
    method PerformBpfEviction(evicted: Cache, ghost start: Sys, ghost steps0: seq<Step>, ghost s0: Sys)
      returns (r: OpResult, ghost steps: seq<Step>, ghost s: Sys)
      requires Valid() && Holds(s0) && Leads(start, steps0, s0)
      requires s0.phase.Removing? && s0.quiet
      requires s0.toRemove.Keys == evicted.Keys
      requires forall k :: k in evicted ==> s0.toRemove[k] == evicted[k].agg.cpus
      modifies this`socketEvictionFailed, maps.stats
      ensures Valid() && Holds(s) && Leads(start, steps, s)
      ensures s.phase.Removing? && s.toRemove == map[] && s.quiet
      ensures s.evictionFailed == s0.evictionFailed + r.failed && r.completed + r.failed == |evicted|
    {
      r, steps, s := NOTHING_DONE, steps0, s0;
      var todo := evicted.Keys;
      while todo != {}
        invariant Valid() && Holds(s) && Leads(start, steps, s) && s.phase.Removing? && s.quiet
        invariant s.toRemove.Keys == todo <= evicted.Keys
        invariant forall k :: k in todo ==> s.toRemove[k] == evicted[k].agg.cpus
        invariant s.evictionFailed == s0.evictionFailed + r.failed
        invariant r.completed + r.failed + |todo| == |evicted.Keys|
        decreases todo
      {
        var k :| k in todo;
        var ok;
        ghost var before := s;
        ok, steps, s := RemoveSocket(k, evicted[k].agg.cpus, start, steps, s);
        if ok {
          r := r.(completed := r.completed + 1);
        } else {
          r := r.(failed := r.failed + 1);
        }
        assert s.toRemove.Keys == before.toRemove.Keys - {k};
        todo := todo - {k};
      }
      assert s.toRemove == map[];
    }

    /** Stores the new statistics, leaving deltas, and applies what is known beyond NAT. The order of
        the calls matters: NAT entries are read after the BPF maps. A mixed answer ends the agent. */
    method RefreshCache(stalenessUs: nat, stream: Stream, nat_: NatResolver,
                        learnt: Option<seq<ConntrackEntry>>)
      returns (aborted: bool, deltas: Stream)
      requires nat_.Valid()
      modifies sockCache, nat_.ringbuf
      ensures nat_.Valid() && nat_.View() == RingStep(old(nat_.View()), Learning(learnt))
      ensures aborted <==> !NatSafe(nat_.View(), CacheAfter(old(sockCache.cache), stream, stalenessUs))
      ensures !aborted ==>
        sockCache.cache == Processed(old(sockCache.cache), stream, stalenessUs, nat_.View())
      ensures deltas == DeltasOf(old(sockCache.cache), stream)
    {
      var r;
      deltas, r := sockCache.UpdateStatsAndGetDeltas(stream, stalenessUs);
      nat_.PerformAggregationCycle(learnt);
      aborted, r := nat_.StoreBeyondNatEntries(sockCache);
    }

    /** Folds deltas into flows, then takes out of the cache what must go. */
    method FlowsAndEviction(deltas: Stream) returns (evicted: Cache, ghost order: seq<SockKey>)
      modifies this`flowCache, sockCache
      ensures Visits(order, deltas.Keys)
      ensures sockCache.cache == Kept(old(sockCache.cache)) && evicted == Evicted(old(sockCache.cache))
      ensures flowCache == FlowFold(ClearAllLevels(old(flowCache)), old(sockCache.cache), deltas, order)
    {
      var flows, r;
      flows, r, order := AggregateIntoFlows(deltas, sockCache.cache, flowCache);
      flowCache := flows;
      var numStale;
      evicted, numStale := sockCache.PerformEviction();
    }

    /** Every socket was touched within the tracking time. */
    ghost predicate AllFresh(cache: Cache, nowUs: nat) {
      forall k :: k in cache ==>
        cache[k].agg.stats.lastTouchedUs > 0 && cache[k].agg.stats.lastTouchedUs + notrackUs > nowUs
    }

    /** Deltas, beyond-NAT contexts, flows and cache eviction. */
    method ProcessStream(nowUs: nat, stream: Stream, nat_: NatResolver, learnt: Option<seq<ConntrackEntry>>)
      returns (aborted: bool, evicted: Cache, ghost cache: Cache, ghost deltas: Stream,
               ghost order: seq<SockKey>)
      requires Valid() && nat_.Valid()
      modifies this`flowCache, sockCache, nat_.ringbuf
      ensures Valid() && maps.View() == old(maps.View())
      ensures nat_.Valid() && nat_.View() == RingStep(old(nat_.View()), Learning(learnt))
      ensures aborted <==>
        !NatSafe(nat_.View(), CacheAfter(old(sockCache.cache), stream, SatSub(nowUs, notrackUs)))
      ensures deltas == DeltasOf(old(sockCache.cache), stream)
      ensures !aborted ==>
        (&& Visits(order, deltas.Keys)
         && cache == Processed(old(sockCache.cache), stream, SatSub(nowUs, notrackUs), nat_.View())
         && sockCache.cache == Kept(cache) && evicted == Evicted(cache) && AllFresh(sockCache.cache, nowUs)
         && flowCache == FlowFold(ClearAllLevels(old(flowCache)), cache, deltas, order))
    {
      var ds;
      aborted, ds := RefreshCache(SatSub(nowUs, notrackUs), stream, nat_, learnt);
      deltas, cache, evicted, order := ds, sockCache.cache, map[], [];
      if aborted {
        return;
      }
      evicted, order := FlowsAndEviction(ds);
      KeptAreFresh(old(sockCache.cache), stream, nowUs, notrackUs, nat_.View());
    }

    /** The first half of a cycle: contexts in, statistics read and merged. */
    method ReadMaps(nowUs: nat, ghost start: Sys)
      returns (stream: Stream, ghost steps: seq<Step>, ghost s: Sys)
      requires Valid() && Holds(start) && start.phase.Idle? && Inv(start)
      modifies this`socketEvictionFailed, maps.props, sockCache
      ensures Valid() && Holds(s) && Leads(start, steps, s) && maps.stats.data == old(maps.stats.data)
      ensures maps.props.data == map[] || |sockCache.cache| >= sockCache.maxEntries
      ensures s.phase.Reading? && s.toRead == {} && s.stream == stream && s.nowUs == nowUs && s.quiet
    {
      steps, s := BeginCycle(start, nowUs);
      var absorbed;
      absorbed, steps, s := AbsorbContexts(nowUs, start, steps, s);
      steps, s := DropContexts(absorbed, start, steps, s);
      steps, s := BeginReading(start, steps, s);
      stream, steps, s := AggregateSockStats(start, steps, s);
    }

    /** The second half: deltas into flows, then eviction from cache and map. */
    method UseStream(nowUs: nat, stream: Stream, nat_: NatResolver, learnt: Option<seq<ConntrackEntry>>,
                     ghost start: Sys, ghost steps0: seq<Step>, ghost s0: Sys)
      returns (aborted: bool, ghost steps: seq<Step>, ghost s: Sys)
      requires Valid() && Holds(s0) && Leads(start, steps0, s0)
      requires s0.phase.Reading? && s0.toRead == {} && s0.stream == stream && s0.nowUs == nowUs && s0.quiet
      requires StreamInRange(stream) && nat_.Valid()
      modifies this`socketEvictionFailed, this`flowCache, maps.stats, sockCache, nat_.ringbuf
      ensures Valid() && nat_.Valid() && nat_.View() == RingStep(old(nat_.View()), Learning(learnt))
      ensures aborted <==> !NatReady(s0, nat_.View())
      ensures Leads(start, steps, s) && (aborted ==> s == s0)
      ensures !aborted ==> Holds(s) && s.phase.Removing? && s.toRemove == map[] && s.quiet
      ensures !aborted ==> AllFresh(sockCache.cache, nowUs)
    {
      var evicted;
      ghost var cache, deltas, order;
      aborted, evicted, cache, deltas, order := ProcessStream(nowUs, stream, nat_, learnt);
      if aborted {
        return true, steps0, s0;
      }
      ghost var ring := nat_.View();
      s := ProcessLeads(start, steps0, s0, ring, order, cache, deltas);
      steps := steps0 + [Process(ring, order)];
      var r;
      r, steps, s := PerformBpfEviction(evicted, start, steps, s);
    }

    /** Aggregates results from the BPF layer and evicts sockets that are done. The cycle is a run of
        the state machine without interference; it keeps the invariants of every run, and leaves cache
        and map in step with no failed removal. It ends the agent halfway exactly when a socket it looks
        up has a mixed answer. */
    method PerformAggregationCycle(nowUs: nat, readable: bool, nat_: NatResolver,
                                   learnt: Option<seq<ConntrackEntry>>, ghost start: Sys)
      returns (aborted: bool, ghost steps: seq<Step>, ghost s: Sys)
      requires Valid() && Holds(start) && start.phase.Idle? && Inv(start) && QuietInv(start)
      requires ShardSumsFit(maps.stats.data) && nat_.Valid()
      modifies this, maps.props, maps.stats, sockCache, nat_.ringbuf
      ensures Leads(start, steps, s)
      ensures aborted ==> s.phase.Reading? && s.toRead == {} && !NatReady(s, nat_.View())
      ensures !aborted ==> Valid() && Holds(s) && s.phase.Idle?
      ensures !aborted ==> Inv(s) && QuietInv(s) && InStep(s) && socketEvictionFailed == 0
      ensures !aborted ==> AllFresh(sockCache.cache, nowUs)
      ensures samplingInterval == Sampling.Adapt(old(samplingInterval),
                SubtractCounts(countersLatest, old(countersLatest)).mapInsertionErrors > 0)
      ensures readable ==> CounterPublication.IsTotal(countersLatest, maps.counters)
      ensures nat_.Valid() && nat_.View() == RingStep(old(nat_.View()), Learning(learnt))
    {
      AdaptSampling(readable);
      var stream;
      stream, steps, s := ReadMaps(nowUs, start);
      CompleteRead(start, steps, s);
      aborted, steps, s := UseStream(nowUs, stream, nat_, learnt, start, steps, s);
      if aborted {
        return;
      }
      steps, s := EndCycle(start, steps, s);
    }
  }

  lemma KeptAreFresh(cache: Cache, stream: Stream, nowUs: nat, notrackUs: nat, ring: Ring)
    requires ring.Valid()
    ensures var kept := Kept(Processed(cache, stream, SatSub(nowUs, notrackUs), ring));
      forall k :: k in kept ==>
        kept[k].agg.stats.lastTouchedUs > 0 && kept[k].agg.stats.lastTouchedUs + notrackUs > nowUs
  {
    var stalenessUs := SatSub(nowUs, notrackUs);
    var kept := Kept(Processed(cache, stream, stalenessUs, ring));
    forall k | k in kept
      ensures kept[k].agg.stats.lastTouchedUs > 0 && kept[k].agg.stats.lastTouchedUs + notrackUs > nowUs
    {
      AttachedContext(ring, WrapperAfter(cache, stream, stalenessUs, k));
      if k in stream {
        StoredEntry(Find(cache, k), stream[k], stalenessUs);
      } else {
        AbsentEntry(cache[k], stalenessUs);
      }
      StaleIff(kept[k].agg.stats.lastTouchedUs, nowUs, notrackUs);
    }
  }

  lemma BeginCycle(start: Sys, nowUs: nat) returns (steps: seq<Step>, s: Sys)
    requires start.phase.Idle? && Inv(start)
    ensures Leads(start, steps, s)
    ensures s.phase.Absorbing? && s.nowUs == nowUs && s.toDrop == {} && s.quiet
    ensures s.toAbsorb == start.bpf.props.Keys
    ensures s.bpf == start.bpf && s.cache == start.cache && s.maxSocks == start.maxSocks
    ensures s.flows == start.flows && s.notrackUs == start.notrackUs
    ensures s.evictionFailed == start.evictionFailed
  {
    assert Leads(start, [], start);
    LeadsOn(start, [], start, Begin(nowUs));
    steps, s := [] + [Begin(nowUs)], Do(start, Begin(nowUs));
  }

  lemma BeginReading(start: Sys, steps0: seq<Step>, s0: Sys) returns (steps: seq<Step>, s: Sys)
    requires Leads(start, steps0, s0) && Inv(start) && s0.phase.Dropping? && s0.toDrop == {}
    ensures Leads(start, steps, s)
    ensures s == s0.(phase := Reading, toRead := s0.bpf.stats.Keys) && s.stream == map[]
  {
    RunKeepsInv(start, steps0);
    LeadsOn(start, steps0, s0, StartReading);
    steps, s := steps0 + [StartReading], Do(s0, StartReading);
  }

  lemma CompleteRead(start: Sys, steps: seq<Step>, s: Sys)
    requires Leads(start, steps, s) && Inv(start) && QuietInv(start)
    requires s.phase.Reading? && s.toRead == {} && s.quiet && ShardSumsFit(s.bpf.stats)
    ensures StreamInRange(s.stream)
  {
    RunKeepsInv(start, steps);
    RunKeepsQuietInv(start, steps);
    ReadFits(s);
  }

  lemma EndCycle(start: Sys, steps0: seq<Step>, s0: Sys) returns (steps: seq<Step>, s: Sys)
    requires Leads(start, steps0, s0) && Inv(start) && QuietInv(start)
    requires s0.phase.Removing? && s0.toRemove == map[] && s0.quiet
    ensures Leads(start, steps, s) && s == s0.(phase := Idle)
    ensures Inv(s) && QuietInv(s) && InStep(s) && s.evictionFailed == 0
  {
    LeadsOn(start, steps0, s0, Finish);
    steps, s := steps0 + [Finish], Do(s0, Finish);
    RunKeepsInv(start, steps);
    RunKeepsQuietInv(start, steps);
  }
}
