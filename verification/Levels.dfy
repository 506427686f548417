/** What a cycle reads of a cached socket is never behind what it read before, over whole runs and with
    events landing anywhere: a cached socket loses no per-core entry, so counters that do not go back in
    any entry do not go back in the merge, and flags are never lost. */
module Levels {
  import opened Arith
  import opened SockStatsModel
  import opened SockContextModel
  import opened SockOps
  import opened SockCacheModel
  import opened NatModel
  import opened Pipeline

  /** Something an entry holds that can be compared: a counter, or whether a flag is set. */
  datatype Gauge = Counting(f: Counter) | Flagging(fl: Flag)

  function Level(s: SockStats, g: Gauge): nat {
    match g
    case Counting(f) => Ctr(s, f)
    case Flagging(fl) => if fl in s.flags then 1 else 0
  }

  /** How the levels of two cores merge: counters accumulated per core add up, all else is a maximum. */
  function Combine(g: Gauge, a: nat, b: nat): nat {
    if g.Counting? && !Kernel(g.f) then a + b else Max(a, b)
  }

  lemma MergeCombines(a: SockStats, b: SockStats, lastAgg: nat, g: Gauge)
    ensures Level(AddFrom(a, b, lastAgg), g) == Combine(g, Level(a, g), Level(b, g))
  {
  }

  lemma NothingIsLevelZero(g: Gauge)
    ensures Level(DEFAULT, g) == 0
  {
  }

  lemma TouchedKeepsLevel(s: SockStats, nowUs: nat, g: Gauge)
    ensures Level(s.(lastTouchedUs := nowUs), g) == Level(s, g)
  {
  }

  // ---------------------------------------------------------------------------------------------
  // The level of a socket over several cores
  // ---------------------------------------------------------------------------------------------

  /** The level in one core's entry, if that is there and wanted. */
  function LevelAt(stats: map<CpuSockKey, SockStats>, within: set<CpuSockKey>, key: CpuSockKey, g: Gauge): nat {
    if key in stats && key in within then Level(stats[key], g) else 0
  }

  function Gathered(stats: map<CpuSockKey, SockStats>, within: set<CpuSockKey>, k: SockKey, cpus: seq<nat>,
                    g: Gauge): nat {
    if cpus == [] then 0
    else
      Combine(g, Gathered(stats, within, k, cpus[..|cpus| - 1], g),
              LevelAt(stats, within, CpuSockKey(cpus[|cpus| - 1], k), g))
  }

  lemma {:induction false} GatheredGrows(
      stats: map<CpuSockKey, SockStats>, within: set<CpuSockKey>,
      stats': map<CpuSockKey, SockStats>, within': set<CpuSockKey>, k: SockKey, cpus: seq<nat>, g: Gauge)
    requires forall c :: c in cpus ==>
      LevelAt(stats, within, CpuSockKey(c, k), g) <= LevelAt(stats', within', CpuSockKey(c, k), g)
    ensures Gathered(stats, within, k, cpus, g) <= Gathered(stats', within', k, cpus, g)
  {
    if cpus != [] {
      GatheredGrows(stats, within, stats', within', k, cpus[..|cpus| - 1], g);
    }
  }

  lemma CombineSwap(g: Gauge, a: nat, a': nat, x: nat, l: nat)
    requires a <= Combine(g, a', l)
    ensures Combine(g, a, x) <= Combine(g, Combine(g, a', x), l)
  {
  }

  /** The entry of a core that is not listed makes no difference. */
  lemma GatheredUnlisted(stats: map<CpuSockKey, SockStats>, within: set<CpuSockKey>, k: SockKey, cpus: seq<nat>,
                         cpu: nat, g: Gauge)
    requires cpu !in cpus
    ensures Gathered(stats, within, k, cpus, g) <= Gathered(stats, within - {CpuSockKey(cpu, k)}, k, cpus, g)
  {
    GatheredGrows(stats, within, stats, within - {CpuSockKey(cpu, k)}, k, cpus, g);
  }

  /** Leaving out one entry loses its level at most. */
  lemma {:induction false} GatheredWithout(
      stats: map<CpuSockKey, SockStats>, within: set<CpuSockKey>, k: SockKey, cpus: seq<nat>, key: CpuSockKey,
      g: Gauge)
    requires NoDup(cpus)
    ensures Gathered(stats, within, k, cpus, g)
         <= Combine(g, Gathered(stats, within - {key}, k, cpus, g), LevelAt(stats, within, key, g))
  {
    if cpus != [] {
      var init, last := cpus[..|cpus| - 1], CpuSockKey(cpus[|cpus| - 1], k);
      if last == key {
        GatheredUnlisted(stats, within, k, init, key.cpu, g);
      } else {
        GatheredWithout(stats, within, k, init, key, g);
        CombineSwap(g, Gathered(stats, within, k, init, g), Gathered(stats, within - {key}, k, init, g),
                    LevelAt(stats, within, last, g), LevelAt(stats, within, key, g));
      }
    }
  }

  lemma GatheredOneMore(stats: map<CpuSockKey, SockStats>, within: set<CpuSockKey>, k: SockKey, cpus: seq<nat>,
                        cpu: nat, g: Gauge)
    ensures Gathered(stats, within, k, cpus + [cpu], g)
         == Combine(g, Gathered(stats, within, k, cpus, g), LevelAt(stats, within, CpuSockKey(cpu, k), g))
  {
    assert (cpus + [cpu])[..|cpus|] == cpus;
  }

  // ---------------------------------------------------------------------------------------------
  // The invariant
  // ---------------------------------------------------------------------------------------------

  /** What is stored of a socket is not ahead of the entries of its cores. */
  ghost predicate Backed(agg: AggSockStats, stats: map<CpuSockKey, SockStats>, k: SockKey, g: Gauge) {
    Level(agg.stats, g) <= Gathered(stats, stats.Keys, k, agg.cpus, g)
  }

  /** What is cached of a socket is not ahead of what was read of it, together with what is still to be
      read of the cores it was cached from. */
  ghost predicate Followed(agg: AggSockStats, stream: Stream, stats: map<CpuSockKey, SockStats>,
                           toRead: set<CpuSockKey>, k: SockKey, g: Gauge) {
    Level(agg.stats, g) <= Combine(g, Level(ReadSoFar(stream, k).stats, g), Gathered(stats, toRead, k, agg.cpus, g))
  }

  ghost predicate NotBehind(s: Sys, k: SockKey, g: Gauge) {
    && (k in s.cache ==> Backed(s.cache[k].agg, s.bpf.stats, k, g))
    && (k in s.stream ==> Backed(s.stream[k], s.bpf.stats, k, g))
    && (s.phase.Reading? && k in s.cache ==>
          Followed(s.cache[k].agg, s.stream, s.bpf.stats, s.toRead, k, g))
  }

  /** No entry of the socket is gone, and none has gone back. */
  ghost predicate Grown(stats: map<CpuSockKey, SockStats>, stats': map<CpuSockKey, SockStats>, k: SockKey,
                        g: Gauge) {
    forall c :: CpuSockKey(c, k) in stats ==>
      CpuSockKey(c, k) in stats' && Level(stats[CpuSockKey(c, k)], g) <= Level(stats'[CpuSockKey(c, k)], g)
  }

  lemma GrownKeepsBacked(agg: AggSockStats, stats: map<CpuSockKey, SockStats>, stats': map<CpuSockKey, SockStats>,
                         k: SockKey, g: Gauge)
    requires Backed(agg, stats, k, g) && Grown(stats, stats', k, g)
    ensures Backed(agg, stats', k, g)
  {
    GatheredGrows(stats, stats.Keys, stats', stats'.Keys, k, agg.cpus, g);
  }

  lemma CombineGrows(g: Gauge, a: nat, b: nat, b': nat)
    requires b <= b'
    ensures Combine(g, a, b) <= Combine(g, a, b')
  {
  }

  lemma GrownKeepsFollowed(agg: AggSockStats, stream: Stream, stats: map<CpuSockKey, SockStats>,
                           stats': map<CpuSockKey, SockStats>, toRead: set<CpuSockKey>, k: SockKey, g: Gauge)
    requires Followed(agg, stream, stats, toRead, k, g) && Grown(stats, stats', k, g)
    ensures Followed(agg, stream, stats', toRead, k, g)
  {
    GatheredGrows(stats, toRead, stats', toRead, k, agg.cpus, g);
    CombineGrows(g, Level(ReadSoFar(stream, k).stats, g), Gathered(stats, toRead, k, agg.cpus, g),
                 Gathered(stats', toRead, k, agg.cpus, g));
  }

  lemma GrownKeeps(s: Sys, b: Bpf, quiet: bool, k: SockKey, g: Gauge)
    requires NotBehind(s, k, g) && Grown(s.bpf.stats, b.stats, k, g)
    ensures NotBehind(s.(bpf := b, quiet := quiet), k, g)
  {
    if k in s.cache {
      GrownKeepsBacked(s.cache[k].agg, s.bpf.stats, b.stats, k, g);
      if s.phase.Reading? {
        GrownKeepsFollowed(s.cache[k].agg, s.stream, s.bpf.stats, b.stats, s.toRead, k, g);
      }
    }
    if k in s.stream {
      GrownKeepsBacked(s.stream[k], s.bpf.stats, b.stats, k, g);
    }
  }

  // --- Events ---

  function EntryFor(b: Bpf, e: Event): SockStats {
    if KeyOf(e) in b.stats then b.stats[KeyOf(e)] else DEFAULT
  }

  /** The event, if it is handled for that socket, takes nothing back in the entry it updates. */
  ghost predicate TakesNothingBack(b: Bpf, e: Event, k: SockKey, g: Gauge) {
    e.sock == k && Outcome(b, e).Handled? ==>
      Level(EntryFor(b, e), g) <= Level(UpdateEntry(e, EntryFor(b, e)), g)
  }

  lemma FlagsAreNotTakenBack(b: Bpf, e: Event, k: SockKey, fl: Flag)
    ensures TakesNothingBack(b, e, k, Flagging(fl))
  {
  }

  lemma EventGrows(b: Bpf, e: Event, k: SockKey, g: Gauge)
    requires TakesNothingBack(b, e, k, g)
    ensures Grown(b.stats, StatsAfter(b, e), k, g)
  {
    if Outcome(b, e).Handled? && e.sock == k {
      assert KeyOf(e) == CpuSockKey(e.cpu, k);
    }
  }

  lemma NotBehindEvent(s: Sys, e: Event, k: SockKey, g: Gauge)
    requires NotBehind(s, k, g) && TakesNothingBack(s.bpf, e, k, g)
    ensures NotBehind(s.(bpf := HandleEvent(s.bpf, e), quiet := false), k, g)
  {
    EventGrows(s.bpf, e, k, g);
    GrownKeeps(s, HandleEvent(s.bpf, e), false, k, g);
  }

  // --- The controller's steps ---

  /** Taking in a context changes no level, and a new entry has none. */
  lemma AbsorbKeepsLevels(cache: Cache, maxSocks: nat, j: SockKey, c: SockContext, nowUs: nat, k: SockKey, g: Gauge)
    ensures var cache' := AddContextTo(cache, maxSocks, j, c, nowUs);
      && (k in cache ==> k in cache' && cache'[k].agg.cpus == cache[k].agg.cpus
                         && Level(cache'[k].agg.stats, g) == Level(cache[k].agg.stats, g))
      && (k in cache' && k !in cache ==> Level(cache'[k].agg.stats, g) == 0 && k == j)
  {
    NothingIsLevelZero(g);
    TouchedKeepsLevel(DEFAULT, nowUs, g);
    if k in cache {
      TouchedKeepsLevel(cache[k].agg.stats, nowUs, g);
    }
  }

  lemma AbsorbFields(s: Sys, key: CpuSockKey)
    requires s.phase.Absorbing? && key in s.bpf.props
    ensures var t := DoAbsorb(s, key);
      && t.bpf == s.bpf && t.stream == s.stream && !t.phase.Reading?
      && t.cache == AddContextTo(s.cache, s.maxSocks, key.sock, s.bpf.props[key], SatSub(s.nowUs, s.notrackUs / 2))
  {
  }

  lemma NotBehindAbsorb(s: Sys, key: CpuSockKey, k: SockKey, g: Gauge)
    requires NotBehind(s, k, g) && s.phase.Absorbing? && key in s.bpf.props
    ensures NotBehind(DoAbsorb(s, key), k, g)
  {
    AbsorbFields(s, key);
    AbsorbKeepsLevels(s.cache, s.maxSocks, key.sock, s.bpf.props[key], SatSub(s.nowUs, s.notrackUs / 2), k, g);
  }

  lemma NotBehindStart(s: Sys, k: SockKey, g: Gauge)
    requires NotBehind(s, k, g) && s.stream == map[]
    ensures NotBehind(s.(phase := Reading, toRead := s.bpf.stats.Keys), k, g)
  {
  }

  lemma ReadCombines(stream: Stream, cache: Cache, key: CpuSockKey, s: SockStats, k: SockKey, g: Gauge)
    ensures var stream' := ReadInto(stream, cache, key, s);
      && (key.sock != k ==> ReadSoFar(stream', k) == ReadSoFar(stream, k))
      && (key.sock == k ==>
            && stream'[k].cpus == ReadSoFar(stream, k).cpus + [key.cpu]
            && Level(stream'[k].stats, g) == Combine(g, Level(ReadSoFar(stream, k).stats, g), Level(s, g)))
  {
    if key.sock == k {
      MergeCombines(ReadSoFar(stream, k).stats, s, LastTouchedOf(cache, k), g);
    }
  }

  lemma ReadKeepsBacked(stream: Stream, cache: Cache, key: CpuSockKey, stats: map<CpuSockKey, SockStats>, k: SockKey,
                        g: Gauge)
    requires key in stats && (k in stream ==> Backed(stream[k], stats, k, g))
    ensures var stream' := ReadInto(stream, cache, key, stats[key]);
      k in stream' ==> Backed(stream'[k], stats, k, g)
  {
    ReadCombines(stream, cache, key, stats[key], k, g);
    if key.sock == k {
      NothingIsLevelZero(g);
      assert key == CpuSockKey(key.cpu, k);
      GatheredOneMore(stats, stats.Keys, k, ReadSoFar(stream, k).cpus, key.cpu, g);
    }
  }

  lemma ReadKeepsFollowed(agg: AggSockStats, stream: Stream, cache: Cache, key: CpuSockKey,
                          stats: map<CpuSockKey, SockStats>, toRead: set<CpuSockKey>, k: SockKey, g: Gauge)
    requires key in stats && NoDup(agg.cpus) && Followed(agg, stream, stats, toRead, k, g)
    ensures Followed(agg, ReadInto(stream, cache, key, stats[key]), stats, toRead - {key}, k, g)
  {
    ReadCombines(stream, cache, key, stats[key], k, g);
    if key.sock == k {
      GatheredWithout(stats, toRead, k, agg.cpus, key, g);
    } else {
      GatheredGrows(stats, toRead, stats, toRead - {key}, k, agg.cpus, g);
      CombineGrows(g, Level(ReadSoFar(stream, k).stats, g), Gathered(stats, toRead, k, agg.cpus, g),
                   Gathered(stats, toRead - {key}, k, agg.cpus, g));
    }
  }

  lemma NotBehindRead(s: Sys, key: CpuSockKey, k: SockKey, g: Gauge)
    requires NotBehind(s, k, g) && s.phase.Reading? && key in s.bpf.stats && CacheOk(s.cache, s.bpf.stats)
    ensures NotBehind(DoRead(s, key), k, g)
  {
    ReadKeepsBacked(s.stream, s.cache, key, s.bpf.stats, k, g);
    if k in s.cache {
      assert CpusOk(k, s.cache[k].agg.cpus, s.bpf.stats);
      ReadKeepsFollowed(s.cache[k].agg, s.stream, s.cache, key, s.bpf.stats, s.toRead, k, g);
    }
  }

  lemma NotBehindProcess(s: Sys, ring: Ring, order: seq<SockKey>, k: SockKey, g: Gauge)
    requires NotBehind(s, k, g) && ring.Valid() && CacheOk(s.cache, s.bpf.stats)
    requires forall i :: 0 <= i < |order| ==> order[i] in s.stream
    ensures NotBehind(DoProcess(s, ring, order), k, g)
  {
    var t := DoProcess(s, ring, order);
    assert t.bpf == s.bpf && t.stream == map[];
    if k in t.cache {
      ProcessedEntry(s.cache, s.stream, StalenessUs(s), ring, k);
    }
  }

  lemma RemoveFields(s: Sys, j: SockKey, k: SockKey)
    requires RemovalOk(s.toRemove, s.cache, s.bpf.stats) && j in s.toRemove
    ensures var t := DoRemove(s, j);
      && t.cache == s.cache && t.stream == s.stream && t.phase == s.phase
      && (k in s.cache ==> forall c :: CpuSockKey(c, k) in s.bpf.stats ==>
            CpuSockKey(c, k) in t.bpf.stats && t.bpf.stats[CpuSockKey(c, k)] == s.bpf.stats[CpuSockKey(c, k)])
  {
  }

  lemma NotBehindRemove(s: Sys, j: SockKey, k: SockKey, g: Gauge)
    requires NotBehind(s, k, g) && RemovalOk(s.toRemove, s.cache, s.bpf.stats) && j in s.toRemove
    requires s.phase.Removing? && s.stream == map[]
    ensures NotBehind(DoRemove(s, j), k, g)
  {
    RemoveFields(s, j, k);
    if k in s.cache {
      GrownKeepsBacked(s.cache[k].agg, s.bpf.stats, DoRemove(s, j).bpf.stats, k, g);
    }
  }

  lemma NotBehindOther(s: Sys, step: Step, k: SockKey, g: Gauge)
    requires NotBehind(s, k, g) && Enabled(s, step)
    requires step.Begin? || step.StopAbsorbing? || step.Drop? || step.Finish? || step.TakeFlows?
    ensures NotBehind(Do(s, step), k, g)
  {
    var t := Do(s, step);
    assert t.bpf.stats == s.bpf.stats && t.cache == s.cache && t.stream == s.stream && !t.phase.Reading? by {
      match step {
        case Begin(_) =>
        case StopAbsorbing =>
        case Drop(_) =>
        case Finish =>
        case TakeFlows =>
      }
    }
  }

  lemma NotBehindStep(s: Sys, step: Step, k: SockKey, g: Gauge)
    requires Inv(s) && NotBehind(s, k, g) && Enabled(s, step)
    requires step.BpfEvent? ==> TakesNothingBack(s.bpf, step.e, k, g)
    ensures NotBehind(Do(s, step), k, g)
  {
    match step {
      case BpfEvent(e) => NotBehindEvent(s, e, k, g);
      case Absorb(key) => NotBehindAbsorb(s, key, k, g);
      case StartReading => NotBehindStart(s, k, g);
      case Read(key) => NotBehindRead(s, key, k, g);
      case Process(ring, order) => NotBehindProcess(s, ring, order, k, g);
      case Remove(j) => NotBehindRemove(s, j, k, g);
      case _ => NotBehindOther(s, step, k, g);
    }
  }

  // ---------------------------------------------------------------------------------------------
  // Over whole runs
  // ---------------------------------------------------------------------------------------------

  /** No event of the run takes anything back in the entry it updates. */
  ghost predicate NeverTakenBack(s: Sys, steps: seq<Step>, k: SockKey, g: Gauge) {
    forall n :: 0 <= n < |steps| && steps[n].BpfEvent? && Run(s, steps[..n]).Some? ==>
      TakesNothingBack(Run(s, steps[..n]).value.bpf, steps[n].e, k, g)
  }

  lemma NeverTakenBackSplit(s: Sys, steps: seq<Step>, k: SockKey, g: Gauge)
    requires NeverTakenBack(s, steps, k, g) && steps != [] && Run(s, steps).Some?
    ensures var (init, last) := (steps[..|steps| - 1], steps[|steps| - 1]);
      && NeverTakenBack(s, init, k, g)
      && (last.BpfEvent? ==> TakesNothingBack(Run(s, init).value.bpf, last.e, k, g))
  {
    var init := steps[..|steps| - 1];
    forall n | 0 <= n < |init| && init[n].BpfEvent? && Run(s, init[..n]).Some?
      ensures TakesNothingBack(Run(s, init[..n]).value.bpf, init[n].e, k, g)
    {
      assert init[..n] == steps[..n] && init[n] == steps[n];
    }
  }

  lemma {:induction false} NotBehindAlongRun(s: Sys, steps: seq<Step>, k: SockKey, g: Gauge)
    requires Initial(s) && Run(s, steps).Some? && NeverTakenBack(s, steps, k, g)
    ensures NotBehind(Run(s, steps).value, k, g)
  {
    if steps != [] {
      var init := steps[..|steps| - 1];
      NeverTakenBackSplit(s, steps, k, g);
      RunKeepsInv(s, init);
      NotBehindAlongRun(s, init, k, g);
      NotBehindStep(Run(s, init).value, steps[|steps| - 1], k, g);
    }
  }

  lemma {:induction false} NothingWanted(stats: map<CpuSockKey, SockStats>, k: SockKey, cpus: seq<nat>, g: Gauge)
    ensures Gathered(stats, {}, k, cpus, g) == 0
  {
    if cpus != [] {
      NothingWanted(stats, k, cpus[..|cpus| - 1], g);
    }
  }

  /** A complete read is not behind the cache. */
  lemma CompleteReadIsNotBehind(s: Sys, k: SockKey, g: Gauge)
    requires NotBehind(s, k, g) && s.phase.Reading? && s.toRead == {} && k in s.cache
    ensures Level(s.cache[k].agg.stats, g) <= Level(ReadSoFar(s.stream, k).stats, g)
  {
    NothingWanted(s.bpf.stats, k, s.cache[k].agg.cpus, g);
  }

  /** Over every run, events inside cycles included: a complete read of a cached socket has every flag
      that is cached. */
  lemma ReadsLoseNoFlag(s: Sys, steps: seq<Step>, k: SockKey, fl: Flag)
    requires Initial(s) && Run(s, steps).Some?
    ensures var t := Run(s, steps).value;
      t.phase.Reading? && t.toRead == {} && k in t.cache && fl in t.cache[k].agg.stats.flags
      ==> k in t.stream && fl in t.stream[k].stats.flags
  {
    var t, g := Run(s, steps).value, Flagging(fl);
    forall n | 0 <= n < |steps| && steps[n].BpfEvent? && Run(s, steps[..n]).Some?
      ensures TakesNothingBack(Run(s, steps[..n]).value.bpf, steps[n].e, k, g)
    {
      FlagsAreNotTakenBack(Run(s, steps[..n]).value.bpf, steps[n].e, k, fl);
    }
    NotBehindAlongRun(s, steps, k, g);
    if t.phase.Reading? && t.toRead == {} && k in t.cache {
      CompleteReadIsNotBehind(t, k, g);
      NothingIsLevelZero(g);
    }
  }
}
