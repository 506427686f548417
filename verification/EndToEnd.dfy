/** From events to what the controller reads, over whole runs of the pipeline: the per-core entries of
    a socket are exactly the shards of its event log, so a cycle without interference reads what one
    shared entry would have held. */
module EndToEnd {
  import opened Arith
  import opened SockStatsModel
  import opened SockContextModel
  import opened SockOps
  import opened SockCacheModel
  import opened NatModel
  import opened Pipeline
  import Sharding

  /** A log without the events of one core. */
  function Without(tr: seq<Event>, cpu: nat): seq<Event> {
    if tr == [] then []
    else
      var init, e := Without(tr[..|tr| - 1], cpu), tr[|tr| - 1];
      if e.cpu == cpu then init else init + [e]
  }

  /** The events handled for a socket, less those of cores whose entry has been removed since. */
  ghost function LogOf(s: Sys, steps: seq<Step>, k: SockKey): seq<Event>
    requires Run(s, steps).Some?
  {
    if steps == [] then []
    else
      var init := steps[..|steps| - 1];
      LogAfter(Run(s, init).value, steps[|steps| - 1], k, LogOf(s, init, k))
  }

  ghost function LogAfter(s: Sys, step: Step, k: SockKey, tr: seq<Event>): seq<Event>
    requires Enabled(s, step)
  {
    match step
    case BpfEvent(e) => if e.sock == k && Outcome(s.bpf, e).Handled? then tr + [e] else tr
    case Remove(j) => if j == k && s.toRemove[k] != [] then Without(tr, s.toRemove[k][0]) else tr
    case _ => tr
  }

  /** The entries of a socket are the shards of its log, and every logged core has one. */
  ghost predicate LogOk(stats: map<CpuSockKey, SockStats>, k: SockKey, tr: seq<Event>) {
    && (forall i :: 0 <= i < |tr| ==> IsStatsOp(tr[i].op) && CpuSockKey(tr[i].cpu, k) in stats)
    && (forall c :: CpuSockKey(c, k) in stats ==> stats[CpuSockKey(c, k)] == Sharding.Shard(tr, c))
  }

  lemma {:induction false} ShardOfOthers(tr: seq<Event>, cpu: nat)
    requires forall i :: 0 <= i < |tr| ==> tr[i].cpu != cpu
    ensures Sharding.Shard(tr, cpu) == DEFAULT
  {
    if tr != [] {
      ShardOfOthers(tr[..|tr| - 1], cpu);
    }
  }

  lemma {:induction false} WithoutKeepsOthers(tr: seq<Event>, cpu: nat, c: nat)
    requires c != cpu
    ensures Sharding.Shard(Without(tr, cpu), c) == Sharding.Shard(tr, c)
  {
    if tr != [] {
      var init, e := tr[..|tr| - 1], tr[|tr| - 1];
      WithoutKeepsOthers(init, cpu, c);
      if e.cpu != cpu {
        assert Without(tr, cpu)[..|Without(init, cpu)|] == Without(init, cpu);
      }
    }
  }

  lemma {:induction false} WithoutIsSubset(tr: seq<Event>, cpu: nat)
    ensures forall i :: 0 <= i < |Without(tr, cpu)| ==>
      Without(tr, cpu)[i].cpu != cpu && Without(tr, cpu)[i] in tr
  {
    if tr != [] {
      var init, e := tr[..|tr| - 1], tr[|tr| - 1];
      WithoutIsSubset(init, cpu);
      assert tr == init + [e];
    }
  }

  lemma LogEvent(b: Bpf, e: Event, k: SockKey, tr: seq<Event>)
    requires LogOk(b.stats, k, tr)
    ensures LogOk(StatsAfter(b, e), k, if e.sock == k && Outcome(b, e).Handled? then tr + [e] else tr)
  {
    if e.sock == k && Outcome(b, e).Handled? {
      var tr' := tr + [e];
      assert tr'[..|tr|] == tr;
      if KeyOf(e) !in b.stats {
        ShardOfOthers(tr, e.cpu);
      }
      forall c | CpuSockKey(c, k) in StatsAfter(b, e)
        ensures StatsAfter(b, e)[CpuSockKey(c, k)] == Sharding.Shard(tr', c)
      {
        assert c != e.cpu ==> CpuSockKey(c, k) != KeyOf(e);
      }
    } else {
      forall c ensures CpuSockKey(c, k) in StatsAfter(b, e) <==> CpuSockKey(c, k) in b.stats {
      }
    }
  }

  lemma LogRemove(stats: map<CpuSockKey, SockStats>, k: SockKey, tr: seq<Event>, cpu: nat)
    requires LogOk(stats, k, tr)
    ensures LogOk(stats - {CpuSockKey(cpu, k)}, k, Without(tr, cpu))
  {
    WithoutIsSubset(tr, cpu);
    forall c | c != cpu ensures Sharding.Shard(Without(tr, cpu), c) == Sharding.Shard(tr, c) {
      WithoutKeepsOthers(tr, cpu, c);
    }
  }

  lemma LogRemoveOther(stats: map<CpuSockKey, SockStats>, k: SockKey, tr: seq<Event>, key: CpuSockKey)
    requires LogOk(stats, k, tr) && key.sock != k
    ensures LogOk(stats - {key}, k, tr)
  {
  }

  lemma LogRemoveStep(s: Sys, j: SockKey, k: SockKey, tr: seq<Event>)
    requires RemovalOk(s.toRemove, s.cache, s.bpf.stats) && j in s.toRemove && LogOk(s.bpf.stats, k, tr)
    ensures LogOk(DoRemove(s, j).bpf.stats, k,
                  if j == k && s.toRemove[j] != [] then Without(tr, s.toRemove[j][0]) else tr)
  {
    if s.toRemove[j] != [] {
      RemoveOneOk(j, s.toRemove[j], s.bpf.stats);
      if j == k {
        LogRemove(s.bpf.stats, k, tr, s.toRemove[k][0]);
      } else {
        LogRemoveOther(s.bpf.stats, k, tr, CpuSockKey(s.toRemove[j][0], j));
      }
    }
  }

  lemma OtherStepsKeepStats(s: Sys, step: Step)
    requires Enabled(s, step) && !step.BpfEvent? && !step.Remove?
    ensures Do(s, step).bpf.stats == s.bpf.stats
  {
    match step {
      case Absorb(key) => assert DoAbsorb(s, key).bpf == s.bpf;
      case Drop(key) => assert DoDrop(s, key).bpf.stats == s.bpf.stats;
      case Read(key) => assert DoRead(s, key).bpf == s.bpf;
      case Process(ring, order) => ProcessKeepsBpf(s, ring, order);
      case Begin(_) =>
      case StopAbsorbing =>
      case StartReading =>
      case Finish =>
      case TakeFlows =>
    }
  }

  lemma ProcessKeepsBpf(s: Sys, ring: Ring, order: seq<SockKey>)
    requires ring.Valid()
    requires forall i :: 0 <= i < |order| ==> order[i] in s.stream
    ensures DoProcess(s, ring, order).bpf == s.bpf
  {
  }

  lemma LogStep(s: Sys, step: Step, k: SockKey, tr: seq<Event>)
    requires RemovalOk(s.toRemove, s.cache, s.bpf.stats) && Enabled(s, step) && LogOk(s.bpf.stats, k, tr)
    ensures LogOk(Do(s, step).bpf.stats, k, LogAfter(s, step, k, tr))
  {
    match step {
      case BpfEvent(e) => LogEvent(s.bpf, e, k, tr);
      case Remove(j) => LogRemoveStep(s, j, k, tr);
      case _ => OtherStepsKeepStats(s, step);
    }
  }

  lemma {:induction false} LogAlongRun(s: Sys, steps: seq<Step>, k: SockKey)
    requires Inv(s) && s.bpf.stats == map[] && Run(s, steps).Some?
    ensures LogOk(Run(s, steps).value.bpf.stats, k, LogOf(s, steps, k))
  {
    if steps != [] {
      var init := steps[..|steps| - 1];
      RunKeepsInv(s, init);
      LogAlongRun(s, init, k);
      LogStep(Run(s, init).value, steps[|steps| - 1], k, LogOf(s, init, k));
    }
  }

  /** What a complete, undisturbed read holds for a socket is the merge of the shards of its log, over
      cores that include every logged one. */
  lemma ReadIsMergeOfLog(s: Sys, k: SockKey, tr: seq<Event>)
    requires s.phase.Reading? && s.toRead == {} && QuietReading(s) && StreamOk(s.stream, s.bpf.stats)
    requires k in s.stream && LogOk(s.bpf.stats, k, tr)
    ensures var cpus := s.stream[k].cpus;
      && NoDup(cpus) && (forall i :: 0 <= i < |tr| ==> tr[i].cpu in cpus)
      && s.stream[k].stats == Merge(Sharding.Shards(tr, cpus), LastTouchedOf(s.cache, k))
  {
    var cpus := s.stream[k].cpus;
    assert CpusOk(k, cpus, s.bpf.stats) && IsMerge(k, s.stream[k], s.cache, s.bpf.stats);
    forall i | 0 <= i < |tr| ensures tr[i].cpu in cpus {
      assert WasRead(s.stream, CpuSockKey(tr[i].cpu, k));
    }
    assert ShardsOf(s.bpf.stats, k, cpus) == Sharding.Shards(tr, cpus);
  }

  /** From start-up, over every run: when an undisturbed read is complete, each socket's merged counters,
      timestamps and flags are those of one entry fed its whole log, provided time and kernel counters
      did not run backwards and the totals fit; and with no proviso, each accumulated counter is the
      single entry's exactly when its sum over the cores fits. */
  lemma ReadEqualsSingleStore(s: Sys, steps: seq<Step>, k: SockKey)
    requires Initial(s) && Run(s, steps).Some?
    ensures ReadDone(Run(s, steps).value, k) ==>
      IsSingleStore(Run(s, steps).value.stream[k].stats, LogOf(s, steps, k))
  {
    RunKeepsInv(s, steps);
    RunKeepsQuietInv(s, steps);
    LogAlongRun(s, steps, k);
    var t, tr := Run(s, steps).value, LogOf(s, steps, k);
    if ReadDone(t, k) {
      ReadIsMergeOfLog(t, k, tr);
      MergeOfLog(tr, t.stream[k].cpus, LastTouchedOf(t.cache, k));
    }
  }

  /** The cycle in progress has read everything, undisturbed, and found the socket. */
  ghost predicate ReadDone(s: Sys, k: SockKey) {
    s.phase.Reading? && s.toRead == {} && s.quiet && k in s.stream
  }

  /** The statistics are those of one entry fed the whole log. */
  ghost predicate IsSingleStore(m: SockStats, tr: seq<Event>) {
    && (Sharding.Monotone(tr) && Sharding.SumsFit(tr) ==>
          && (forall f :: Ctr(m, f) == Ctr(Sharding.Single(tr), f))
          && (forall t :: StampOf(m, t) == StampOf(Sharding.Single(tr), t))
          && m.flags == Sharding.Single(tr).flags)
    && (forall f :: !Kernel(f) ==>
          (Ctr(m, f) == Ctr(Sharding.Single(tr), f) <==> Ctr(m, f) < Width(f)))
  }

  /** From start-up, over every run, with no proviso: an undisturbed read flags a socket exactly with the
      transitions that the events of its log made. */
  lemma ReadFlagsTellTransitions(s: Sys, steps: seq<Step>, k: SockKey, fl: Flag)
    requires Initial(s) && Run(s, steps).Some?
    ensures var (t, tr) := (Run(s, steps).value, LogOf(s, steps, k));
      ReadDone(t, k) ==>
        (fl in t.stream[k].stats.flags <==> exists i :: 0 <= i < |tr| && Marks(tr[i], fl))
  {
    RunKeepsInv(s, steps);
    RunKeepsQuietInv(s, steps);
    LogAlongRun(s, steps, k);
    var t, tr := Run(s, steps).value, LogOf(s, steps, k);
    if ReadDone(t, k) {
      ReadIsMergeOfLog(t, k, tr);
      FlagsOfLog(tr, t.stream[k].cpus, LastTouchedOf(t.cache, k), fl);
    }
  }

  lemma FlagsOfLog(tr: seq<Event>, cpus: seq<nat>, lastAgg: nat, fl: Flag)
    requires forall i :: 0 <= i < |tr| ==> IsStatsOp(tr[i].op) && tr[i].cpu in cpus
    ensures fl in Merge(Sharding.Shards(tr, cpus), lastAgg).flags <==>
      exists i :: 0 <= i < |tr| && Marks(tr[i], fl)
  {
    var xs := Sharding.Shards(tr, cpus);
    Sharding.MergeFlags(xs, lastAgg);
    Sharding.FlagSomewhere(tr, cpus, fl);
    Sharding.FlagsTellTransitions(tr, fl);
    if i :| 0 <= i < |cpus| && fl in Sharding.Shard(tr, cpus[i]).flags {
      assert fl in xs[i].flags;
    }
  }

  lemma MergeOfLog(tr: seq<Event>, cpus: seq<nat>, lastAgg: nat)
    requires NoDup(cpus) && forall i :: 0 <= i < |tr| ==> IsStatsOp(tr[i].op) && tr[i].cpu in cpus
    ensures IsSingleStore(Merge(Sharding.Shards(tr, cpus), lastAgg), tr)
  {
    if Sharding.Monotone(tr) && Sharding.SumsFit(tr) {
      Sharding.ShardingRefinesSingleStore(tr, cpus, lastAgg);
    }
    forall f | !Kernel(f)
      ensures Ctr(Merge(Sharding.Shards(tr, cpus), lastAgg), f) == Ctr(Sharding.Single(tr), f)
         <==> Ctr(Merge(Sharding.Shards(tr, cpus), lastAgg), f) < Width(f)
    {
      MergeCounter(Sharding.Shards(tr, cpus), lastAgg, f);
      Sharding.MergedCounterIsSingleIff(tr, cpus, lastAgg, f);
    }
  }
}
