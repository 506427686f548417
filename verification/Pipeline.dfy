/** The two-party protocol over the shared maps, as a state machine: BPF events may land between any
    two steps of the controller's aggregation cycle
    (nfm-controller/src/events/event_provider_ebpf.rs). */
module Pipeline {
  import opened Arith
  import opened SockStatsModel
  import opened SockContextModel
  import opened SockOps
  import opened SockCacheModel
  import opened Flows
  import opened NatModel

  /** Where the controller is in its cycle. */
  datatype Phase = Idle | Absorbing | Dropping | Reading | Removing

  datatype Sys = Sys(
    bpf: Bpf,
    cache: Cache, maxSocks: nat, flows: FlowTable, notrackUs: nat,
    evictionFailed: nat,
    // The cycle in progress. A walk over a live map visits every key present when it began; keys
    // inserted meanwhile may or may not be met.
    phase: Phase, nowUs: nat,
    toAbsorb: set<CpuSockKey>, toDrop: set<CpuSockKey>, toRead: set<CpuSockKey>,
    stream: Stream, toRemove: map<SockKey, seq<nat>>,
    // No BPF event since the last cycle began.
    quiet: bool)

  datatype Step =
    | BpfEvent(e: Event)
    | Begin(nowUs: nat)
    | Absorb(key: CpuSockKey)
    | StopAbsorbing
    | Drop(key: CpuSockKey)
    | StartReading
    | Read(key: CpuSockKey)
    | Process(ring: Ring, order: seq<SockKey>)
    | Remove(sock: SockKey)
    | Finish
    | TakeFlows

  function Start(propsCap: nat, statsCap: nat, maxSocks: nat, notrackUs: nat): Sys {
    Sys(Bpf(map[], propsCap, map[], statsCap, map[]), map[], maxSocks, map[], notrackUs, 0,
        Idle, 0, {}, {}, {}, map[], map[], true)
  }

  function ReadSoFar(stream: Stream, k: SockKey): AggSockStats {
    if k in stream then stream[k] else AggSockStats(DEFAULT, [])
  }

  /** One core's entry added to what has been read of its socket so far. */
  function ReadInto(stream: Stream, cache: Cache, key: CpuSockKey, s: SockStats): Stream {
    var agg := ReadSoFar(stream, key.sock);
    stream[key.sock := AggSockStats(AddFrom(agg.stats, s, LastTouchedOf(cache, key.sock)),
                                    agg.cpus + [key.cpu])]
  }

  predicate WasRead(stream: Stream, key: CpuSockKey) {
    key.sock in stream && key.cpu in stream[key.sock].cpus
  }

  /** The cache between the delta update and the eviction. */
  function Processed(cache: Cache, stream: Stream, stalenessUs: nat, ring: Ring): Cache
    requires ring.Valid()
  {
    AttachNat(ring, CacheAfter(cache, stream, stalenessUs))
  }

  function StalenessUs(s: Sys): nat { SatSub(s.nowUs, s.notrackUs) }

  ghost predicate StreamInRange(stream: Stream) {
    forall k :: k in stream ==> InRange(stream[k].stats)
  }

  /** Looking up the sockets as they will be cached does not abort. */
  ghost predicate NatReady(s: Sys, ring: Ring)
    requires ring.Valid()
  {
    NatSafe(ring, CacheAfter(s.cache, s.stream, StalenessUs(s)))
  }

  ghost predicate Enabled(s: Sys, step: Step) {
    match step
    case BpfEvent(_) => true
    case Begin(_) => s.phase.Idle?
    case Absorb(key) => s.phase.Absorbing? && key in s.bpf.props && key !in s.toDrop
    case StopAbsorbing => s.phase.Absorbing? && s.toAbsorb == {}
    case Drop(key) => s.phase.Dropping? && key in s.toDrop
    case StartReading => s.phase.Dropping? && s.toDrop == {}
    case Read(key) => s.phase.Reading? && key in s.bpf.stats && !WasRead(s.stream, key)
    case Process(ring, order) =>
      && s.phase.Reading? && s.toRead == {} && StreamInRange(s.stream)
      && ring.Valid() && NatReady(s, ring) && Visits(order, s.stream.Keys)
    case Remove(sock) => s.phase.Removing? && sock in s.toRemove
    case Finish => s.phase.Removing? && s.toRemove == map[]
    case TakeFlows => s.phase.Idle?
  }

  function DoAbsorb(s: Sys, key: CpuSockKey): Sys
    requires key in s.bpf.props
  {
    if AddContextFails(s.cache, s.maxSocks, key.sock) then
      // The walk stops; this context stays in the map for the next cycle.
      s.(phase := Dropping, toAbsorb := {})
    else
      s.(cache := AddContextTo(s.cache, s.maxSocks, key.sock, s.bpf.props[key],
                               SatSub(s.nowUs, s.notrackUs / 2)),
         toAbsorb := s.toAbsorb - {key},
         toDrop := s.toDrop + {key})
  }

  function DoDrop(s: Sys, key: CpuSockKey): Sys {
    s.(bpf := s.bpf.(props := s.bpf.props - {key}),
       toDrop := s.toDrop - {key},
       evictionFailed := s.evictionFailed + if key in s.bpf.props then 0 else 1)
  }

  function DoRead(s: Sys, key: CpuSockKey): Sys
    requires key in s.bpf.stats
  {
    s.(stream := ReadInto(s.stream, s.cache, key, s.bpf.stats[key]), toRead := s.toRead - {key})
  }

  /** Deltas, NAT, flows and cache eviction: private to the controller, hence one step. */
  function DoProcess(s: Sys, ring: Ring, order: seq<SockKey>): Sys
    requires ring.Valid()
    requires forall i :: 0 <= i < |order| ==> order[i] in s.stream
  {
    var cache := Processed(s.cache, s.stream, StalenessUs(s), ring);
    var deltas := DeltasOf(s.cache, s.stream);
    s.(cache := Kept(cache),
       flows := FlowFold(ClearAllLevels(s.flows), cache, deltas, order),
       stream := map[],
       toRemove := map k | k in Evicted(cache) :: cache[k].agg.cpus,
       phase := Removing)
  }

  /** One removal from the statistics map; a socket whose removal fails is abandoned. */
  function DoRemove(s: Sys, k: SockKey): Sys
    requires k in s.toRemove
  {
    if s.toRemove[k] == [] then s.(toRemove := s.toRemove - {k})
    else
      var key := CpuSockKey(s.toRemove[k][0], k);
      if key in s.bpf.stats then
        s.(bpf := s.bpf.(stats := s.bpf.stats - {key}),
           toRemove := s.toRemove[k := s.toRemove[k][1..]])
      else
        s.(toRemove := s.toRemove - {k}, evictionFailed := s.evictionFailed + 1)
  }

  ghost function Do(s: Sys, step: Step): Sys
    requires Enabled(s, step)
  {
    match step
    case BpfEvent(e) => s.(bpf := HandleEvent(s.bpf, e), quiet := false)
    case Begin(nowUs) =>
      s.(phase := Absorbing, nowUs := nowUs, toAbsorb := s.bpf.props.Keys, toDrop := {}, quiet := true)
    case Absorb(key) => DoAbsorb(s, key)
    case StopAbsorbing => s.(phase := Dropping)
    case Drop(key) => DoDrop(s, key)
    case StartReading => s.(phase := Reading, toRead := s.bpf.stats.Keys)
    case Read(key) => DoRead(s, key)
    case Process(ring, order) => DoProcess(s, ring, order)
    case Remove(sock) => DoRemove(s, sock)
    case Finish => s.(phase := Idle)
    case TakeFlows => s.(flows := map[])
  }

  /** The agent as it starts. */
  ghost predicate Initial(s: Sys) {
    exists propsCap, statsCap, maxSocks, notrackUs :: s == Start(propsCap, statsCap, maxSocks, notrackUs)
  }

  /** The state after a run of steps, if each is possible in turn. */
  ghost function Run(s: Sys, steps: seq<Step>): Option<Sys> {
    if steps == [] then Some(s)
    else
      var mid := Run(s, steps[..|steps| - 1]);
      if mid.Some? && Enabled(mid.value, steps[|steps| - 1])
      then Some(Do(mid.value, steps[|steps| - 1])) else None
  }

  // ---------------------------------------------------------------------------------------------
  // What holds in every state, with events landing anywhere
  // ---------------------------------------------------------------------------------------------

  /** The listed cores are distinct, and each has an entry for the socket. */
  ghost predicate CpusOk(k: SockKey, cpus: seq<nat>, stats: map<CpuSockKey, SockStats>) {
    NoDup(cpus) && forall c :: c in cpus ==> CpuSockKey(c, k) in stats
  }

  /** An external context is only ever attached to a valid one. */
  ghost predicate ContextOk(w: SockWrapper) {
    w.contextExternal.Some? ==> IsValid(w.context) && IsValid(w.contextExternal.value)
  }

  ghost predicate CacheOk(cache: Cache, stats: map<CpuSockKey, SockStats>) {
    forall k :: k in cache ==> CpusOk(k, cache[k].agg.cpus, stats) && ContextOk(cache[k])
  }

  ghost predicate StreamOk(stream: Stream, stats: map<CpuSockKey, SockStats>) {
    forall k :: k in stream ==> CpusOk(k, stream[k].cpus, stats) && FlagsOk(stream[k].stats)
  }

  ghost predicate RemovalOk(toRemove: map<SockKey, seq<nat>>, cache: Cache,
                            stats: map<CpuSockKey, SockStats>) {
    forall k :: k in toRemove ==> CpusOk(k, toRemove[k], stats) && k !in cache
  }

  ghost predicate Inv(s: Sys) {
    && BpfInv(s.bpf)
    && CacheOk(s.cache, s.bpf.stats)
    && s.toDrop <= s.bpf.props.Keys
    && (!s.phase.Absorbing? && !s.phase.Dropping? ==> s.toDrop == {})
    && StreamOk(s.stream, s.bpf.stats) && (!s.phase.Reading? ==> s.stream == map[])
    && RemovalOk(s.toRemove, s.cache, s.bpf.stats) && (!s.phase.Removing? ==> s.toRemove == map[])
    && |s.flows| <= AGG_FLOWS_MAX_ENTRIES
    && s.evictionFailed == 0
  }

  lemma MoreStatsKeepOk(s: Sys, stats: map<CpuSockKey, SockStats>)
    requires Inv(s) && s.bpf.stats.Keys <= stats.Keys
    ensures CacheOk(s.cache, stats) && StreamOk(s.stream, stats)
    ensures RemovalOk(s.toRemove, s.cache, stats)
  {
    forall k | k in s.cache ensures CpusOk(k, s.cache[k].agg.cpus, stats) {
      assert CpusOk(k, s.cache[k].agg.cpus, s.bpf.stats);
    }
    forall k | k in s.stream ensures CpusOk(k, s.stream[k].cpus, stats) {
      assert CpusOk(k, s.stream[k].cpus, s.bpf.stats);
    }
    forall k | k in s.toRemove ensures CpusOk(k, s.toRemove[k], stats) {
      assert CpusOk(k, s.toRemove[k], s.bpf.stats);
    }
  }

  lemma InvBpfEvent(s: Sys, e: Event)
    requires Inv(s)
    ensures Inv(Do(s, BpfEvent(e)))
  {
    HandleEventKeeps(s.bpf, e);
    MoreStatsKeepOk(s, HandleEvent(s.bpf, e).stats);
  }

  lemma AddContextOk(cache: Cache, maxSocks: nat, k: SockKey, c: SockContext, nowUs: nat,
                     stats: map<CpuSockKey, SockStats>)
    requires CacheOk(cache, stats)
    ensures CacheOk(AddContextTo(cache, maxSocks, k, c, nowUs), stats)
  {
    if k in cache {
      assert CpusOk(k, cache[k].agg.cpus, stats);
    }
  }

  lemma InvAbsorb(s: Sys, key: CpuSockKey)
    requires Inv(s) && s.phase.Absorbing? && key in s.bpf.props
    ensures Inv(DoAbsorb(s, key))
  {
    AddContextOk(s.cache, s.maxSocks, key.sock, s.bpf.props[key], SatSub(s.nowUs, s.notrackUs / 2),
                 s.bpf.stats);
  }

  lemma InvDrop(s: Sys, key: CpuSockKey)
    requires Inv(s) && s.phase.Dropping? && key in s.toDrop
    ensures Inv(DoDrop(s, key))
  {
    var props := s.bpf.props;
    assert (props - {key}).Keys == props.Keys - {key};
  }

  lemma AddFromFlagsOk(a: SockStats, b: SockStats, t: nat)
    requires FlagsOk(a) && FlagsOk(b)
    ensures FlagsOk(AddFrom(a, b, t))
  {
  }

  lemma ReadIntoOk(stream: Stream, cache: Cache, key: CpuSockKey, stats: map<CpuSockKey, SockStats>)
    requires StreamOk(stream, stats) && key in stats && FlagsOk(stats[key]) && !WasRead(stream, key)
    ensures StreamOk(ReadInto(stream, cache, key, stats[key]), stats)
  {
    var agg := ReadSoFar(stream, key.sock);
    assert CpusOk(key.sock, agg.cpus, stats);
    assert CpusOk(key.sock, agg.cpus + [key.cpu], stats);
    AddFromFlagsOk(agg.stats, stats[key], LastTouchedOf(cache, key.sock));
  }

  lemma InvRead(s: Sys, key: CpuSockKey)
    requires Inv(s) && s.phase.Reading? && key in s.bpf.stats && !WasRead(s.stream, key)
    ensures Inv(DoRead(s, key))
  {
    ReadIntoOk(s.stream, s.cache, key, s.bpf.stats);
  }

  /** What processing does to one entry: its statistics and cores come from the stream if the socket
      was read, its own context never changes, an external one may be attached. */
  lemma ProcessedEntry(cache: Cache, stream: Stream, stalenessUs: nat, ring: Ring, k: SockKey)
    requires ring.Valid() && (k in cache || k in stream)
    requires k in cache ==> ContextOk(cache[k])
    ensures Processed(cache, stream, stalenessUs, ring).Keys == cache.Keys + stream.Keys
    ensures var (before, w) := (WrapperAfter(cache, stream, stalenessUs, k),
                                Processed(cache, stream, stalenessUs, ring)[k]);
      && w == before.(contextExternal := w.contextExternal) && ContextOk(w)
      && w.agg == (if k in stream then stream[k] else cache[k].agg)
      && w.context == (if k in cache then cache[k].context else NO_CONTEXT)
      && (ShouldEvict(w) <==> ShouldEvict(before))
  {
  }

  lemma InvProcess(s: Sys, ring: Ring, order: seq<SockKey>)
    requires Inv(s) && s.phase.Reading? && ring.Valid()
    requires forall i :: 0 <= i < |order| ==> order[i] in s.stream
    ensures Inv(DoProcess(s, ring, order))
  {
    var cache := Processed(s.cache, s.stream, StalenessUs(s), ring);
    forall k | k in cache ensures CpusOk(k, cache[k].agg.cpus, s.bpf.stats) && ContextOk(cache[k]) {
      ProcessedEntry(s.cache, s.stream, StalenessUs(s), ring, k);
    }
    assert ClearAllLevels(s.flows).Keys == s.flows.Keys;
    FlowFoldBounded(ClearAllLevels(s.flows), cache, DeltasOf(s.cache, s.stream), order);
  }

  /** Removing a socket's first listed core leaves everything else listed in place. */
  lemma RemoveOneOk(k: SockKey, cpus: seq<nat>, stats: map<CpuSockKey, SockStats>)
    requires CpusOk(k, cpus, stats) && cpus != []
    ensures var (key, stats') := (CpuSockKey(cpus[0], k), stats - {CpuSockKey(cpus[0], k)});
      && key in stats && stats'.Keys == stats.Keys - {key} && CpusOk(k, cpus[1..], stats')
      && (forall j, cs :: j != k && CpusOk(j, cs, stats) ==> CpusOk(j, cs, stats'))
  {
    var key := CpuSockKey(cpus[0], k);
    var stats' := stats - {key};
    assert cpus[0] in cpus;
    forall c | c in cpus[1..] ensures CpuSockKey(c, k) in stats' {
      var i :| 0 <= i < |cpus[1..]| && cpus[1..][i] == c;
      assert cpus[0] != cpus[i + 1];
    }
  }

  lemma InvRemove(s: Sys, k: SockKey)
    requires Inv(s) && s.phase.Removing? && k in s.toRemove
    ensures Inv(DoRemove(s, k))
  {
    if s.toRemove[k] != [] {
      RemoveOneOk(k, s.toRemove[k], s.bpf.stats);
    }
  }

  /** Every step keeps the invariant, whichever side takes it. */
  lemma InvStep(s: Sys, step: Step)
    requires Inv(s) && Enabled(s, step)
    ensures Inv(Do(s, step))
  {
    match step {
      case BpfEvent(e) => InvBpfEvent(s, e);
      case Absorb(key) => InvAbsorb(s, key);
      case Drop(key) => InvDrop(s, key);
      case Read(key) => InvRead(s, key);
      case Process(ring, order) => InvProcess(s, ring, order);
      case Remove(k) => InvRemove(s, k);
      case _ =>
    }
  }

  /** Safety over whole runs: however BPF events interleave with the steps of any number of cycles,
      the invariant holds throughout. In particular no removal from a BPF map ever fails, the maps
      and the flow table stay within their capacity, and cached cores are always present. */
  lemma {:induction false} RunKeepsInv(s: Sys, steps: seq<Step>)
    requires Inv(s) && Run(s, steps).Some?
    ensures Inv(Run(s, steps).value)
  {
    if steps != [] {
      var init := steps[..|steps| - 1];
      RunKeepsInv(s, init);
      InvStep(Run(s, init).value, steps[|steps| - 1]);
    }
  }

  // ---------------------------------------------------------------------------------------------
  // Cycles without interference
  // ---------------------------------------------------------------------------------------------

  /** The cores listed are exactly those with an entry for the socket. */
  ghost predicate ExactCpus(k: SockKey, cpus: seq<nat>, stats: map<CpuSockKey, SockStats>) {
    forall c :: c in cpus <==> CpuSockKey(c, k) in stats
  }

  /** Cache and statistics map agree. */
  ghost predicate InStep(s: Sys) {
    && (forall key :: key in s.bpf.stats ==> key.sock in s.cache)
    && (forall k :: k in s.cache ==> NoDup(s.cache[k].agg.cpus)
                                     && ExactCpus(k, s.cache[k].agg.cpus, s.bpf.stats))
  }

  /** The shards of one socket, in the order of the given cores. */
  function ShardsOf(stats: map<CpuSockKey, SockStats>, k: SockKey, cpus: seq<nat>): (xs: seq<SockStats>)
    requires forall c :: c in cpus ==> CpuSockKey(c, k) in stats
    ensures |xs| == |cpus| && forall i :: 0 <= i < |cpus| ==> xs[i] == stats[CpuSockKey(cpus[i], k)]
  {
    seq(|cpus|, i requires 0 <= i < |cpus| => stats[CpuSockKey(cpus[i], k)])
  }

  /** What was read of a socket is the merge of the shards of the listed cores. */
  ghost predicate IsMerge(k: SockKey, agg: AggSockStats, cache: Cache, stats: map<CpuSockKey, SockStats>) {
    && (forall c :: c in agg.cpus ==> CpuSockKey(c, k) in stats)
    && agg.stats == Merge(ShardsOf(stats, k, agg.cpus), LastTouchedOf(cache, k))
  }

  /** Everything but `todo` has been read: each socket's cores are listed once, and its statistics are
      the merge of their shards. */
  ghost predicate ReadAllBut(stream: Stream, cache: Cache, stats: map<CpuSockKey, SockStats>,
                             todo: set<CpuSockKey>) {
    && (forall key :: key in stats ==> key in todo || WasRead(stream, key))
    && (forall k :: k in stream ==> ReadOnce(k, stream[k], cache, stats, todo))
  }

  ghost predicate ReadOnce(k: SockKey, agg: AggSockStats, cache: Cache, stats: map<CpuSockKey, SockStats>,
                           todo: set<CpuSockKey>) {
    && agg.cpus != [] && NoDup(agg.cpus) && IsMerge(k, agg, cache, stats)
    && (forall c :: c in agg.cpus ==> CpuSockKey(c, k) !in todo)
  }

  ghost predicate QuietReading(s: Sys) {
    && (forall key :: key in s.bpf.stats ==> key in s.toRead || WasRead(s.stream, key))
    && (forall k :: k in s.stream ==> IsMerge(k, s.stream[k], s.cache, s.bpf.stats))
  }

  ghost predicate QuietRemoving(s: Sys) {
    && (forall key :: key in s.bpf.stats ==>
          key.sock in s.cache || (key.sock in s.toRemove && key.cpu in s.toRemove[key.sock]))
    && (forall k :: k in s.cache ==> ExactCpus(k, s.cache[k].agg.cpus, s.bpf.stats))
  }

  ghost predicate QuietInv(s: Sys) {
    s.quiet ==>
      && (s.phase.Idle? ==> InStep(s))
      && (s.phase.Reading? ==> QuietReading(s))
      && (s.phase.Removing? ==> QuietRemoving(s))
  }

  lemma ReadIntoMerges(stream: Stream, cache: Cache, key: CpuSockKey, stats: map<CpuSockKey, SockStats>)
    requires key in stats && IsMerge(key.sock, ReadSoFar(stream, key.sock), cache, stats)
    ensures IsMerge(key.sock, ReadInto(stream, cache, key, stats[key])[key.sock], cache, stats)
  {
    var agg, agg' := ReadSoFar(stream, key.sock), ReadInto(stream, cache, key, stats[key])[key.sock];
    var xs, xs' := ShardsOf(stats, key.sock, agg.cpus), ShardsOf(stats, key.sock, agg'.cpus);
    assert xs'[..|agg.cpus|] == xs;
  }

  lemma ReadOnceMore(stream: Stream, cache: Cache, stats: map<CpuSockKey, SockStats>,
                     todo: set<CpuSockKey>, key: CpuSockKey)
    requires key in stats && key in todo
    requires key.sock in stream ==> ReadOnce(key.sock, stream[key.sock], cache, stats, todo)
    ensures !WasRead(stream, key)
    ensures ReadOnce(key.sock, ReadInto(stream, cache, key, stats[key])[key.sock], cache, stats, todo - {key})
  {
    assert CpuSockKey(key.cpu, key.sock) == key;
    ReadIntoMerges(stream, cache, key, stats);
  }

  lemma ReadOthers(k: SockKey, agg: AggSockStats, cache: Cache, stats: map<CpuSockKey, SockStats>,
                   todo: set<CpuSockKey>, key: CpuSockKey)
    requires ReadOnce(k, agg, cache, stats, todo)
    ensures ReadOnce(k, agg, cache, stats, todo - {key})
  {
  }

  lemma ReadIntoEffect(stream: Stream, cache: Cache, key: CpuSockKey, s: SockStats)
    ensures var stream' := ReadInto(stream, cache, key, s);
      && stream'.Keys == stream.Keys + {key.sock} && WasRead(stream', key)
      && (forall k :: k in stream && k != key.sock ==> stream'[k] == stream[k])
      && (forall other :: WasRead(stream, other) ==> WasRead(stream', other))
  {
  }

  lemma ReadOneMore(stream: Stream, cache: Cache, stats: map<CpuSockKey, SockStats>,
                    todo: set<CpuSockKey>, key: CpuSockKey)
    requires ReadAllBut(stream, cache, stats, todo) && key in stats && key in todo
    ensures !WasRead(stream, key)
    ensures ReadAllBut(ReadInto(stream, cache, key, stats[key]), cache, stats, todo - {key})
  {
    ReadOnceMore(stream, cache, stats, todo, key);
    ReadIntoEffect(stream, cache, key, stats[key]);
    var stream' := ReadInto(stream, cache, key, stats[key]);
    forall k | k in stream' ensures ReadOnce(k, stream'[k], cache, stats, todo - {key}) {
      if k != key.sock {
        ReadOthers(k, stream[k], cache, stats, todo, key);
      }
    }
  }

  lemma QuietRead(s: Sys, key: CpuSockKey)
    requires QuietReading(s) && key in s.bpf.stats
    ensures QuietReading(DoRead(s, key))
  {
    ReadIntoMerges(s.stream, s.cache, key, s.bpf.stats);
    var s' := DoRead(s, key);
    forall key' | key' in s.bpf.stats ensures key' in s'.toRead || WasRead(s'.stream, key') {
      assert WasRead(s.stream, key') ==> WasRead(s'.stream, key');
    }
  }

  lemma QuietProcess(s: Sys, ring: Ring, order: seq<SockKey>)
    requires CacheOk(s.cache, s.bpf.stats) && StreamOk(s.stream, s.bpf.stats)
    requires QuietReading(s) && s.toRead == {} && ring.Valid()
    requires forall i :: 0 <= i < |order| ==> order[i] in s.stream
    ensures QuietRemoving(DoProcess(s, ring, order))
  {
    var stats := s.bpf.stats;
    var cache := Processed(s.cache, s.stream, StalenessUs(s), ring);
    forall k | k in cache ensures ExactCpus(k, cache[k].agg.cpus, stats) {
      ProcessedEntry(s.cache, s.stream, StalenessUs(s), ring, k);
      var cpus := cache[k].agg.cpus;
      assert CpusOk(k, cpus, stats);
      forall c | CpuSockKey(c, k) in stats ensures c in cpus {
        assert WasRead(s.stream, CpuSockKey(c, k));
      }
    }
    var s' := DoProcess(s, ring, order);
    forall key | key in stats
      ensures key.sock in s'.cache || (key.sock in s'.toRemove && key.cpu in s'.toRemove[key.sock])
    {
      assert WasRead(s.stream, key);
      ProcessedEntry(s.cache, s.stream, StalenessUs(s), ring, key.sock);
      assert ExactCpus(key.sock, cache[key.sock].agg.cpus, stats);
      assert CpuSockKey(key.cpu, key.sock) == key;
    }
  }

  /** Once a socket's first listed core is removed, the rest of the list covers what is left of it. */
  lemma RestCovers(k: SockKey, cpus: seq<nat>, stats: map<CpuSockKey, SockStats>, cpu: nat)
    requires cpus != [] && cpu in cpus && CpuSockKey(cpu, k) in stats - {CpuSockKey(cpus[0], k)}
    ensures cpu in cpus[1..]
  {
    var i :| 0 <= i < |cpus| && cpus[i] == cpu;
    assert cpus[1..][i - 1] == cpu;
  }

  lemma QuietRemove(s: Sys, k: SockKey)
    requires RemovalOk(s.toRemove, s.cache, s.bpf.stats)
    requires QuietRemoving(s) && k in s.toRemove
    ensures QuietRemoving(DoRemove(s, k))
  {
    var s', cpus := DoRemove(s, k), s.toRemove[k];
    assert CpusOk(k, cpus, s.bpf.stats);
    if cpus != [] {
      assert cpus[0] in cpus;
      forall key | key in s'.bpf.stats && key.sock == k ensures key.cpu in s'.toRemove[k] {
        assert key == CpuSockKey(key.cpu, k);
        RestCovers(k, cpus, s.bpf.stats, key.cpu);
      }
    }
  }

  lemma QuietInvRead(s: Sys, key: CpuSockKey)
    requires QuietInv(s) && s.phase.Reading? && key in s.bpf.stats
    ensures QuietInv(DoRead(s, key))
  {
    if s.quiet {
      QuietRead(s, key);
    }
  }

  lemma QuietInvProcess(s: Sys, ring: Ring, order: seq<SockKey>)
    requires CacheOk(s.cache, s.bpf.stats) && StreamOk(s.stream, s.bpf.stats)
    requires QuietInv(s) && s.phase.Reading? && s.toRead == {} && ring.Valid()
    requires forall i :: 0 <= i < |order| ==> order[i] in s.stream
    ensures QuietInv(DoProcess(s, ring, order))
  {
    if s.quiet {
      QuietProcess(s, ring, order);
    }
  }

  lemma QuietInvRemove(s: Sys, k: SockKey)
    requires RemovalOk(s.toRemove, s.cache, s.bpf.stats)
    requires QuietInv(s) && s.phase.Removing? && k in s.toRemove
    ensures QuietInv(DoRemove(s, k))
  {
    if s.quiet {
      QuietRemove(s, k);
    }
  }

  lemma QuietInvFinish(s: Sys)
    requires CacheOk(s.cache, s.bpf.stats)
    requires QuietInv(s) && s.phase.Removing? && s.toRemove == map[]
    ensures QuietInv(s.(phase := Idle))
  {
    if s.quiet {
      QuietFinish(s);
    }
  }

  lemma QuietStep(s: Sys, step: Step)
    requires Inv(s) && QuietInv(s) && Enabled(s, step)
    ensures QuietInv(Do(s, step))
  {
    match step {
      case Read(key) => QuietInvRead(s, key);
      case Process(ring, order) => QuietInvProcess(s, ring, order);
      case Remove(k) => QuietInvRemove(s, k);
      case Finish => QuietInvFinish(s);
      case _ => QuietOther(s, step);
    }
  }

  lemma QuietOther(s: Sys, step: Step)
    requires QuietInv(s) && Enabled(s, step) && (!s.phase.Reading? ==> s.stream == map[])
    requires !step.Read? && !step.Process? && !step.Remove? && !step.Finish?
    ensures QuietInv(Do(s, step))
  {
    match step {
      case BpfEvent(_) =>
      case Begin(_) =>
      case Absorb(_) =>
      case StopAbsorbing =>
      case Drop(_) =>
      case StartReading =>
      case TakeFlows =>
    }
  }

  lemma QuietFinish(s: Sys)
    requires CacheOk(s.cache, s.bpf.stats) && QuietRemoving(s) && s.toRemove == map[]
    ensures InStep(s)
  {
    forall k | k in s.cache ensures NoDup(s.cache[k].agg.cpus) {
      assert CpusOk(k, s.cache[k].agg.cpus, s.bpf.stats);
    }
  }

  lemma {:induction false} RunKeepsQuietInv(s: Sys, steps: seq<Step>)
    requires Inv(s) && QuietInv(s) && Run(s, steps).Some?
    ensures QuietInv(Run(s, steps).value)
  {
    if steps != [] {
      var init := steps[..|steps| - 1];
      RunKeepsInv(s, init);
      RunKeepsQuietInv(s, init);
      QuietStep(Run(s, init).value, steps[|steps| - 1]);
    }
  }

  /** From start-up, over every run: no BPF removal has failed; and whenever a cycle has completed
      with no BPF event since it began, every socket in the statistics map is cached, with exactly
      the cores it has in the map. Events before, between and after cycles are unrestricted. */
  lemma CacheAndMapStayInStep(propsCap: nat, statsCap: nat, maxSocks: nat, notrackUs: nat, steps: seq<Step>)
    requires Run(Start(propsCap, statsCap, maxSocks, notrackUs), steps).Some?
    ensures var s := Run(Start(propsCap, statsCap, maxSocks, notrackUs), steps).value;
      && Inv(s) && s.evictionFailed == 0
      && (s.phase.Idle? && s.quiet ==> InStep(s))
  {
    RunKeepsInv(Start(propsCap, statsCap, maxSocks, notrackUs), steps);
    RunKeepsQuietInv(Start(propsCap, statsCap, maxSocks, notrackUs), steps);
  }

  /** Inside a cycle a socket that was read is in the cache when flows are built. */
  lemma ReadSocketsAreCached(s: Sys, ring: Ring, k: SockKey)
    requires Inv(s) && ring.Valid() && k in s.stream
    ensures var cache := Processed(s.cache, s.stream, StalenessUs(s), ring);
      k in cache && forall flows :: Judge(flows, cache, k) != NotCached
    ensures FlagsOk(DeltasOf(s.cache, s.stream)[k].stats)
  {
    ProcessedEntry(s.cache, s.stream, StalenessUs(s), ring, k);
    assert FlagsOk(s.stream[k].stats);
  }

  /** In every reachable cycle: each socket read is credited, lacks usable endpoints or meets a full
      table, never missing from the cache; and after the cycle the four levels over all flows count
      exactly the credited sockets, the closed level those of them flagged closed. */
  lemma CycleAccountsForEverySocket(s: Sys, ring: Ring, order: seq<SockKey>, cache: Cache, deltas: Stream)
    requires Inv(s) && ring.Valid() && Visits(order, s.stream.Keys)
    requires cache == Processed(s.cache, s.stream, StalenessUs(s), ring)
    requires deltas == DeltasOf(s.cache, s.stream)
    ensures forall k :: k in deltas ==> forall flows :: Judge(flows, cache, k) != NotCached
    ensures var (start, t) := (ClearAllLevels(s.flows), DoProcess(s, ring, order));
      var r := FoldCounts(start, cache, deltas, order);
      && r.completed + r.partial + r.failed == |s.stream|
      && FlowTotal(t.flows, Levels) == r.completed
      && FlowTotal(t.flows, LevelClosed) == CreditedClosed(start, cache, deltas, order)
      && |t.flows| <= AGG_FLOWS_MAX_ENTRIES
  {
    assert deltas.Keys == s.stream.Keys;
    forall k | k in deltas
      ensures FlagsOk(deltas[k].stats) && forall flows :: Judge(flows, cache, k) != NotCached
    {
      ReadSocketsAreCached(s, ring, k);
    }
    AggregationAccountsForEverySocket(s.flows, cache, deltas, order);
    assert DoProcess(s, ring, order).flows == FlowFold(ClearAllLevels(s.flows), cache, deltas, order);
  }

  // ---------------------------------------------------------------------------------------------
  // What the times, the endpoints and the flows are, in plain terms
  // ---------------------------------------------------------------------------------------------

  /** A context taken in counts as touched half the tracking time ago, so that statistics have the other
      half to appear; never before the epoch. */
  lemma AbsorbedTimestamp(s: Sys, key: CpuSockKey)
    requires key in s.bpf.props && (key.sock in s.cache || |s.cache| < s.maxSocks)
    ensures var t := DoAbsorb(s, key);
      && key.sock in t.cache && t.cache[key.sock].context == s.bpf.props[key]
      && var touched := t.cache[key.sock].agg.stats.lastTouchedUs;
         if s.nowUs >= s.notrackUs / 2 then touched + s.notrackUs / 2 == s.nowUs else touched == 0
  {
    AbsorbedEntry(s.cache, s.maxSocks, key.sock, s.bpf.props[key], SatSub(s.nowUs, s.notrackUs / 2));
  }

  /** Stale means untouched for the whole tracking time, or never touched. */
  lemma StaleIff(touchedUs: nat, nowUs: nat, notrackUs: nat)
    ensures touchedUs <= SatSub(nowUs, notrackUs) <==> touchedUs + notrackUs <= nowUs || touchedUs == 0
  {
  }

  /** What an undisturbed read reports as round-trip times comes from exactly the cores touched at or after
      the time the cache had for the socket; from all of them if the socket is new. */
  lemma ReadRttIsFresh(s: Sys, k: SockKey)
    requires QuietReading(s) && k in s.stream
    ensures var (agg, since) := (s.stream[k], if k in s.cache then s.cache[k].agg.stats.lastTouchedUs else 0);
      && (forall c :: c in agg.cpus ==> CpuSockKey(c, k) in s.bpf.stats)
      && LeastFreshRtt(ShardsOf(s.bpf.stats, k, agg.cpus), since, agg.stats.rttLatestUs)
      && GreatestFreshRtt(ShardsOf(s.bpf.stats, k, agg.cpus), since, agg.stats.rttSmoothedUs)
  {
    assert IsMerge(k, s.stream[k], s.cache, s.bpf.stats);
    MergeRtt(ShardsOf(s.bpf.stats, k, s.stream[k].cpus), LastTouchedOf(s.cache, k));
  }

  /** Where a socket's traffic goes after processing: to the endpoints beyond NAT that were attached before,
      or that the ring resolves now, or else to its own. */
  lemma ProcessedGoesTo(cache: Cache, stream: Stream, stalenessUs: nat, ring: Ring, k: SockKey, p: FlowProperties)
    requires ring.Valid() && (k in cache || k in stream)
    ensures k in Processed(cache, stream, stalenessUs, ring)
    ensures GoesTo(Processed(cache, stream, stalenessUs, ring)[k], p) <==>
      if k !in cache then FlowOf(NO_CONTEXT) == Some(p)
      else if cache[k].contextExternal.Some? then FlowOf(cache[k].contextExternal.value) == Some(p)
      else match Resolve(ring, cache[k].context)
           case Known(c) => FlowOf(c) == Some(p)
           case _ => FlowOf(cache[k].context) == Some(p)
  {
    AttachedContext(ring, WrapperAfter(cache, stream, stalenessUs, k));
  }

  /** Flow by flow, in every reachable cycle: a flow's metric grows by exactly the contributions of the
      sockets whose endpoints give that flow, less what its own field loses; a flow left out had no socket,
      or the table is full. */
  lemma CycleCreditsFlows(s: Sys, ring: Ring, order: seq<SockKey>, cache: Cache, deltas: Stream,
                          p: FlowProperties, m: Metric)
    requires ring.Valid() && Visits(order, s.stream.Keys) && IsFlowMetric(m)
    requires cache == Processed(s.cache, s.stream, StalenessUs(s), ring) && deltas == DeltasOf(s.cache, s.stream)
    ensures forall i :: 0 <= i < |order| ==> order[i] in deltas && order[i] in cache
    ensures var (start, t) := (ClearAllLevels(s.flows), DoProcess(s, ring, order));
      && (p in t.flows ==>
            FlowValue(t.flows[p], m) + OwnLost(FlowAt(start, p), cache, deltas, order, p, m)
            == FlowValue(FlowAt(start, p), m) + SumTo(cache, deltas, order, p, m))
      && (p !in t.flows ==>
            p !in s.flows && (AnyGoesTo(cache, order, p) ==> |t.flows| >= AGG_FLOWS_MAX_ENTRIES))
  {
    assert cache.Keys == s.cache.Keys + s.stream.Keys && deltas.Keys == s.stream.Keys;
    FlowGetsItsSockets(ClearAllLevels(s.flows), cache, deltas, order, p, m);
    assert DoProcess(s, ring, order).flows == FlowFold(ClearAllLevels(s.flows), cache, deltas, order);
  }
}
