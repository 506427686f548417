/** The controller's cache of sockets (nfm-controller/src/events/sock_cache.rs). */
module SockCacheModel {
  import opened Arith
  import opened SockStatsModel
  import opened SockContextModel

  type SockKey = nat

  datatype AggSockStats = AggSockStats(stats: SockStats, cpus: seq<nat>)

  datatype SockWrapper = SockWrapper(
    context: SockContext, contextExternal: Option<SockContext>, agg: AggSockStats,
    isStale: bool, isComplete: bool, cyclesNotFullyInitialized: Option<nat>)

  type Cache = map<SockKey, SockWrapper>
  type Stream = map<SockKey, AggSockStats>

  datatype OpResult = OpResult(completed: nat, partial: nat, failed: nat) {
    function Add(other: OpResult): OpResult {
      OpResult(completed + other.completed, partial + other.partial, failed + other.failed)
    }
  }

  const NOTHING_DONE: OpResult := OpResult(0, 0, 0)

  function NewWrapper(context: SockContext, agg: AggSockStats): SockWrapper {
    SockWrapper(context, None, agg, false, false, Some(0))
  }

  function UpdateContext(w: SockWrapper, context: SockContext, nowUs: nat): SockWrapper {
    SockWrapper(
      context, None, w.agg.(stats := w.agg.stats.(lastTouchedUs := nowUs)), false, false,
      if !IsValid(w.context) && IsValid(context) then None else w.cyclesNotFullyInitialized)
  }

  predicate StaleAt(w: SockWrapper, stalenessUs: nat) { w.agg.stats.lastTouchedUs <= stalenessUs }

  function UpdateStatus(w: SockWrapper, stalenessUs: nat): SockWrapper {
    if IsValid(w.context) then
      w.(isStale := StaleAt(w, stalenessUs),
         cyclesNotFullyInitialized := None,
         isComplete := IsClosed(w.agg.stats))
    else
      w.(isStale := StaleAt(w, stalenessUs),
         cyclesNotFullyInitialized :=
           (match w.cyclesNotFullyInitialized
            case Some(cycles) => Some(SatAdd(cycles, 1, U8))
            case None => Some(0)),
         isComplete := false)
  }

  /** The lighter status update of a socket with no statistics this round. */
  function UpdateAbsent(w: SockWrapper, stalenessUs: nat): SockWrapper {
    w.(isStale := StaleAt(w, stalenessUs),
       cyclesNotFullyInitialized :=
         (match w.cyclesNotFullyInitialized
          case Some(cycles) => Some(SatAdd(cycles, 1, U8))
          case None => None))
  }

  predicate ShouldEvict(w: SockWrapper) {
    w.isComplete || w.isStale
    || (w.cyclesNotFullyInitialized.Some? && w.cyclesNotFullyInitialized.value > 1)
  }

  function LastTouchedOf(cache: Cache, k: SockKey): nat {
    if k in cache then cache[k].agg.stats.lastTouchedUs else 0
  }

  // ---------------------------------------------------------------------------------------------
  // What the cache operations compute, whatever order the hash maps are walked in
  // ---------------------------------------------------------------------------------------------

  predicate AddContextFails(cache: Cache, maxEntries: nat, k: SockKey) {
    k !in cache && |cache| >= maxEntries
  }

  function AddContextTo(cache: Cache, maxEntries: nat, k: SockKey, context: SockContext, nowUs: nat)
    : Cache
  {
    if k in cache then cache[k := UpdateContext(cache[k], context, nowUs)]
    else if AddContextFails(cache, maxEntries, k) then cache
    else cache[k := NewWrapper(context, AggSockStats(DEFAULT.(lastTouchedUs := nowUs), []))]
  }

  function Find(cache: Cache, k: SockKey): Option<SockWrapper> {
    if k in cache then Some(cache[k]) else None
  }

  /** The entry after storing incoming statistics over what was cached before, if anything. */
  function Stored(prior: Option<SockWrapper>, incoming: AggSockStats, stalenessUs: nat): SockWrapper {
    match prior
    case Some(w) => UpdateStatus(w.(agg := incoming), stalenessUs)
    case None => UpdateStatus(NewWrapper(NO_CONTEXT, incoming), stalenessUs)
  }

  /** The change since what was cached before; the whole amount when nothing was. */
  function Delta(prior: Option<SockWrapper>, incoming: AggSockStats): AggSockStats {
    match prior
    case Some(w) => incoming.(stats := Subtract(incoming.stats, w.agg.stats))
    case None => incoming
  }

  function WrapperAfter(cache: Cache, incoming: Stream, stalenessUs: nat, k: SockKey): SockWrapper
    requires k in cache || k in incoming
  {
    if k in incoming then Stored(Find(cache, k), incoming[k], stalenessUs)
    else UpdateAbsent(cache[k], stalenessUs)
  }

  function CacheAfter(cache: Cache, incoming: Stream, stalenessUs: nat): Cache {
    map k | k in cache.Keys + incoming.Keys :: WrapperAfter(cache, incoming, stalenessUs, k)
  }

  function StoredAll(cache: Cache, incoming: Stream, stalenessUs: nat): Cache {
    map k | k in incoming :: Stored(Find(cache, k), incoming[k], stalenessUs)
  }

  function DeltasOf(cache: Cache, incoming: Stream): Stream {
    map k | k in incoming :: Delta(Find(cache, k), incoming[k])
  }

  function CountFor(cached: bool, size: nat, maxEntries: nat): OpResult {
    if cached then OpResult(1, 0, 0)
    else if size < maxEntries then OpResult(0, 1, 0) else OpResult(0, 0, 1)
  }

  /** Completed: sockets already cached. New ones are partial while the cache is below capacity
      and failed from then on. */
  function DeltaCounts(old_: set<SockKey>, incoming: set<SockKey>, maxEntries: nat): (r: OpResult)
    ensures r.completed + r.partial + r.failed == |incoming|
    ensures r.completed == |old_ * incoming|
    ensures |old_| + r.partial <= maxEntries || r.partial == 0
    ensures r.failed > 0 ==> |old_| + r.partial >= maxEntries
  {
    var new_ := |incoming - old_|;
    assert incoming == (old_ * incoming) + (incoming - old_);
    var partial := Min(new_, Max(0, maxEntries - |old_|));
    OpResult(|old_ * incoming|, partial, new_ - partial)
  }

  function Kept(cache: Cache): Cache {
    map k | k in cache && !ShouldEvict(cache[k]) :: cache[k]
  }

  function Evicted(cache: Cache): Cache {
    map k | k in cache && ShouldEvict(cache[k]) :: cache[k]
  }

  // ---------------------------------------------------------------------------------------------
  // What becomes of one entry
  // ---------------------------------------------------------------------------------------------

  /** Taking in a context: a new socket is let in exactly while the cache is below capacity; in any case
      the context is the new one, endpoints beyond NAT are forgotten, the entry is fresh and open and
      touched at the given time, and nothing else of a known socket changes. */
  lemma AbsorbedEntry(cache: Cache, maxEntries: nat, k: SockKey, context: SockContext, nowUs: nat)
    ensures var cache' := AddContextTo(cache, maxEntries, k, context, nowUs);
      && (k in cache' <==> k in cache || |cache| < maxEntries)
      && (forall j :: j != k ==> (j in cache' <==> j in cache) && (j in cache ==> cache'[j] == cache[j]))
      && (k in cache' ==>
            && cache'[k].context == context && cache'[k].contextExternal.None?
            && !cache'[k].isStale && !cache'[k].isComplete
            && cache'[k].agg.stats.lastTouchedUs == nowUs
            && cache'[k].agg.cpus == (if k in cache then cache[k].agg.cpus else [])
            && cache'[k].agg.stats.(lastTouchedUs := 0)
               == (if k in cache then cache[k].agg.stats.(lastTouchedUs := 0) else DEFAULT))
  {
  }

  /** An entry whose socket was read: the statistics are those read, it is stale by its timestamp, and
      with a valid context it is complete exactly when flagged closed. */
  lemma StoredEntry(prior: Option<SockWrapper>, incoming: AggSockStats, stalenessUs: nat)
    ensures var w := Stored(prior, incoming, stalenessUs);
      && w.agg == incoming
      && (w.isStale <==> incoming.stats.lastTouchedUs <= stalenessUs)
      && w.context == (if prior.Some? then prior.value.context else NO_CONTEXT)
      && w.contextExternal == (if prior.Some? then prior.value.contextExternal else None)
      && (w.isComplete <==> prior.Some? && IsValid(prior.value.context) && Closed in incoming.stats.flags)
  {
  }

  /** An entry whose socket was not read: only its staleness and its age change. */
  lemma AbsentEntry(w: SockWrapper, stalenessUs: nat)
    ensures var w' := UpdateAbsent(w, stalenessUs);
      && (w'.isStale <==> w.agg.stats.lastTouchedUs <= stalenessUs)
      && w' == w.(isStale := w'.isStale, cyclesNotFullyInitialized := w'.cyclesNotFullyInitialized)
      && (w'.cyclesNotFullyInitialized.Some? <==> w.cyclesNotFullyInitialized.Some?)
  {
  }

  // ---------------------------------------------------------------------------------------------
  // The mutable cache
  // ---------------------------------------------------------------------------------------------

  class SockCache {
    var cache: Cache
    const maxEntries: nat

    constructor (max: nat)
      ensures cache == map[] && maxEntries == max
    {
      cache := map[];
      maxEntries := max;
    }

    method AddContext(k: SockKey, context: SockContext, nowUs: nat) returns (r: OpResult)
      modifies this
      ensures cache == AddContextTo(old(cache), maxEntries, k, context, nowUs)
      ensures r == if k in old(cache) then OpResult(0, 1, 0)
                   else if AddContextFails(old(cache), maxEntries, k) then OpResult(0, 0, 1)
                   else OpResult(1, 0, 0)
    {
      var numSocks := |cache|;
      if k in cache {
        cache := cache[k := UpdateContext(cache[k], context, nowUs)];
        r := OpResult(0, 1, 0);
      } else if numSocks < maxEntries {
        var stats := DEFAULT.(lastTouchedUs := nowUs);
        cache := cache[k := NewWrapper(context, AggSockStats(stats, []))];
        r := OpResult(1, 0, 0);
      } else {
        r := OpResult(0, 0, 1);
      }
    }

    /** Stores the latest statistics and turns the given ones into deltas. Every new socket is
        inserted, above the intended capacity too; only the counts tell the difference. */
    method UpdateStatsAndGetDeltas(incoming: Stream, stalenessUs: nat)
      returns (deltas: Stream, r: OpResult)
      modifies this
      ensures cache == CacheAfter(old(cache), incoming, stalenessUs)
      ensures deltas == DeltasOf(old(cache), incoming)
      ensures r == DeltaCounts(old(cache).Keys, incoming.Keys, maxEntries)
    {
      deltas, r := StoreIncoming(incoming, stalenessUs);
      UpdateAbsentSockets(incoming.Keys, stalenessUs);
    }

    /** The loop over the incoming statistics, which overwrites them with deltas as it goes. */
    method StoreIncoming(incoming: Stream, stalenessUs: nat) returns (deltas: Stream, r: OpResult)
      modifies this
      ensures cache == UpTo(old(cache), StoredAll(old(cache), incoming, stalenessUs), incoming.Keys)
      ensures deltas == DeltasOf(old(cache), incoming)
      ensures r == DeltaCounts(old(cache).Keys, incoming.Keys, maxEntries)
    {
      ghost var before := cache;
      ghost var target := StoredAll(before, incoming, stalenessUs);
      ghost var targetDeltas := DeltasOf(before, incoming);
      deltas := incoming;
      r := NOTHING_DONE;
      var todo := incoming.Keys;
      ghost var done: set<SockKey> := {};
      CountNone(before.Keys, maxEntries);
      UpToNone(before, target);
      UpToNone(incoming, targetDeltas);
      while todo != {}
        invariant todo <= incoming.Keys && done == incoming.Keys - todo
        invariant cache == UpTo(before, target, done)
        invariant deltas == UpTo(incoming, targetDeltas, done)
        invariant r == DeltaCounts(before.Keys, done, maxEntries)
        decreases todo
      {
        var k :| k in todo;
        DoneStep(incoming.Keys, todo, k);
        UpToStep(before, target, done, k);
        UpToStep(incoming, targetDeltas, done, k);
        CountOne(before.Keys, done, k, maxEntries);
        var delta, one := StoreOne(k, deltas[k], stalenessUs);
        deltas := deltas[k := delta];
        r := r.Add(one);
        todo := todo - {k};
        done := done + {k};
      }
      assert done == incoming.Keys;
      UpToAll(incoming, targetDeltas);
    }

    /** One incoming socket: an occupied or a vacant cache entry. */
    method StoreOne(k: SockKey, incoming: AggSockStats, stalenessUs: nat)
      returns (delta: AggSockStats, r: OpResult)
      modifies this
      ensures cache == old(cache)[k := Stored(Find(old(cache), k), incoming, stalenessUs)]
      ensures delta == Delta(Find(old(cache), k), incoming)
      ensures r == CountFor(k in old(cache), |old(cache)|, maxEntries)
    {
      var numSocks := |cache|;
      delta := incoming;
      if k in cache {
        var w := cache[k];
        delta := delta.(stats := Subtract(incoming.stats, w.agg.stats));
        w := w.(agg := w.agg.(stats := incoming.stats, cpus := incoming.cpus));
        cache := cache[k := UpdateStatus(w, stalenessUs)];
        r := OpResult(1, 0, 0);
      } else {
        r := if numSocks < maxEntries then OpResult(0, 1, 0) else OpResult(0, 0, 1);
        var w := NewWrapper(NO_CONTEXT, AggSockStats(incoming.stats, incoming.cpus));
        cache := cache[k := UpdateStatus(w, stalenessUs)];
      }
    }

    /** The loop over the sockets not represented in this round of statistics. */
    method UpdateAbsentSockets(present: set<SockKey>, stalenessUs: nat)
      modifies this
      ensures cache.Keys == old(cache).Keys
      ensures forall k :: k in cache ==>
        cache[k] == if k in present then old(cache)[k] else UpdateAbsent(old(cache)[k], stalenessUs)
    {
      ghost var before := cache;
      var todo := cache.Keys;
      while todo != {}
        invariant todo <= cache.Keys == before.Keys
        invariant forall k :: k in before ==>
          cache[k] == if k in todo || k in present then before[k]
                      else UpdateAbsent(before[k], stalenessUs)
        decreases todo
      {
        var k :| k in todo;
        if k !in present {
          var w := cache[k];
          w := w.(isStale := w.agg.stats.lastTouchedUs <= stalenessUs);
          if w.cyclesNotFullyInitialized.Some? {
            w := w.(cyclesNotFullyInitialized :=
                      Some(SatAdd(w.cyclesNotFullyInitialized.value, 1, U8)));
          }
          assert w == UpdateAbsent(cache[k], stalenessUs);
          cache := cache[k := w];
        }
        todo := todo - {k};
      }
    }

    /** Removes and returns what must go, with the number of stale entries seen. */
    method PerformEviction() returns (evicted: Cache, numStale: nat)
      modifies this
      ensures cache == Kept(old(cache)) && evicted == Evicted(old(cache))
      ensures numStale == |set k | k in old(cache) && old(cache)[k].isStale|
      ensures cache.Keys !! evicted.Keys && cache.Keys + evicted.Keys == old(cache).Keys
    {
      ghost var before := cache;
      var todo := cache.Keys;
      evicted := map[];
      numStale := 0;
      ghost var stale: set<SockKey> := {};
      while todo != {}
        invariant todo <= before.Keys
        invariant cache == map k | k in before && (k in todo || !ShouldEvict(before[k])) :: before[k]
        invariant evicted == map k | k in before && k !in todo && ShouldEvict(before[k]) :: before[k]
        invariant stale == set k | k in before && k !in todo && before[k].isStale
        invariant numStale == |stale|
        decreases todo
      {
        var k :| k in todo;
        var w := cache[k];
        if w.isStale {
          numStale := numStale + 1;
          stale := stale + {k};
        }
        if ShouldEvict(w) {
          evicted := evicted[k := w];
          cache := cache - {k};
        }
        todo := todo - {k};
      }
      assert stale == set k | k in before && before[k].isStale;
    }
  }

  /** A map overwritten by `target` on the keys done so far: the invariant of the loops that update
      a hash map while walking another in an arbitrary order. */
  ghost function UpTo<K, V>(m: map<K, V>, target: map<K, V>, done: set<K>): map<K, V>
    requires done <= target.Keys
  {
    map k | k in m.Keys + done :: if k in done then target[k] else m[k]
  }

  lemma DoneStep<K>(all: set<K>, todo: set<K>, k: K)
    requires todo <= all && k in todo
    ensures (all - todo) + {k} == all - (todo - {k})
  {
  }

  lemma UpToNone<K, V>(m: map<K, V>, target: map<K, V>)
    ensures UpTo(m, target, {}) == m
  {
  }

  lemma UpToStep<K, V>(m: map<K, V>, target: map<K, V>, done: set<K>, k: K)
    requires done <= target.Keys && k in target && k !in done
    ensures UpTo(m, target, done).Keys == m.Keys + done
    ensures k in m ==> UpTo(m, target, done)[k] == m[k]
    ensures UpTo(m, target, done)[k := target[k]] == UpTo(m, target, done + {k})
  {
  }

  lemma UpToAll<K, V>(m: map<K, V>, target: map<K, V>)
    requires m.Keys == target.Keys
    ensures UpTo(m, target, target.Keys) == target
  {
  }

  lemma CountNone(old_: set<SockKey>, maxEntries: nat)
    ensures DeltaCounts(old_, {}, maxEntries) == NOTHING_DONE
  {
    assert old_ * {} == {};
    assert {} - old_ == {};
  }

  /** One more incoming socket adds one to the right count, judged by the cache size at that time. */
  lemma CountOne(old_: set<SockKey>, done: set<SockKey>, k: SockKey, maxEntries: nat)
    requires k !in done
    ensures DeltaCounts(old_, done, maxEntries).Add(CountFor(k in old_, |old_ + done|, maxEntries))
         == DeltaCounts(old_, done + {k}, maxEntries)
  {
    if k in old_ {
      assert old_ * (done + {k}) == (old_ * done) + {k};
      assert (done + {k}) - old_ == done - old_;
    } else {
      assert old_ * (done + {k}) == old_ * done;
      assert (done + {k}) - old_ == (done - old_) + {k};
      assert old_ + done == old_ + (done - old_);
    }
  }
}
