/** A run in which one socket is counted twice as severed while connecting
    (`update_sock_counters` of nfm-controller/src/events/network_event.rs). A passive connection goes
    from SYN_RECV straight to FIN_WAIT1 and stays there over two aggregation cycles. */
module SeveredTwice {
  import opened Arith
  import opened SockStatsModel
  import opened SockContextModel
  import opened SockOps
  import opened SockCacheModel
  import opened Flows
  import opened NatModel
  import opened Pipeline
  import opened Audit

  const BPF_TCP_FIN_WAIT1: nat := 5
  const SOCK: nat := 7
  const KEY: CpuSockKey := CpuSockKey(0, SOCK)
  const NOTRACK_US: nat := 1000

  const CONTEXT: SockContext := NO_CONTEXT.(localPort := 80, remotePort := 5000, addressFamily := AF_INET)

  const OPENED: Event :=
    Event(0, SOCK, 10, PassiveEstablished, BPF_TCP_SYN_RECV, 0, 0, KernelStats(0, 0, 0, 0, 0), CONTEXT, true)

  const SEVERED: Event :=
    Event(0, SOCK, 20, StateCb, BPF_TCP_FIN_WAIT1, BPF_TCP_SYN_RECV, BPF_TCP_FIN_WAIT1,
          KernelStats(0, 0, 0, 0, 0), CONTEXT, true)

  /** The statistics that the two events leave. */
  const ENTRY: SockStats :=
    DEFAULT.(lastTouchedUs := 20, connectStartUs := 10, flags := {StartedClosure, TerminatedFromSyn})

  /** State and books after some steps. */
  ghost predicate Reached(s0: Sys, steps: seq<Step>, t: Sys, a: Books) {
    && Run(s0, steps) == Some(t) && BooksOf(SeveredConnect, s0, steps) == a
    && WellFormed(a) && a.metric == SeveredConnect
  }

  lemma Next(s0: Sys, steps: seq<Step>, t: Sys, a: Books, step: Step)
    requires Reached(s0, steps, t, a) && Enabled(t, step)
    ensures Reached(s0, steps + [step], Do(t, step), Book(a, t, step))
  {
    assert (steps + [step])[..|steps|] == steps;
    BookKeepsMetric(a, t, step);
  }

  lemma Lands(s0: Sys, steps: seq<Step>, t: Sys, a: Books, e: Event)
    requires Reached(s0, steps, t, a)
    ensures Reached(s0, steps + [BpfEvent(e)], t.(bpf := HandleEvent(t.bpf, e), quiet := false), a)
  {
    Next(s0, steps, t, a, BpfEvent(e));
  }

  lemma Begins(s0: Sys, steps: seq<Step>, t: Sys, a: Books, nowUs: nat)
    requires Reached(s0, steps, t, a) && t.phase.Idle?
    ensures Reached(s0, steps + [Begin(nowUs)],
                    t.(phase := Absorbing, nowUs := nowUs, toAbsorb := t.bpf.props.Keys, toDrop := {}, quiet := true), a)
  {
    Next(s0, steps, t, a, Begin(nowUs));
  }

  lemma Absorbs(s0: Sys, steps: seq<Step>, t: Sys, a: Books)
    requires Reached(s0, steps, t, a) && t.phase.Absorbing? && KEY in t.bpf.props && KEY !in t.toDrop
    ensures Reached(s0, steps + [Absorb(KEY)], DoAbsorb(t, KEY), BookAbsorb(a, t, KEY))
  {
    Next(s0, steps, t, a, Absorb(KEY));
  }

  lemma StopsAbsorbing(s0: Sys, steps: seq<Step>, t: Sys, a: Books)
    requires Reached(s0, steps, t, a) && t.phase.Absorbing? && t.toAbsorb == {}
    ensures Reached(s0, steps + [StopAbsorbing], t.(phase := Dropping), a)
  {
    Next(s0, steps, t, a, StopAbsorbing);
  }

  lemma Drops(s0: Sys, steps: seq<Step>, t: Sys, a: Books)
    requires Reached(s0, steps, t, a) && t.phase.Dropping? && KEY in t.toDrop
    ensures Reached(s0, steps + [Drop(KEY)], DoDrop(t, KEY), a)
  {
    Next(s0, steps, t, a, Drop(KEY));
  }

  lemma StartsReading(s0: Sys, steps: seq<Step>, t: Sys, a: Books)
    requires Reached(s0, steps, t, a) && t.phase.Dropping? && t.toDrop == {}
    ensures Reached(s0, steps + [StartReading], t.(phase := Reading, toRead := t.bpf.stats.Keys), a)
  {
    Next(s0, steps, t, a, StartReading);
  }

  lemma Reads(s0: Sys, steps: seq<Step>, t: Sys, a: Books)
    requires Reached(s0, steps, t, a) && t.phase.Reading? && KEY in t.bpf.stats && !WasRead(t.stream, KEY)
    ensures Reached(s0, steps + [Read(KEY)], DoRead(t, KEY), a)
  {
    Next(s0, steps, t, a, Read(KEY));
  }

  lemma Processes(s0: Sys, steps: seq<Step>, t: Sys, a: Books, order: seq<SockKey>)
    requires Reached(s0, steps, t, a) && t.phase.Reading? && t.toRead == {} && StreamInRange(t.stream)
    requires NatReady(t, EMPTY_RING) && Visits(order, t.stream.Keys)
    ensures Reached(s0, steps + [Process(EMPTY_RING, order)], DoProcess(t, EMPTY_RING, order),
                    BookProcess(a, t, EMPTY_RING, order))
  {
    Next(s0, steps, t, a, Process(EMPTY_RING, order));
  }

  lemma Finishes(s0: Sys, steps: seq<Step>, t: Sys, a: Books)
    requires Reached(s0, steps, t, a) && t.phase.Removing? && t.toRemove == map[]
    ensures Reached(s0, steps + [Finish], t.(phase := Idle), a)
  {
    Next(s0, steps, t, a, Finish);
  }

  // --- The two events ---

  lemma EventsHandled(b: Bpf)
    requires b.props == map[] && b.stats == map[] && b.propsCap == 1 && b.statsCap == 1
    ensures var c := HandleEvent(HandleEvent(b, OPENED), SEVERED);
      c.props == map[KEY := CONTEXT] && c.stats == map[KEY := ENTRY]
  {
    var mid := HandleEvent(b, OPENED);
    assert KeyOf(OPENED) == KEY && KeyOf(SEVERED) == KEY;
    assert mid.stats == map[KEY := DEFAULT.(lastTouchedUs := 10, connectStartUs := 10)];
    assert mid.props == map[KEY := CONTEXT];
    assert StateChangeFlags(BPF_TCP_SYN_RECV, BPF_TCP_FIN_WAIT1) == {StartedClosure, TerminatedFromSyn};
    assert {} + {StartedClosure, TerminatedFromSyn} == {StartedClosure, TerminatedFromSyn};
    assert UpdateEntry(SEVERED, mid.stats[KEY]) == ENTRY;
  }

  // --- One read of the socket, once it is cached ---

  /** The socket is cached with its own context, its entry is still in the map, and each cycle so far has
      added one flow at most. */
  ghost predicate Cached(t: Sys, a: Books, cycles: nat)
    requires WellFormed(a)
  {
    && t.bpf.stats == map[KEY := ENTRY] && t.stream == map[] && t.toDrop == {}
    && t.cache.Keys == {SOCK} && IsValid(t.cache[SOCK].context) && t.cache[SOCK].contextExternal.None?
    && t.nowUs <= t.notrackUs && |t.flows| <= cycles && a.current.Keys == {SOCK}
  }

  const READ: Stream := map[SOCK := AggSockStats(ENTRY, [0])]

  lemma EntryAddsToNothing(lastAgg: nat)
    ensures AddFrom(DEFAULT, ENTRY, lastAgg) == ENTRY
  {
    assert DEFAULT.flags + ENTRY.flags == ENTRY.flags;
  }

  lemma EntryInRange()
    ensures InRange(ENTRY)
  {
    forall f ensures Ctr(ENTRY, f) < Width(f) {
      assert Ctr(ENTRY, f) == 0;
    }
  }

  lemma FirstRead(cache: Cache, key: CpuSockKey, s: SockStats)
    requires AddFrom(DEFAULT, s, LastTouchedOf(cache, key.sock)) == s
    ensures ReadInto(map[], cache, key, s) == map[key.sock := AggSockStats(s, [key.cpu])]
  {
    var none: Stream := map[];
    assert ReadSoFar(none, key.sock) == AggSockStats(DEFAULT, []);
    assert [] + [key.cpu] == [key.cpu];
  }

  lemma ReadsEntry(cache: Cache)
    ensures ReadInto(map[], cache, KEY, ENTRY) == READ
  {
    EntryAddsToNothing(LastTouchedOf(cache, SOCK));
    FirstRead(cache, KEY, ENTRY);
  }

  lemma EmptyRingKnowsNothing(c: SockContext)
    ensures Resolve(EMPTY_RING, c).Unknown?
  {
  }

  /** What processing makes of the entry: not closed, not stale, hence kept. */
  lemma EntryIsKept(cache: Cache)
    requires cache.Keys == {SOCK} && IsValid(cache[SOCK].context) && cache[SOCK].contextExternal.None?
    ensures NatSafe(EMPTY_RING, CacheAfter(cache, READ, 0))
    ensures var after := Processed(cache, READ, 0, EMPTY_RING);
      && after.Keys == {SOCK} && after[SOCK].contextExternal.None? && after[SOCK].context == cache[SOCK].context
      && Lingers(after[SOCK], DeltasOf(cache, READ)[SOCK].stats) && !ShouldEvict(after[SOCK])
      && Kept(after) == after && Evicted(after) == map[]
  {
    EmptyRingKnowsNothing(cache[SOCK].context);
    ProcessedEntry(cache, READ, 0, EMPTY_RING, SOCK);
  }

  /** Its flow has room, so it is credited. */
  lemma EntryIsCredited(flows: FlowTable, cache: Cache, s: SockStats)
    requires |flows| < AGG_FLOWS_MAX_ENTRIES && SOCK in cache && IsValid(cache[SOCK].context)
    requires cache[SOCK].contextExternal.None? && s.flags == ENTRY.flags
    ensures CreditOf(PostingFor(flows, cache, SOCK, s, SeveredConnect)) == 1
  {
  }

  lemma OneMoreFlow(flows: FlowTable, cache: Cache, deltas: Stream)
    requires SOCK in deltas
    ensures |FlowFold(ClearAllLevels(flows), cache, deltas, [SOCK])| <= |flows| + 1
  {
    var one, start := [SOCK], ClearAllLevels(flows);
    assert one[..0] == [] && start.Keys == flows.Keys;
    assert FlowFold(start, cache, deltas, one) == FlowStep(start, cache, SOCK, deltas[SOCK].stats);
    match Judge(start, cache, SOCK) {
      case Credited(p) =>
        assert FlowStep(start, cache, SOCK, deltas[SOCK].stats).Keys == flows.Keys + {p};
      case _ =>
    }
  }

  /** The books of that: one more credit for the socket, whose lifetime goes on. */
  lemma OneMoreCredit(a: Books, flows: FlowTable, cache: Cache, deltas: Stream)
    requires WellFormed(a) && a.metric == SeveredConnect && a.current.Keys == {SOCK}
    requires |flows| < AGG_FLOWS_MAX_ENTRIES && SOCK in cache && SOCK in deltas && SOCK in Kept(cache)
    requires CreditOf(PostingFor(flows, cache, SOCK, deltas[SOCK].stats, SeveredConnect)) == 1
    ensures var b := Processing(a, flows, cache, deltas, [SOCK]);
      && WellFormed(b) && b.current.Keys == {SOCK}
      && LifeOf(b, SOCK).credited == LifeOf(a, SOCK).credited + 1
  {
    var one, none: seq<SockKey> := [SOCK], [];
    assert one[..0] == none;
    var ps := Postings(flows, cache, deltas, one, a.metric);
    assert FlowFold(flows, cache, deltas, none) == flows;
    assert ps == [PostingFor(flows, cache, SOCK, deltas[SOCK].stats, a.metric)];
    PostAllTouched(a, ps, 0);
    forall k ensures k in PostAll(a, ps).current <==> k == SOCK {
      PostAllKeys(a, ps, k);
    }
  }

  // --- The cycles ---

  lemma ReadAndProcess(s0: Sys, steps0: seq<Step>, t0: Sys, a0: Books, cycles: nat)
    returns (steps: seq<Step>, t: Sys, a: Books)
    requires Reached(s0, steps0, t0, a0) && Cached(t0, a0, cycles) && t0.phase.Dropping? && cycles < 10
    ensures Reached(s0, steps, t, a) && Cached(t, a, cycles + 1) && t.phase.Idle?
    ensures t.bpf == t0.bpf && t.notrackUs == t0.notrackUs
    ensures LifeOf(a, SOCK).credited == LifeOf(a0, SOCK).credited + 1
  {
    steps, t := ReadAll(s0, steps0, t0, a0);
    steps, t, a := ProcessRead(s0, steps, t, a0, cycles);
    Finishes(s0, steps, t, a);
    steps, t := steps + [Finish], t.(phase := Idle);
  }

  lemma ReadAll(s0: Sys, steps0: seq<Step>, t0: Sys, a: Books) returns (steps: seq<Step>, t: Sys)
    requires Reached(s0, steps0, t0, a) && t0.phase.Dropping? && t0.toDrop == {}
    requires t0.bpf.stats == map[KEY := ENTRY] && t0.stream == map[]
    ensures Reached(s0, steps, t, a) && t == t0.(phase := Reading, toRead := {}, stream := READ)
  {
    StartsReading(s0, steps0, t0, a);
    steps, t := steps0 + [StartReading], t0.(phase := Reading, toRead := t0.bpf.stats.Keys);
    Reads(s0, steps, t, a);
    EntryRead(t);
    steps, t := steps + [Read(KEY)], DoRead(t, KEY);
  }

  lemma EntryRead(t: Sys)
    requires t.bpf.stats == map[KEY := ENTRY] && t.stream == map[] && t.toRead == {KEY}
    ensures DoRead(t, KEY) == t.(stream := READ, toRead := {})
  {
    ReadsEntry(t.cache);
    assert {KEY} - {KEY} == {};
  }

  lemma ReadyToProcess(t: Sys)
    requires t.stream == READ && StalenessUs(t) == 0
    requires t.cache.Keys == {SOCK} && IsValid(t.cache[SOCK].context) && t.cache[SOCK].contextExternal.None?
    ensures StreamInRange(t.stream) && NatReady(t, EMPTY_RING) && Visits([SOCK], t.stream.Keys)
  {
    EntryIsKept(t.cache);
    EntryInRange();
    assert READ.Keys == {SOCK};
  }

  lemma ProcessRead(s0: Sys, steps0: seq<Step>, t0: Sys, a0: Books, cycles: nat)
    returns (steps: seq<Step>, t: Sys, a: Books)
    requires Reached(s0, steps0, t0, a0) && Cached(t0.(stream := map[]), a0, cycles) && cycles < 10
    requires t0.phase.Reading? && t0.toRead == {} && t0.stream == READ
    ensures Reached(s0, steps, t, a) && Cached(t, a, cycles + 1) && t.phase.Removing? && t.toRemove == map[]
    ensures t.bpf == t0.bpf && t.notrackUs == t0.notrackUs
    ensures LifeOf(a, SOCK).credited == LifeOf(a0, SOCK).credited + 1
  {
    assert StalenessUs(t0) == 0;
    ReadyToProcess(t0);
    Processes(s0, steps0, t0, a0, [SOCK]);
    steps := steps0 + [Process(EMPTY_RING, [SOCK])];
    ProcessedState(t0, cycles);
    ProcessedBooks(t0, a0, cycles);
    t, a := DoProcess(t0, EMPTY_RING, [SOCK]), BookProcess(a0, t0, EMPTY_RING, [SOCK]);
  }

  lemma ProcessedState(t: Sys, cycles: nat)
    requires t.stream == READ && StalenessUs(t) == 0 && |t.flows| <= cycles
    requires t.cache.Keys == {SOCK} && IsValid(t.cache[SOCK].context) && t.cache[SOCK].contextExternal.None?
    ensures var t' := DoProcess(t, EMPTY_RING, [SOCK]);
      && t'.bpf == t.bpf && t'.notrackUs == t.notrackUs && t'.nowUs == t.nowUs && t'.toDrop == t.toDrop
      && t'.phase.Removing? && t'.toRemove == map[] && t'.stream == map[] && |t'.flows| <= cycles + 1
      && t'.cache.Keys == {SOCK} && IsValid(t'.cache[SOCK].context) && t'.cache[SOCK].contextExternal.None?
  {
    EntryIsKept(t.cache);
    OneMoreFlow(t.flows, Processed(t.cache, READ, 0, EMPTY_RING), DeltasOf(t.cache, READ));
  }

  lemma ProcessedBooks(t: Sys, a: Books, cycles: nat)
    requires WellFormed(a) && a.metric == SeveredConnect && a.current.Keys == {SOCK}
    requires t.stream == READ && StalenessUs(t) == 0 && |t.flows| <= cycles < 10
    requires t.cache.Keys == {SOCK} && IsValid(t.cache[SOCK].context) && t.cache[SOCK].contextExternal.None?
    ensures var b := BookProcess(a, t, EMPTY_RING, [SOCK]);
      b.current.Keys == {SOCK} && LifeOf(b, SOCK).credited == LifeOf(a, SOCK).credited + 1
  {
    EntryIsKept(t.cache);
    var cache, deltas := Processed(t.cache, READ, 0, EMPTY_RING), DeltasOf(t.cache, READ);
    var start := ClearAllLevels(t.flows);
    assert start.Keys == t.flows.Keys;
    EntryIsCredited(start, cache, deltas[SOCK].stats);
    OneMoreCredit(a, start, cache, deltas);
  }

  /** From start-up: the events land, ... */
  lemma Landed(s: Sys) returns (steps: seq<Step>, t: Sys)
    requires s == Start(1, 1, 1, NOTRACK_US)
    ensures Reached(s, steps, t, Open(SeveredConnect))
    ensures t == s.(bpf := t.bpf, quiet := false)
    ensures t.bpf.props == map[KEY := CONTEXT] && t.bpf.stats == map[KEY := ENTRY]
  {
    var a := Open(SeveredConnect);
    assert Reached(s, [], s, a);
    Lands(s, [], s, a, OPENED);
    steps, t := [] + [BpfEvent(OPENED)], s.(bpf := HandleEvent(s.bpf, OPENED), quiet := false);
    Lands(s, steps, t, a, SEVERED);
    steps, t := steps + [BpfEvent(SEVERED)], t.(bpf := HandleEvent(t.bpf, SEVERED), quiet := false);
    EventsHandled(s.bpf);
  }

  /** ... then a cycle takes in the context. */
  lemma Absorbed(s: Sys) returns (steps: seq<Step>, t: Sys, a: Books)
    requires s == Start(1, 1, 1, NOTRACK_US)
    ensures Reached(s, steps, t, a) && Cached(t, a, 0) && LifeOf(a, SOCK).credited == 0
    ensures t.phase.Dropping? && t.bpf.props == map[] && t.notrackUs == NOTRACK_US
  {
    a := Open(SeveredConnect);
    steps, t := Landed(s);
    Begins(s, steps, t, a, 100);
    steps := steps + [Begin(100)];
    t := t.(phase := Absorbing, nowUs := 100, toAbsorb := t.bpf.props.Keys, toDrop := {}, quiet := true);
    Absorbs(s, steps, t, a);
    steps := steps + [Absorb(KEY)];
    var before := t;
    t, a := DoAbsorb(before, KEY), BookAbsorb(a, before, KEY);
    ContextTaken(before);
    StopsAbsorbing(s, steps, t, a);
    steps, t := steps + [StopAbsorbing], t.(phase := Dropping);
    Drops(s, steps, t, a);
    steps, t := steps + [Drop(KEY)], DoDrop(t, KEY);
  }

  lemma ContextTaken(t: Sys)
    requires t.bpf.props == map[KEY := CONTEXT] && t.cache == map[] && t.maxSocks == 1
    requires t.toAbsorb == {KEY} && t.toDrop == {} && t.phase.Absorbing?
    ensures var (a, t') := (BookAbsorb(Open(SeveredConnect), t, KEY), DoAbsorb(t, KEY));
      && t' == t.(cache := t'.cache, toAbsorb := {}, toDrop := {KEY})
      && t'.cache.Keys == {SOCK} && t'.cache[SOCK].context == CONTEXT && t'.cache[SOCK].contextExternal.None?
      && a.current.Keys == {SOCK} && LifeOf(a, SOCK).credited == 0
  {
    assert {KEY} - {KEY} == {} && {} + {KEY} == {KEY};
  }

  /** A second cycle begins, with no context to take in. */
  lemma NextCycle(s: Sys, steps0: seq<Step>, t0: Sys, a: Books, cycles: nat) returns (steps: seq<Step>, t: Sys)
    requires Reached(s, steps0, t0, a) && Cached(t0, a, cycles) && t0.phase.Idle?
    requires t0.bpf.props == map[] && t0.notrackUs == NOTRACK_US
    ensures Reached(s, steps, t, a) && Cached(t, a, cycles) && t.phase.Dropping?
  {
    assert t0.bpf.props.Keys == {};
    Begins(s, steps0, t0, a, 200);
    steps := steps0 + [Begin(200)];
    t := t0.(phase := Absorbing, nowUs := 200, toAbsorb := {}, toDrop := {}, quiet := true);
    StopsAbsorbing(s, steps, t, a);
    steps, t := steps + [StopAbsorbing], t.(phase := Dropping);
  }

  /** The whole run: two events, two cycles, one socket. */
  lemma TwoCycles(s: Sys) returns (steps: seq<Step>, t: Sys, a: Books)
    requires s == Start(1, 1, 1, NOTRACK_US)
    ensures Reached(s, steps, t, a) && SOCK in a.current && LifeOf(a, SOCK).credited == 2
  {
    steps, t, a := Absorbed(s);
    steps, t, a := ReadAndProcess(s, steps, t, a, 0);
    steps, t := NextCycle(s, steps, t, a, 1);
    steps, t, a := ReadAndProcess(s, steps, t, a, 1);
  }

  /** It is counted twice. */
  lemma SeveredConnectCountedTwice() returns (s: Sys, steps: seq<Step>)
    ensures Initial(s) && Run(s, steps).Some?
    ensures exists i :: 0 <= i < |BooksOf(SeveredConnect, s, steps).lives|
                        && BooksOf(SeveredConnect, s, steps).lives[i].credited == 2
  {
    s := Start(1, 1, 1, NOTRACK_US);
    var t, a;
    steps, t, a := TwoCycles(s);
    assert a.lives[a.current[SOCK]].credited == 2;
  }
}
