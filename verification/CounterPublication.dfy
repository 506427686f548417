/** Reading and publishing the event counters (nfm-controller/src/events/event_provider_ebpf.rs),
    with events arriving at any time on any core and ending in any way. */
module CounterPublication {
  import opened Arith
  import opened EventCountersModel
  import opened SockOps
  import opened MapSum

  type PerCpuCounters = map<nat, EventCounters>

  ghost function PerCpu(counters: PerCpuCounters, t: Tally): map<nat, nat> {
    map cpu | cpu in counters :: Count(counters[cpu], t)
  }

  /** The total over all cores, before any wrap-around. */
  ghost function SumOver(counters: PerCpuCounters, t: Tally): nat { Sum(PerCpu(counters, t)) }

  /** What a read gives. */
  ghost predicate IsTotal(c: EventCounters, counters: PerCpuCounters) {
    forall t :: Count(c, t) == SumOver(counters, t) % U32
  }

  /** The counters in the kernel, what the controller last read, and what it last published. */
  datatype Publisher = Publisher(counters: PerCpuCounters, latest: EventCounters, published: EventCounters)

  const NEW_PUBLISHER: Publisher := Publisher(map[], NO_EVENTS, NO_EVENTS)

  datatype Action = Arrive(e: Event, r: EventResult) | ReadCounters | ReadFails | Publish

  ghost predicate Act(p: Publisher, a: Action, p': Publisher) {
    match a
    case Arrive(e, r) => p' == p.(counters := CountersAfter(p.counters, e, r))
    case ReadCounters => p' == p.(latest := p'.latest) && IsTotal(p'.latest, p.counters)
    case ReadFails => p' == p.(latest := NO_EVENTS)
    case Publish => p' == p.(published := p.latest)
  }

  /** States visited, one more than actions. */
  ghost predicate IsRun(states: seq<Publisher>, actions: seq<Action>) {
    && |states| == |actions| + 1 && states[0] == NEW_PUBLISHER
    && forall i :: 0 <= i < |actions| ==> Act(states[i], actions[i], states[i + 1])
  }

  // --- The reference: unbounded counts ---

  function CountsOf(a: Action): EventCounters {
    if a.Arrive? then EventCounts(a.e, a.r) else NO_EVENTS
  }

  /** Everything counted in the first `n` actions. */
  function Counted(actions: seq<Action>, n: nat, t: Tally): nat
    requires n <= |actions|
  {
    if n == 0 then 0 else Counted(actions, n - 1, t) + Count(CountsOf(actions[n - 1]), t)
  }

  /** How many actions came before the last read; none if that failed, since it then reads as zero. */
  function LastRead(actions: seq<Action>, n: nat): (k: nat)
    requires n <= |actions|
    ensures k <= n
  {
    if n == 0 || actions[n - 1].ReadFails? then 0
    else if actions[n - 1].ReadCounters? then n - 1
    else LastRead(actions, n - 1)
  }

  /** How many actions came before the read that was last published. */
  function LastPublished(actions: seq<Action>, n: nat): (k: nat)
    requires n <= |actions|
    ensures k <= n
  {
    if n == 0 then 0
    else if actions[n - 1].Publish? then LastRead(actions, n - 1) else LastPublished(actions, n - 1)
  }

  /** Everything counted up to the last read. */
  function CountedAtRead(actions: seq<Action>, n: nat, t: Tally): nat
    requires n <= |actions|
  {
    Counted(actions, LastRead(actions, n), t)
  }

  /** The sum of all deltas published. */
  function PublishedSum(states: seq<Publisher>, actions: seq<Action>, n: nat, t: Tally): nat
    requires n <= |actions| < |states|
  {
    if n == 0 then 0
    else
      var p := states[n - 1];
      PublishedSum(states, actions, n - 1, t)
      + if actions[n - 1].Publish? then Count(SubtractCounts(p.latest, p.published), t) else 0
  }

  /** Header-option events, which belong to no class of their own. */
  function HeaderEvents(actions: seq<Action>, n: nat): nat
    requires n <= |actions|
  {
    if n == 0 then 0
    else HeaderEvents(actions, n - 1)
         + if actions[n - 1].Arrive? && IsHdrOpt(actions[n - 1].e.op) then 1 else 0
  }

  // --- Telescoping ---

  /** A wrapping bump of one core's count keeps the sum congruent to the true total. */
  lemma BumpCongruent(m: map<nat, nat>, cpu: nat, amount: nat, total: nat)
    requires Congruent(total, Sum(m), U32)
    ensures var v := if cpu in m then m[cpu] else 0;
      Congruent(total + amount, Sum(m[cpu := WrapAdd(v, amount, U32)]), U32)
  {
    var v := if cpu in m then m[cpu] else 0;
    var v' := WrapAdd(v, amount, U32);
    SumUpdate(m, cpu, v');
    BumpKeepsCongruent(total, Sum(m), v, amount, U32);
  }

  lemma PerCpuAfter(c: PerCpuCounters, cpu: nat, counts: EventCounters, t: Tally)
    ensures var m := PerCpu(c, t);
      PerCpu(c[cpu := AddCounts(CountersAt(c, cpu), counts)], t)
      == m[cpu := WrapAdd(if cpu in m then m[cpu] else 0, Count(counts, t), U32)]
  {
    AddCountsAt(CountersAt(c, cpu), counts, t);
    assert Count(NO_EVENTS, t) == 0;
  }

  lemma ModCongruent(x: nat)
    ensures Congruent(x, x % U32, U32)
  {
    assert x == x % U32 + (x / U32) * U32;
  }

  lemma NoneRead()
    ensures IsTotal(NO_EVENTS, map[])
  {
    forall t ensures Count(NO_EVENTS, t) == SumOver(map[], t) % U32 {
      assert PerCpu(map[], t) == map[];
    }
  }

  lemma ModAdd(a: nat, b: nat)
    ensures WrapAdd(a % U32, b, U32) == (a + b) % U32
  {
  }

  lemma SumOneMore(seen: PerCpuCounters, cpu: nat, c: EventCounters, t: Tally)
    requires cpu !in seen
    ensures SumOver(seen[cpu := c], t) == SumOver(seen, t) + Count(c, t)
  {
    SumUpdate(PerCpu(seen, t), cpu, Count(c, t));
    assert PerCpu(seen[cpu := c], t) == PerCpu(seen, t)[cpu := Count(c, t)];
  }

  lemma OneMoreReadAt(total: EventCounters, seen: PerCpuCounters, cpu: nat, c: EventCounters, t: Tally)
    requires Count(total, t) == SumOver(seen, t) % U32 && cpu !in seen
    ensures Count(AddCounts(total, c), t) == SumOver(seen[cpu := c], t) % U32
  {
    AddCountsAt(total, c, t);
    SumOneMore(seen, cpu, c, t);
    ModAdd(SumOver(seen, t), Count(c, t));
  }

  /** Adding one core's counters, in whatever order the cores come. */
  lemma OneMoreRead(total: EventCounters, seen: PerCpuCounters, cpu: nat, c: EventCounters)
    requires IsTotal(total, seen) && cpu !in seen
    ensures IsTotal(AddCounts(total, c), seen[cpu := c])
  {
    forall t ensures Count(AddCounts(total, c), t) == SumOver(seen[cpu := c], t) % U32 {
      OneMoreReadAt(total, seen, cpu, c, t);
    }
  }

  /** The three quantities against their references, at any point of any run. */
  ghost predicate Follows(p: Publisher, counted: nat, atRead: nat, publishedSum: nat, t: Tally) {
    && Congruent(counted, SumOver(p.counters, t), U32)
    && Congruent(atRead, Count(p.latest, t), U32)
    && Congruent(publishedSum, Count(p.published, t), U32)
  }

  /** What had been counted at the last read, after the action. */
  function AtRead(a: Action, counted: nat, atRead: nat): nat {
    match a case ReadCounters => counted case ReadFails => 0 case _ => atRead
  }

  lemma NoneCounted(t: Tally)
    ensures Count(NO_EVENTS, t) == 0
  {
  }

  lemma FollowsArrive(p: Publisher, e: Event, r: EventResult, counted: nat, atRead: nat, sum: nat, t: Tally)
    requires Follows(p, counted, atRead, sum, t)
    ensures Follows(p.(counters := CountersAfter(p.counters, e, r)), counted + Count(EventCounts(e, r), t),
                    atRead, sum, t)
  {
    PerCpuAfter(p.counters, e.cpu, EventCounts(e, r), t);
    BumpCongruent(PerCpu(p.counters, t), e.cpu, Count(EventCounts(e, r), t), counted);
  }

  lemma FollowsRead(p: Publisher, latest: EventCounters, counted: nat, atRead: nat, sum: nat, t: Tally)
    requires Follows(p, counted, atRead, sum, t) && IsTotal(latest, p.counters)
    ensures Follows(p.(latest := latest), counted, counted, sum, t)
  {
    ModCongruent(SumOver(p.counters, t));
    CongruentTrans(counted, SumOver(p.counters, t), Count(latest, t), U32);
  }

  lemma FollowsPublish(p: Publisher, counted: nat, atRead: nat, sum: nat, t: Tally)
    requires Follows(p, counted, atRead, sum, t)
    ensures Follows(p.(published := p.latest), counted, atRead,
                    sum + Count(SubtractCounts(p.latest, p.published), t), t)
  {
    SubtractCountsAt(p.latest, p.published, t);
    WrappedDeltaTelescopes(sum, Count(p.published, t), Count(p.latest, t), U32);
  }

  lemma FollowsStep(p: Publisher, a: Action, p': Publisher, counted: nat, atRead: nat, sum: nat, t: Tally)
    requires Act(p, a, p') && Follows(p, counted, atRead, sum, t)
    ensures Follows(p', counted + Count(CountsOf(a), t), AtRead(a, counted, atRead),
                    sum + if a.Publish? then Count(SubtractCounts(p.latest, p.published), t) else 0, t)
  {
    NoneCounted(t);
    match a {
      case Arrive(e, r) => FollowsArrive(p, e, r, counted, atRead, sum, t);
      case ReadCounters => FollowsRead(p, p'.latest, counted, atRead, sum, t);
      case ReadFails => CongruentRefl(0, U32);
      case Publish => FollowsPublish(p, counted, atRead, sum, t);
    }
  }

  lemma CountedAtReadStep(actions: seq<Action>, n: nat, t: Tally)
    requires n < |actions|
    ensures CountedAtRead(actions, n + 1, t)
         == AtRead(actions[n], Counted(actions, n, t), CountedAtRead(actions, n, t))
  {
  }

  lemma {:induction false} RunFollows(states: seq<Publisher>, actions: seq<Action>, n: nat, t: Tally)
    requires IsRun(states, actions) && n <= |actions|
    ensures Follows(states[n], Counted(actions, n, t), CountedAtRead(actions, n, t),
                    PublishedSum(states, actions, n, t), t)
  {
    if n == 0 {
      assert PerCpu(NEW_PUBLISHER.counters, t) == map[];
      CongruentRefl(0, U32);
    } else {
      RunFollows(states, actions, n - 1, t);
      FollowsStep(states[n - 1], actions[n - 1], states[n], Counted(actions, n - 1, t),
                  CountedAtRead(actions, n - 1, t), PublishedSum(states, actions, n - 1, t), t);
      CountedAtReadStep(actions, n - 1, t);
    }
  }

  /** At any point of any run, all deltas published so far add up, modulo the counter width, to what
      had been counted at the read that was last published. */
  lemma {:induction false} PublishedIsCounted(states: seq<Publisher>, actions: seq<Action>, n: nat, t: Tally)
    requires IsRun(states, actions) && n <= |actions|
    ensures Congruent(PublishedSum(states, actions, n, t), Counted(actions, LastPublished(actions, n), t), U32)
  {
    if n == 0 {
      CongruentRefl(0, U32);
    } else if actions[n - 1].Publish? {
      PublicationTelescopes(states, actions, n, t);
    } else {
      PublishedIsCounted(states, actions, n - 1, t);
    }
  }

  /** At every publication, all deltas published so far add up, modulo the counter width, to what had
      been counted when the counters were last read. */
  lemma PublicationTelescopes(states: seq<Publisher>, actions: seq<Action>, n: nat, t: Tally)
    requires IsRun(states, actions) && 0 < n <= |actions| && actions[n - 1].Publish?
    ensures Congruent(PublishedSum(states, actions, n, t), CountedAtRead(actions, n, t), U32)
  {
    RunFollows(states, actions, n, t);
    var p := states[n];
    assert p.published == p.latest;
    CongruentSym(CountedAtRead(actions, n, t), Count(p.latest, t), U32);
    CongruentTrans(PublishedSum(states, actions, n, t), Count(p.published, t),
                   CountedAtRead(actions, n, t), U32);
  }

  /** The seven classes a counted event may fall in. */
  function Classes(g: Tally -> nat): nat {
    g(ActiveConnect) + g(PassiveEstablish) + g(StateChange) + g(Rtt) + g(Retrans) + g(Rto) + g(Other)
  }

  lemma OneClass(e: Event, r: EventResult)
    ensures Count(EventCounts(e, r), Socket)
         == Classes(t => Count(EventCounts(e, r), t)) + if IsHdrOpt(e.op) then 1 else 0
  {
  }

  lemma ClassesAdd(g: Tally -> nat, h: Tally -> nat, d: Tally -> nat)
    requires forall t :: g(t) == h(t) + d(t)
    ensures Classes(g) == Classes(h) + Classes(d)
  {
  }

  /** Every event is counted once in total and once in its class, header-option events excepted. */
  lemma {:induction false} EveryEventHasOneClass(actions: seq<Action>, n: nat)
    requires n <= |actions|
    ensures Counted(actions, n, Socket)
         == Classes(t => Counted(actions, n, t)) + HeaderEvents(actions, n)
  {
    if n > 0 {
      EveryEventHasOneClass(actions, n - 1);
      var a := actions[n - 1];
      var counts := CountsOf(a);
      ClassesAdd(t => Counted(actions, n, t), t => Counted(actions, n - 1, t), t => Count(counts, t));
      if a.Arrive? {
        OneClass(a.e, a.r);
      }
    }
  }

  lemma ClassesCongruent(g: Tally -> nat, h: Tally -> nat)
    requires forall t :: Congruent(g(t), h(t), U32)
    ensures Congruent(Classes(g), Classes(h), U32)
  {
    CongruentSum(g(ActiveConnect), h(ActiveConnect), g(PassiveEstablish), h(PassiveEstablish), U32);
    var a, b := g(ActiveConnect) + g(PassiveEstablish), h(ActiveConnect) + h(PassiveEstablish);
    CongruentSum(a, b, g(StateChange), h(StateChange), U32);
    var c, d := a + g(StateChange), b + h(StateChange);
    CongruentSum(c, d, g(Rtt), h(Rtt), U32);
    CongruentSum(c + g(Rtt), d + h(Rtt), g(Retrans), h(Retrans), U32);
    var e, f := c + g(Rtt) + g(Retrans), d + h(Rtt) + h(Retrans);
    CongruentSum(e, f, g(Rto), h(Rto), U32);
    CongruentSum(e + g(Rto), f + h(Rto), g(Other), h(Other), U32);
  }

  /** Values congruent to what the first `n` actions counted fall into classes as those counts do. */
  lemma ClassesOf(actions: seq<Action>, n: nat, g: Tally -> nat)
    requires n <= |actions| && forall t :: Congruent(g(t), Counted(actions, n, t), U32)
    ensures Congruent(g(Socket), Classes(g) + HeaderEvents(actions, n), U32)
  {
    var h := t => if n <= |actions| then Counted(actions, n, t) else 0;
    ClassesCongruent(g, h);
    EveryEventHasOneClass(actions, n);
    assert Classes(h) == Classes(t => Counted(actions, n, t));
    var headers := HeaderEvents(actions, n);
    CongruentRefl(headers, U32);
    CongruentSum(Classes(g), Classes(h), headers, headers, U32);
    CongruentSym(Classes(g) + headers, h(Socket), U32);
    CongruentTrans(g(Socket), h(Socket), Classes(g) + headers, U32);
  }

  /** In every state of every run, modulo the counter width: the socket events the controller last read
      are its seven class counts plus the header-option events up to that read, and the socket events
      published are the published class counts plus the header-option events up to the read that was
      last published. */
  lemma HeldCountersHaveOneClass(states: seq<Publisher>, actions: seq<Action>, n: nat)
    requires IsRun(states, actions) && n <= |actions|
    ensures Congruent(Count(states[n].latest, Socket),
                      Classes(t => Count(states[n].latest, t)) + HeaderEvents(actions, LastRead(actions, n)),
                      U32)
    ensures Congruent(Count(states[n].published, Socket),
                      Classes(t => Count(states[n].published, t))
                      + HeaderEvents(actions, LastPublished(actions, n)), U32)
    ensures PublishedInClasses(states, actions, n)
  {
    var p := states[n];
    forall t
      ensures Congruent(Count(p.latest, t), Counted(actions, LastRead(actions, n), t), U32)
      ensures Congruent(Count(p.published, t), Counted(actions, LastPublished(actions, n), t), U32)
      ensures Congruent(PublishedSum(states, actions, n, t), Counted(actions, LastPublished(actions, n), t), U32)
    {
      RunFollows(states, actions, n, t);
      PublishedIsCounted(states, actions, n, t);
      CongruentSym(CountedAtRead(actions, n, t), Count(p.latest, t), U32);
      CongruentSym(PublishedSum(states, actions, n, t), Count(p.published, t), U32);
      CongruentTrans(Count(p.published, t), PublishedSum(states, actions, n, t),
                     Counted(actions, LastPublished(actions, n), t), U32);
    }
    ClassesOf(actions, LastRead(actions, n), t => Count(p.latest, t));
    ClassesOf(actions, LastPublished(actions, n), t => Count(p.published, t));
    ClassesOf(actions, LastPublished(actions, n), SumsPublished(states, actions, n));
  }

  ghost function SumsPublished(states: seq<Publisher>, actions: seq<Action>, n: nat): Tally -> nat
    requires n <= |actions| < |states|
  {
    t => if n <= |actions| < |states| then PublishedSum(states, actions, n, t) else 0
  }

  ghost predicate PublishedInClasses(states: seq<Publisher>, actions: seq<Action>, n: nat)
    requires n <= |actions| < |states|
  {
    var sums := SumsPublished(states, actions, n);
    Congruent(sums(Socket), Classes(sums) + HeaderEvents(actions, LastPublished(actions, n)), U32)
  }
}
