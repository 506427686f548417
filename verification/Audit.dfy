/** Book-keeping over whole runs of the pipeline. An auditor follows one metric, any metric, and
    records for every lifetime of a cache entry what was emitted for it, what of that reached a flow
    and what was dropped for which reason. None of this exists in the agent; the theorems say that the books balance. */
module Audit {
  import opened Arith
  import opened SockStatsModel
  import opened SockContextModel
  import opened SockOps
  import opened SockCacheModel
  import opened Flows
  import opened NatModel
  import opened Pipeline
  import Levels

  /** One lifetime of a cache entry, from insertion to eviction. What was emitted for it is credited to
      flows, `unplaced` for want of usable endpoints, or `crowdedOut` by the flow limit. `lingered`: a
      read with a flow found the socket severed while connecting, but neither closed nor stale.
      `reread`: a read with a flow came after that. */
  datatype Life = Life(
    emitted: nat, credited: nat, unplaced: nat, crowdedOut: nat,
    hadContext: bool, hadStats: bool,
    born: nat, lingered: bool, reread: bool)

  /** `lives` are all lifetimes so far, `current` the one of each cached socket, `taken` the amount in
      flows already handed out, `lost` what saturated flows could not hold, `saturated` whether any
      flow ever did, `cycle` the number of eviction passes so far. */
  datatype Books = Books(
    metric: Metric, lives: seq<Life>, current: map<SockKey, nat>, taken: nat, lost: nat, saturated: bool,
    cycle: nat)

  function Open(m: Metric): Books { Books(m, [], map[], 0, 0, false, 0) }

  function NewLife(cycle: nat): Life { Life(0, 0, 0, 0, false, false, cycle, false, false) }

  ghost predicate WellFormed(a: Books) {
    && (forall k :: k in a.current ==> a.current[k] < |a.lives|)
    && (forall j, k :: j in a.current && k in a.current && j != k ==> a.current[j] != a.current[k])
  }

  function LifeOf(a: Books, k: SockKey): Life
    requires WellFormed(a)
  {
    if k in a.current then a.lives[a.current[k]] else NewLife(a.cycle)
  }

  /** Writes a socket's current lifetime, opening one if need be. */
  function SetLife(a: Books, k: SockKey, l: Life): Books
    requires WellFormed(a)
  {
    if k in a.current then a.(lives := a.lives[a.current[k] := l])
    else a.(lives := a.lives + [l], current := a.current[k := |a.lives|])
  }

  function SumCredited(lives: seq<Life>): nat {
    if lives == [] then 0 else SumCredited(lives[..|lives| - 1]) + lives[|lives| - 1].credited
  }

  lemma {:induction false} SumCreditedUpdate(lives: seq<Life>, i: nat, l: Life)
    requires i < |lives|
    ensures SumCredited(lives[i := l]) == SumCredited(lives) - lives[i].credited + l.credited
  {
    var n := |lives| - 1;
    if i < n {
      assert lives[i := l][..n] == lives[..n][i := l];
      SumCreditedUpdate(lives[..n], i, l);
    } else {
      assert lives[i := l][..n] == lives[..n];
    }
  }

  lemma SetLifeEffect(a: Books, k: SockKey, l: Life)
    requires WellFormed(a)
    ensures var a' := SetLife(a, k, l);
      && WellFormed(a') && a'.current.Keys == a.current.Keys + {k}
      && a'.cycle == a.cycle && a'.metric == a.metric
      && LifeOf(a', k) == l && (forall j :: j != k ==> LifeOf(a', j) == LifeOf(a, j))
      && SumCredited(a'.lives) == SumCredited(a.lives) - LifeOf(a, k).credited + l.credited
  {
    if k in a.current {
      SumCreditedUpdate(a.lives, a.current[k], l);
    } else {
      assert (a.lives + [l])[..|a.lives|] == a.lives;
    }
  }

  // ---------------------------------------------------------------------------------------------
  // The books, step by step
  // ---------------------------------------------------------------------------------------------

  /** One socket's delta is emitted: so much, with that verdict; and whether the read found the socket
      severed while connecting, but neither closed nor stale. */
  datatype Posting = Posting(sock: SockKey, amount: nat, verdict: Verdict, lingers: bool)

  function CreditOf(p: Posting): nat { if p.verdict.Credited? then p.amount else 0 }

  ghost predicate PostingsOk(ps: seq<Posting>) {
    && (forall i :: 0 <= i < |ps| && ps[i].verdict.NotCached? ==> ps[i].amount == 0)
    && (forall i, j :: 0 <= i < j < |ps| ==> ps[i].sock != ps[j].sock)
  }

  function Post(l: Life, p: Posting): Life {
    l.(emitted := l.emitted + p.amount,
       credited := l.credited + CreditOf(p),
       unplaced := l.unplaced + if p.verdict.MissingProps? then p.amount else 0,
       crowdedOut := l.crowdedOut + if p.verdict.AboveLimit? then p.amount else 0,
       hadStats := true,
       lingered := l.lingered || (p.verdict.Credited? && p.lingers),
       reread := l.reread || (p.verdict.Credited? && l.lingered))
  }

  function PostAll(a: Books, ps: seq<Posting>): (a': Books)
    requires WellFormed(a)
    ensures WellFormed(a')
  {
    if ps == [] then a
    else
      var mid, p := PostAll(a, ps[..|ps| - 1]), ps[|ps| - 1];
      SetLifeEffect(mid, p.sock, Post(LifeOf(mid, p.sock), p));
      SetLife(mid, p.sock, Post(LifeOf(mid, p.sock), p))
  }

  predicate SeveredConnecting(s: SockStats) { {StartedClosure, TerminatedFromSyn} <= s.flags }

  /** Severed while connecting, but neither closed nor stale. */
  predicate Lingers(w: SockWrapper, s: SockStats) { SeveredConnecting(s) && !IsClosed(s) && !w.isStale }

  /** The posting for one socket, given the flow table it meets. */
  function PostingFor(flows: FlowTable, cache: Cache, k: SockKey, s: SockStats, m: Metric): Posting {
    Posting(k, if k in cache then Contribution(m, cache[k], s) else 0, Judge(flows, cache, k),
            k in cache && Lingers(cache[k], s))
  }

  function Postings(flows: FlowTable, cache: Cache, deltas: Stream, order: seq<SockKey>, m: Metric)
    : (ps: seq<Posting>)
    requires forall i :: 0 <= i < |order| ==> order[i] in deltas
    ensures |ps| == |order|
  {
    if order == [] then []
    else
      var init, k := order[..|order| - 1], order[|order| - 1];
      Postings(flows, cache, deltas, init, m)
      + [PostingFor(FlowFold(flows, cache, deltas, init), cache, k, deltas[k].stats, m)]
  }

  /** The books after processing, from the cache and deltas in between. */
  function Processing(a: Books, start: FlowTable, cache: Cache, deltas: Stream, order: seq<SockKey>): Books
    requires WellFormed(a) && forall i :: 0 <= i < |order| ==> order[i] in deltas
  {
    BookSaturation(CloseEvicted(PostAll(a, Postings(start, cache, deltas, order, a.metric)), Kept(cache).Keys),
                   start, cache, deltas, order)
  }

  function BookProcess(a: Books, s: Sys, ring: Ring, order: seq<SockKey>): (a': Books)
    requires WellFormed(a) && ring.Valid()
    requires forall i :: 0 <= i < |order| ==> order[i] in s.stream
    ensures WellFormed(a')
  {
    var cache := Processed(s.cache, s.stream, StalenessUs(s), ring);
    Processing(a, ClearAllLevels(s.flows), cache, DeltasOf(s.cache, s.stream), order)
  }

  /** What flows could not hold is written off. */
  function BookSaturation(a: Books, flows: FlowTable, cache: Cache, deltas: Stream, order: seq<SockKey>): Books
    requires forall i :: 0 <= i < |order| ==> order[i] in deltas
  {
    a.(lost := a.lost + FoldLost(flows, cache, deltas, order, a.metric),
       saturated := a.saturated || !FoldFits(flows, cache, deltas, order, a.metric))
  }

  /** Lifetimes of sockets not kept are over, and an eviction pass is done. */
  function CloseEvicted(a: Books, kept: set<SockKey>): Books {
    a.(current := map k | k in a.current && k in kept :: a.current[k], cycle := a.cycle + 1)
  }

  function BookAbsorb(a: Books, s: Sys, key: CpuSockKey): (a': Books)
    requires WellFormed(a)
    ensures WellFormed(a')
  {
    SetLifeEffect(a, key.sock, LifeOf(a, key.sock).(hadContext := true));
    if AddContextFails(s.cache, s.maxSocks, key.sock) then a
    else SetLife(a, key.sock, LifeOf(a, key.sock).(hadContext := true))
  }

  ghost function Book(a: Books, s: Sys, step: Step): (a': Books)
    requires WellFormed(a) && Enabled(s, step)
    ensures WellFormed(a')
  {
    match step
    case Absorb(key) => BookAbsorb(a, s, key)
    case Process(ring, order) => BookProcess(a, s, ring, order)
    case TakeFlows => a.(taken := a.taken + FlowTotal(s.flows, a.metric))
    case _ => a
  }

  // ---------------------------------------------------------------------------------------------
  // What the books say in every state
  // ---------------------------------------------------------------------------------------------

  /** Metrics a lifetime may contribute to once only, when it ends. */
  predicate OnceOnly(m: Metric) { m == Completed || m == SeveredEstablish }

  /** A cached entry against its lifetime so far. */
  ghost predicate LifeOk(m: Metric, l: Life, w: SockWrapper, cycle: nat) {
    && (m.OfCounter? ==> Congruent(l.emitted, Ctr(w.agg.stats, m.f), Width(m.f)))
    && (l.hadContext || l.hadStats)
    && (IsValid(w.context) <==> l.hadContext)
    && (w.cyclesNotFullyInitialized.None? <==> l.hadContext && l.hadStats)
    && l.born <= cycle
    && (w.cyclesNotFullyInitialized.Some? ==>
          w.cyclesNotFullyInitialized.value == cycle - l.born <= 1)
    && (OnceOnly(m) ==> l.credited == 0)
    && (!l.hadContext ==> l.credited == 0 && l.crowdedOut == 0)
    && (m == SeveredConnect ==> (l.credited > 0 ==> l.lingered)
                                && (l.lingered ==> SeveredConnecting(w.agg.stats)))
  }

  /** What was emitted was credited, or dropped for one of two reasons. */
  ghost predicate Balanced(m: Metric, l: Life) {
    && l.emitted == l.credited + l.unplaced + l.crowdedOut
    && (OnceOnly(m) ==> l.credited <= 1)
    && (m == SeveredConnect ==> (l.credited > 1 <==> l.reread) && (l.lingered ==> l.credited > 0)
                                && (l.reread ==> l.lingered))
  }

  ghost predicate LivesBalance(a: Books) {
    forall i :: 0 <= i < |a.lives| ==> Balanced(a.metric, a.lives[i])
  }

  /** Levels are reset every cycle and are no ledger metric. */
  predicate IsLedgerMetric(m: Metric) { IsFlowMetric(m) && m != Levels && m != LevelClosed }

  /** What was credited is in flows pending, in flows taken, or lost to saturation; and something is lost
      exactly when some flow saturated. */
  ghost predicate FlowsBalance(a: Books, flows: FlowTable) {
    && (IsLedgerMetric(a.metric) ==> FlowTotal(flows, a.metric) + a.taken + a.lost == SumCredited(a.lives))
    && (a.lost == 0 <==> !a.saturated)
    && (!a.metric.OfCounter? ==> a.lost == 0)
  }

  /** Exactly the cached sockets have a lifetime in progress, and it matches their entry. */
  ghost predicate EntriesOk(a: Books, cache: Cache)
    requires WellFormed(a)
  {
    && a.current.Keys == cache.Keys
    && forall k :: k in cache ==> LifeOk(a.metric, LifeOf(a, k), cache[k], a.cycle)
  }

  ghost predicate BooksOk(a: Books, cache: Cache, flows: FlowTable) {
    WellFormed(a) && EntriesOk(a, cache) && LivesBalance(a) && FlowsBalance(a, flows)
  }

  ghost predicate BooksInv(a: Books, s: Sys) { BooksOk(a, s.cache, s.flows) }

  // --- Absorbing a context ---

  lemma NewEntryLifeOk(m: Metric, c: SockContext, nowUs: nat, cycle: nat)
    requires IsValid(c)
    ensures LifeOk(m, NewLife(cycle).(hadContext := true),
                   NewWrapper(c, AggSockStats(DEFAULT.(lastTouchedUs := nowUs), [])), cycle)
  {
    if m.OfCounter? {
      assert Ctr(DEFAULT.(lastTouchedUs := nowUs), m.f) == 0;
      CongruentRefl(0, Width(m.f));
    }
  }

  lemma UpdatedContextLifeOk(m: Metric, l: Life, w: SockWrapper, c: SockContext, nowUs: nat, cycle: nat)
    requires LifeOk(m, l, w, cycle) && IsValid(c)
    ensures LifeOk(m, l.(hadContext := true), UpdateContext(w, c, nowUs), cycle)
  {
    if m.OfCounter? {
      assert Ctr(UpdateContext(w, c, nowUs).agg.stats, m.f) == Ctr(w.agg.stats, m.f);
    }
  }

  lemma SetLifeBalance(a: Books, k: SockKey, l: Life)
    requires WellFormed(a) && LivesBalance(a) && Balanced(a.metric, l)
    ensures LivesBalance(SetLife(a, k, l))
  {
  }

  lemma EntriesWrite(a: Books, cache: Cache, k: SockKey, l: Life, w: SockWrapper)
    requires WellFormed(a) && EntriesOk(a, cache) && LifeOk(a.metric, l, w, a.cycle)
    ensures WellFormed(SetLife(a, k, l)) && EntriesOk(SetLife(a, k, l), cache[k := w])
  {
    SetLifeEffect(a, k, l);
    EntriesWritten(a, cache, SetLife(a, k, l), k, l, w);
  }

  lemma EntriesWritten(a: Books, cache: Cache, b: Books, k: SockKey, l: Life, w: SockWrapper)
    requires WellFormed(a) && EntriesOk(a, cache) && LifeOk(a.metric, l, w, a.cycle)
    requires WellFormed(b) && b.metric == a.metric && b.cycle == a.cycle
    requires b.current.Keys == a.current.Keys + {k} && LifeOf(b, k) == l
    requires forall j :: j != k ==> LifeOf(b, j) == LifeOf(a, j)
    ensures EntriesOk(b, cache[k := w])
  {
  }

  lemma AbsorbEntries(a: Books, cache: Cache, maxSocks: nat, k: SockKey, c: SockContext, nowUs: nat)
    requires WellFormed(a) && EntriesOk(a, cache) && IsValid(c) && !AddContextFails(cache, maxSocks, k)
    ensures var a' := SetLife(a, k, LifeOf(a, k).(hadContext := true));
      WellFormed(a') && EntriesOk(a', AddContextTo(cache, maxSocks, k, c, nowUs))
  {
    var l, w := LifeOf(a, k).(hadContext := true), AddContextTo(cache, maxSocks, k, c, nowUs)[k];
    assert LifeOk(a.metric, l, w, a.cycle) by {
      if k in cache {
        UpdatedContextLifeOk(a.metric, LifeOf(a, k), cache[k], c, nowUs, a.cycle);
      } else {
        NewEntryLifeOk(a.metric, c, nowUs, a.cycle);
      }
    }
    EntriesWrite(a, cache, k, l, w);
  }

  lemma BooksAbsorb(a: Books, s: Sys, key: CpuSockKey)
    requires BooksInv(a, s) && key in s.bpf.props && IsValid(s.bpf.props[key])
    ensures BooksInv(BookAbsorb(a, s, key), DoAbsorb(s, key))
  {
    if !AddContextFails(s.cache, s.maxSocks, key.sock) {
      var l := LifeOf(a, key.sock).(hadContext := true);
      AbsorbEntries(a, s.cache, s.maxSocks, key.sock, s.bpf.props[key],
                    SatSub(s.nowUs, s.notrackUs / 2));
      AbsorbBalance(a, key.sock, s.flows);
    }
  }

  lemma AbsorbBalance(a: Books, k: SockKey, flows: FlowTable)
    requires WellFormed(a) && LivesBalance(a) && FlowsBalance(a, flows)
    ensures var a' := SetLife(a, k, LifeOf(a, k).(hadContext := true));
      LivesBalance(a') && FlowsBalance(a', flows)
  {
    var l := LifeOf(a, k).(hadContext := true);
    SetLifeBalance(a, k, l);
    SetLifeEffect(a, k, l);
  }

  // --- Posting ---

  ghost predicate Posted(ps: seq<Posting>, k: SockKey) {
    exists i :: 0 <= i < |ps| && ps[i].sock == k
  }

  lemma PostedSplit(ps: seq<Posting>, k: SockKey)
    requires ps != []
    ensures Posted(ps, k) <==> Posted(ps[..|ps| - 1], k) || ps[|ps| - 1].sock == k
  {
    var init := ps[..|ps| - 1];
    if i :| 0 <= i < |ps| && ps[i].sock == k {
      assert i < |init| ==> init[i].sock == k;
    }
    if i :| 0 <= i < |init| && init[i].sock == k {
      assert ps[i].sock == k;
    }
  }

  /** The last posting changes its own socket's lifetime and no other. */
  lemma PostAllSplit(a: Books, ps: seq<Posting>, k: SockKey)
    requires WellFormed(a) && ps != []
    ensures var (mid, b, p) := (PostAll(a, ps[..|ps| - 1]), PostAll(a, ps), ps[|ps| - 1]);
      && b.metric == mid.metric && b.cycle == mid.cycle && b.taken == mid.taken
      && b.lost == mid.lost && b.saturated == mid.saturated
      && (k in b.current <==> k in mid.current || k == p.sock)
      && LifeOf(b, k) == (if k == p.sock then Post(LifeOf(mid, k), p) else LifeOf(mid, k))
  {
    var mid, p := PostAll(a, ps[..|ps| - 1]), ps[|ps| - 1];
    SetLifeEffect(mid, p.sock, Post(LifeOf(mid, p.sock), p));
  }

  lemma {:induction false} PostAllKeys(a: Books, ps: seq<Posting>, k: SockKey)
    requires WellFormed(a)
    ensures var b := PostAll(a, ps);
      && b.metric == a.metric && b.cycle == a.cycle && b.taken == a.taken
      && b.lost == a.lost && b.saturated == a.saturated
      && (k in b.current <==> k in a.current || Posted(ps, k))
  {
    if ps != [] {
      PostAllKeys(a, ps[..|ps| - 1], k);
      PostedSplit(ps, k);
      PostAllSplit(a, ps, k);
    }
  }

  lemma {:induction false} PostAllUntouched(a: Books, ps: seq<Posting>, k: SockKey)
    requires WellFormed(a) && !Posted(ps, k)
    ensures LifeOf(PostAll(a, ps), k) == LifeOf(a, k)
  {
    if ps != [] {
      PostedSplit(ps, k);
      PostAllUntouched(a, ps[..|ps| - 1], k);
      PostAllSplit(a, ps, k);
    }
  }

  lemma {:induction false} PostAllTouched(a: Books, ps: seq<Posting>, i: nat)
    requires WellFormed(a) && PostingsOk(ps) && i < |ps|
    ensures LifeOf(PostAll(a, ps), ps[i].sock) == Post(LifeOf(a, ps[i].sock), ps[i])
  {
    var n := |ps| - 1;
    var init := ps[..n];
    PostAllSplit(a, ps, ps[i].sock);
    if i < n {
      assert init[i] == ps[i];
      PostAllTouched(a, init, i);
    } else {
      PostAllUntouched(a, init, ps[n].sock);
    }
  }

  function SumCredits(ps: seq<Posting>): nat {
    if ps == [] then 0 else SumCredits(ps[..|ps| - 1]) + CreditOf(ps[|ps| - 1])
  }

  /** A socket is counted as one, only once where that is the rule, and again where it lingered. */
  ghost predicate UnitPosting(m: Metric, l: Life, p: Posting) {
    && (p.verdict.NotCached? ==> p.amount == 0)
    && (OnceOnly(m) ==> l.credited == 0 && p.amount <= 1)
    && (m == SeveredConnect ==> p.amount <= 1 && (l.credited > 0 ==> l.lingered)
                                && (l.lingered || p.lingers ==> p.amount == 1))
  }

  ghost predicate UnitOk(a: Books, p: Posting)
    requires WellFormed(a)
  {
    UnitPosting(a.metric, LifeOf(a, p.sock), p)
  }

  lemma PostKeepsBalanced(m: Metric, l: Life, p: Posting)
    requires Balanced(m, l) && UnitPosting(m, l, p)
    ensures Balanced(m, Post(l, p)) && Post(l, p).credited == l.credited + CreditOf(p)
  {
  }

  lemma LifeIsBalanced(a: Books, k: SockKey)
    requires WellFormed(a) && LivesBalance(a)
    ensures Balanced(a.metric, LifeOf(a, k))
  {
  }

  lemma PostBalance(a: Books, p: Posting)
    requires WellFormed(a) && LivesBalance(a) && UnitOk(a, p)
    ensures var b := SetLife(a, p.sock, Post(LifeOf(a, p.sock), p));
      LivesBalance(b) && SumCredited(b.lives) == SumCredited(a.lives) + CreditOf(p)
  {
    var l := LifeOf(a, p.sock);
    LifeIsBalanced(a, p.sock);
    PostKeepsBalanced(a.metric, l, p);
    SetLifeEffect(a, p.sock, Post(l, p));
    SetLifeBalance(a, p.sock, Post(l, p));
  }

  lemma StillUnitOk(a: Books, ps: seq<Posting>, p: Posting)
    requires WellFormed(a) && UnitOk(a, p) && forall i :: 0 <= i < |ps| ==> ps[i].sock != p.sock
    ensures UnitOk(PostAll(a, ps), p)
  {
    PostAllUntouched(a, ps, p.sock);
    PostAllKeys(a, ps, p.sock);
  }

  lemma {:induction false} PostAllBalance(a: Books, ps: seq<Posting>)
    requires WellFormed(a) && PostingsOk(ps) && LivesBalance(a)
    requires forall i :: 0 <= i < |ps| ==> UnitOk(a, ps[i])
    ensures LivesBalance(PostAll(a, ps))
    ensures SumCredited(PostAll(a, ps).lives) == SumCredited(a.lives) + SumCredits(ps)
  {
    if ps != [] {
      var n := |ps| - 1;
      var init, p := ps[..n], ps[n];
      assert forall i :: 0 <= i < n ==> init[i] == ps[i];
      PostAllBalance(a, init);
      StillUnitOk(a, init, p);
      PostBalance(PostAll(a, init), p);
    }
  }

  /** A posting of a socket: only one with endpoints can be credited or meet the limit. */
  ghost predicate PostingIs(p: Posting, cache: Cache, k: SockKey, s: SockStats, m: Metric) {
    && p.sock == k
    && p.amount == (if k in cache then Contribution(m, cache[k], s) else 0)
    && (p.verdict.NotCached? <==> k !in cache)
    && (k in cache ==> (p.verdict.MissingProps? <==> FlowOf(ContextBeyondNat(cache[k])).None?))
    && (p.lingers <==> k in cache && Lingers(cache[k], s))
  }

  lemma SumCreditsOneMore(ps: seq<Posting>, p: Posting)
    ensures SumCredits(ps + [p]) == SumCredits(ps) + CreditOf(p)
  {
    assert (ps + [p])[..|ps|] == ps;
  }

  lemma CreditOfPosting(flows: FlowTable, cache: Cache, k: SockKey, s: SockStats, m: Metric)
    ensures CreditOf(PostingFor(flows, cache, k, s, m)) == Credit(flows, cache, k, s, m)
  {
  }

  lemma {:induction false} PostingsCredit(
      flows: FlowTable, cache: Cache, deltas: Stream, order: seq<SockKey>, m: Metric)
    requires forall i :: 0 <= i < |order| ==> order[i] in deltas
    ensures SumCredits(Postings(flows, cache, deltas, order, m))
         == FoldCredit(flows, cache, deltas, order, m)
  {
    if order != [] {
      var init, k := order[..|order| - 1], order[|order| - 1];
      PostingsCredit(flows, cache, deltas, init, m);
      var mid := FlowFold(flows, cache, deltas, init);
      SumCreditsOneMore(Postings(flows, cache, deltas, init, m), PostingFor(mid, cache, k, deltas[k].stats, m));
      CreditOfPosting(mid, cache, k, deltas[k].stats, m);
    }
  }

  lemma PostingForIs(flows: FlowTable, cache: Cache, k: SockKey, s: SockStats, m: Metric)
    ensures PostingIs(PostingFor(flows, cache, k, s, m), cache, k, s, m)
  {
  }

  lemma {:induction false} PostingAt(
      flows: FlowTable, cache: Cache, deltas: Stream, order: seq<SockKey>, m: Metric, i: nat)
    requires forall i :: 0 <= i < |order| ==> order[i] in deltas
    requires i < |order|
    ensures PostingIs(Postings(flows, cache, deltas, order, m)[i], cache, order[i],
                      deltas[order[i]].stats, m)
  {
    var n := |order| - 1;
    if i < n {
      PostingAt(flows, cache, deltas, order[..n], m, i);
    } else {
      PostingForIs(FlowFold(flows, cache, deltas, order[..n]), cache, order[n], deltas[order[n]].stats, m);
    }
  }

  // --- One entry through processing ---

  lemma EmittedCongruent(prior: Option<SockWrapper>, incoming: AggSockStats, emitted: nat, f: Counter)
    requires prior.Some? ==> Congruent(emitted, Ctr(prior.value.agg.stats, f), Width(f))
    requires prior.None? ==> emitted == 0
    ensures Congruent(emitted + Ctr(Delta(prior, incoming).stats, f), Ctr(incoming.stats, f), Width(f))
  {
    match prior {
      case Some(w) =>
        SubtractCounter(incoming.stats, w.agg.stats, f);
        WrappedDeltaTelescopes(emitted, Ctr(w.agg.stats, f), Ctr(incoming.stats, f), Width(f));
      case None => CongruentRefl(Ctr(incoming.stats, f), Width(f));
    }
  }

  /** Whatever counts once only is contributed by an entry that is evicted in the same pass. */
  lemma KeptContributesNothing(m: Metric, w: SockWrapper, s: SockStats)
    requires OnceOnly(m) && IsValid(w.context) && FlagsOk(s)
    requires w.isComplete == IsClosed(s) && !ShouldEvict(w)
    ensures Contribution(m, w, s) == 0
  {
  }

  ghost predicate PriorOk(m: Metric, l: Life, prior: Option<SockWrapper>, cycle: nat) {
    match prior
    case Some(w) => LifeOk(m, l, w, cycle) && ContextOk(w)
    case None => l == NewLife(cycle)
  }

  /** The initialisation counter after statistics were read and the entry kept. */
  lemma StoredInitialisation(m: Metric, l: Life, prior: Option<SockWrapper>, incoming: AggSockStats,
                             stalenessUs: nat, cycle: nat)
    requires PriorOk(m, l, prior, cycle) && !ShouldEvict(Stored(prior, incoming, stalenessUs))
    ensures var w := Stored(prior, incoming, stalenessUs);
      && (IsValid(w.context) <==> l.hadContext)
      && (w.cyclesNotFullyInitialized.None? <==> l.hadContext)
      && (w.cyclesNotFullyInitialized.Some? ==>
            w.cyclesNotFullyInitialized.value == cycle + 1 - l.born <= 1)
  {
  }

  /** A read carries the severed flags that were cached. */
  ghost predicate Carried(prior: Option<SockWrapper>, incoming: AggSockStats) {
    prior.Some? && SeveredConnecting(prior.value.agg.stats) ==> SeveredConnecting(incoming.stats)
  }

  lemma StoredLifeOk(m: Metric, l: Life, prior: Option<SockWrapper>, incoming: AggSockStats,
                     stalenessUs: nat, cycle: nat, w: SockWrapper, p: Posting)
    requires PriorOk(m, l, prior, cycle) && FlagsOk(incoming.stats) && Carried(prior, incoming)
    requires w == Stored(prior, incoming, stalenessUs).(contextExternal := w.contextExternal)
    requires ContextOk(w) && !ShouldEvict(w)
    requires p.amount == Contribution(m, w, Delta(prior, incoming).stats) && !p.verdict.NotCached?
    requires p.verdict.MissingProps? <==> FlowOf(ContextBeyondNat(w)).None?
    requires p.lingers <==> Lingers(w, Delta(prior, incoming).stats)
    ensures LifeOk(m, Post(l, p), w, cycle + 1)
  {
    StoredInitialisation(m, l, prior, incoming, stalenessUs, cycle);
    if m.OfCounter? {
      EmittedCongruent(prior, incoming, l.emitted, m.f);
    }
    if OnceOnly(m) && IsValid(w.context) {
      KeptContributesNothing(m, w, Delta(prior, incoming).stats);
    }
  }

  lemma AbsentLifeOk(m: Metric, l: Life, w0: SockWrapper, stalenessUs: nat, cycle: nat, w: SockWrapper)
    requires LifeOk(m, l, w0, cycle)
    requires w == UpdateAbsent(w0, stalenessUs).(contextExternal := w.contextExternal)
    requires !ShouldEvict(w)
    ensures LifeOk(m, l, w, cycle + 1)
  {
  }

  // --- All entries through processing ---

  lemma ProcessEntry(a: Books, cache: Cache, stream: Stream, stalenessUs: nat, ring: Ring,
                     ps: seq<Posting>, k: SockKey)
    requires WellFormed(a) && EntriesOk(a, cache) && ring.Valid()
    requires k in cache ==> ContextOk(cache[k])
    requires k in stream ==> FlagsOk(stream[k].stats) && Carried(Find(cache, k), stream[k])
    requires k in Kept(Processed(cache, stream, stalenessUs, ring)) && PostingsOk(ps)
    requires Posted(ps, k) <==> k in stream
    requires forall i :: 0 <= i < |ps| && ps[i].sock == k && k in stream ==>
      PostingIs(ps[i], Processed(cache, stream, stalenessUs, ring), k,
                Delta(Find(cache, k), stream[k]).stats, a.metric)
    ensures LifeOk(a.metric, LifeOf(PostAll(a, ps), k),
                   Processed(cache, stream, stalenessUs, ring)[k], a.cycle + 1)
  {
    var w := Processed(cache, stream, stalenessUs, ring)[k];
    ProcessedEntry(cache, stream, stalenessUs, ring, k);
    if k in stream {
      var i :| 0 <= i < |ps| && ps[i].sock == k;
      PostAllTouched(a, ps, i);
      assert PriorOk(a.metric, LifeOf(a, k), Find(cache, k), a.cycle);
      StoredLifeOk(a.metric, LifeOf(a, k), Find(cache, k), stream[k], stalenessUs, a.cycle, w, ps[i]);
    } else {
      PostAllUntouched(a, ps, k);
      AbsentLifeOk(a.metric, LifeOf(a, k), cache[k], stalenessUs, a.cycle, w);
    }
  }

  /** The postings of a cycle: one per socket read, none for the others. */
  ghost predicate PostsStream(ps: seq<Posting>, cache: Cache, deltas: Stream, m: Metric) {
    && PostingsOk(ps)
    && (forall k :: Posted(ps, k) <==> k in deltas)
    && (forall i :: 0 <= i < |ps| ==>
          ps[i].sock in deltas && PostingIs(ps[i], cache, ps[i].sock, deltas[ps[i].sock].stats, m))
  }

  lemma CyclePostings(flows: FlowTable, cache: Cache, deltas: Stream, order: seq<SockKey>, m: Metric)
    requires Visits(order, deltas.Keys)
    ensures PostsStream(Postings(flows, cache, deltas, order, m), cache, deltas, m)
  {
    var ps := Postings(flows, cache, deltas, order, m);
    forall i | 0 <= i < |order|
      ensures ps[i].sock == order[i] && PostingIs(ps[i], cache, order[i], deltas[order[i]].stats, m)
    {
      PostingAt(flows, cache, deltas, order, m, i);
    }
    VisitsAll(order, deltas.Keys);
    forall k | k in deltas ensures Posted(ps, k) {
      var i :| 0 <= i < |order| && order[i] == k;
      assert ps[i].sock == k;
    }
  }

  ghost predicate AllCarried(cache: Cache, stream: Stream) {
    forall k :: k in stream ==> Carried(Find(cache, k), stream[k])
  }

  /** Deltas keep the flags. */
  lemma DeltasCarry(cache: Cache, stream: Stream)
    requires AllCarried(cache, stream)
    ensures AllCarried(cache, DeltasOf(cache, stream))
  {
  }

  lemma ProcessEntries(a: Books, cache: Cache, stream: Stream, stalenessUs: nat, ring: Ring, ps: seq<Posting>)
    requires WellFormed(a) && EntriesOk(a, cache) && ring.Valid()
    requires forall k :: k in cache ==> ContextOk(cache[k])
    requires forall k :: k in stream ==> FlagsOk(stream[k].stats) && Carried(Find(cache, k), stream[k])
    requires PostsStream(ps, Processed(cache, stream, stalenessUs, ring), DeltasOf(cache, stream), a.metric)
    ensures var kept := Kept(Processed(cache, stream, stalenessUs, ring));
      var b := CloseEvicted(PostAll(a, ps), kept.Keys);
      WellFormed(b) && EntriesOk(b, kept)
  {
    var kept, mid := Kept(Processed(cache, stream, stalenessUs, ring)), PostAll(a, ps);
    var b := CloseEvicted(mid, kept.Keys);
    forall k | k in kept
      ensures k in b.current && LifeOk(a.metric, LifeOf(b, k), kept[k], b.cycle)
    {
      PostAllKeys(a, ps, k);
      ProcessEntry(a, cache, stream, stalenessUs, ring, ps, k);
    }
    PostAllKeys(a, ps, 0);
  }

  lemma ProcessBalance(a: Books, s: Sys, ps: seq<Posting>, cache: Cache, deltas: Stream)
    requires WellFormed(a) && EntriesOk(a, s.cache) && LivesBalance(a)
    requires PostsStream(ps, cache, deltas, a.metric) && s.cache.Keys <= cache.Keys
    requires forall k :: k in deltas ==> Carried(Find(s.cache, k), deltas[k])
    ensures LivesBalance(PostAll(a, ps))
    ensures SumCredited(PostAll(a, ps).lives) == SumCredited(a.lives) + SumCredits(ps)
  {
    forall i | 0 <= i < |ps| ensures UnitOk(a, ps[i]) {
      assert PostingIs(ps[i], cache, ps[i].sock, deltas[ps[i].sock].stats, a.metric);
      if ps[i].sock in s.cache {
        assert LifeOk(a.metric, LifeOf(a, ps[i].sock), s.cache[ps[i].sock], a.cycle);
      }
    }
    PostAllBalance(a, ps);
  }

  /** Flows gain what the postings credit, less what they cannot hold. */
  lemma ProcessFlows(a: Books, flows: FlowTable, cache: Cache, deltas: Stream, order: seq<SockKey>, b: Books)
    requires forall i :: 0 <= i < |order| ==> order[i] in deltas
    requires FlowsBalance(a, flows)
    requires b.metric == a.metric && b.taken == a.taken && b.lost == a.lost && b.saturated == a.saturated
    requires SumCredited(b.lives)
          == SumCredited(a.lives) + FoldCredit(ClearAllLevels(flows), cache, deltas, order, a.metric)
    ensures var start := ClearAllLevels(flows);
      FlowsBalance(BookSaturation(b, start, cache, deltas, order), FlowFold(start, cache, deltas, order))
  {
    var start := ClearAllLevels(flows);
    if IsLedgerMetric(a.metric) {
      ClearLevelsKeepsTotals(flows, a.metric);
      FlowFoldTotal(start, cache, deltas, order, a.metric);
    }
    FoldLostIff(start, cache, deltas, order, a.metric);
    if !a.metric.OfCounter? {
      UnboundedLosesNothing(start, cache, deltas, order, a.metric);
    }
  }

  lemma SaturationKeepsEntries(b: Books, cache: Cache, lost: nat, saturated: bool)
    requires WellFormed(b) && EntriesOk(b, cache) && LivesBalance(b)
    ensures var c := b.(lost := lost, saturated := saturated);
      WellFormed(c) && EntriesOk(c, cache) && LivesBalance(c)
  {
    var c := b.(lost := lost, saturated := saturated);
    assert forall k :: LifeOf(c, k) == LifeOf(b, k);
  }

  lemma BooksProcessed(a: Books, s: Sys, ring: Ring, order: seq<SockKey>, cache: Cache, deltas: Stream)
    requires BooksInv(a, s) && CacheOk(s.cache, s.bpf.stats) && StreamOk(s.stream, s.bpf.stats)
    requires AllCarried(s.cache, s.stream)
    requires ring.Valid() && cache == Processed(s.cache, s.stream, StalenessUs(s), ring)
    requires deltas == DeltasOf(s.cache, s.stream) && Visits(order, deltas.Keys)
    ensures var start := ClearAllLevels(s.flows);
      BooksOk(Processing(a, start, cache, deltas, order), Kept(cache), FlowFold(start, cache, deltas, order))
  {
    var start := ClearAllLevels(s.flows);
    var ps := Postings(start, cache, deltas, order, a.metric);
    CyclePostings(start, cache, deltas, order, a.metric);
    ProcessEntries(a, s.cache, s.stream, StalenessUs(s), ring, ps);
    DeltasCarry(s.cache, s.stream);
    ProcessBooksBalance(a, s, cache, deltas, order);
    var b, c := CloseEvicted(PostAll(a, ps), Kept(cache).Keys), Processing(a, start, cache, deltas, order);
    SaturationKeepsEntries(b, Kept(cache), c.lost, c.saturated);
  }

  lemma BooksProcess(a: Books, s: Sys, ring: Ring, order: seq<SockKey>)
    requires BooksInv(a, s) && CacheOk(s.cache, s.bpf.stats) && StreamOk(s.stream, s.bpf.stats)
    requires AllCarried(s.cache, s.stream)
    requires ring.Valid() && Visits(order, s.stream.Keys)
    ensures BooksInv(BookProcess(a, s, ring, order), DoProcess(s, ring, order))
  {
    var cache, deltas := Processed(s.cache, s.stream, StalenessUs(s), ring), DeltasOf(s.cache, s.stream);
    assert deltas.Keys == s.stream.Keys;
    BooksProcessed(a, s, ring, order, cache, deltas);
  }

  lemma ProcessBooksBalance(a: Books, s: Sys, cache: Cache, deltas: Stream, order: seq<SockKey>)
    requires BooksInv(a, s) && Visits(order, deltas.Keys) && s.cache.Keys <= cache.Keys
    requires AllCarried(s.cache, deltas)
    ensures var start := ClearAllLevels(s.flows);
      var b := CloseEvicted(PostAll(a, Postings(start, cache, deltas, order, a.metric)), Kept(cache).Keys);
      && b.metric == a.metric && LivesBalance(b)
      && FlowsBalance(BookSaturation(b, start, cache, deltas, order), FlowFold(start, cache, deltas, order))
  {
    var start := ClearAllLevels(s.flows);
    var ps := Postings(start, cache, deltas, order, a.metric);
    CyclePostings(start, cache, deltas, order, a.metric);
    ProcessBalance(a, s, ps, cache, deltas);
    PostingsCredit(start, cache, deltas, order, a.metric);
    PostAllKeys(a, ps, 0);
    var b := CloseEvicted(PostAll(a, ps), Kept(cache).Keys);
    ProcessFlows(a, s.flows, cache, deltas, order, b);
  }

  lemma BooksTake(a: Books, s: Sys)
    requires BooksInv(a, s)
    ensures BooksInv(a.(taken := a.taken + FlowTotal(s.flows, a.metric)), s.(flows := map[]))
  {
    var a' := a.(taken := a.taken + FlowTotal(s.flows, a.metric));
    assert forall k :: LifeOf(a', k) == LifeOf(a, k);
    assert Values(map[], a.metric) == map[];
  }

  lemma BooksStep(a: Books, s: Sys, step: Step)
    requires Inv(s) && BooksInv(a, s) && Enabled(s, step)
    requires step.Process? ==> AllCarried(s.cache, s.stream)
    ensures BooksInv(Book(a, s, step), Do(s, step))
  {
    match step {
      case Absorb(key) => BooksAbsorb(a, s, key);
      case Process(ring, order) => BooksProcess(a, s, ring, order);
      case TakeFlows => BooksTake(a, s);
      case _ => BooksOther(a, s, step);
    }
  }

  lemma BooksOther(a: Books, s: Sys, step: Step)
    requires BooksInv(a, s) && Enabled(s, step)
    requires !step.Absorb? && !step.Process? && !step.TakeFlows?
    ensures BooksInv(a, Do(s, step))
  {
    var t := Do(s, step);
    assert t.cache == s.cache && t.flows == s.flows by {
      match step {
        case BpfEvent(_) =>
        case Begin(_) =>
        case StopAbsorbing =>
        case Drop(_) =>
        case StartReading =>
        case Read(_) =>
        case Remove(_) =>
        case Finish =>
      }
    }
  }

  // ---------------------------------------------------------------------------------------------
  // Over whole runs
  // ---------------------------------------------------------------------------------------------

  /** The books kept along a run. */
  ghost function BooksOf(m: Metric, s: Sys, steps: seq<Step>): (a: Books)
    requires Run(s, steps).Some?
    ensures WellFormed(a)
  {
    if steps == [] then Open(m)
    else
      var init := steps[..|steps| - 1];
      Book(BooksOf(m, s, init), Run(s, init).value, steps[|steps| - 1])
  }

  lemma DeltasKeepKeys(cache: Cache, stream: Stream)
    ensures DeltasOf(cache, stream).Keys == stream.Keys
  {
  }

  lemma BookProcessIs(a: Books, s: Sys, ring: Ring, order: seq<SockKey>, cache: Cache, deltas: Stream)
    requires WellFormed(a) && ring.Valid() && forall i :: 0 <= i < |order| ==> order[i] in s.stream
    requires cache == Processed(s.cache, s.stream, StalenessUs(s), ring) && deltas == DeltasOf(s.cache, s.stream)
    ensures BookProcess(a, s, ring, order) == Processing(a, ClearAllLevels(s.flows), cache, deltas, order)
  {
  }

  lemma ProcessingKeepsMetric(a: Books, start: FlowTable, cache: Cache, deltas: Stream, order: seq<SockKey>)
    requires WellFormed(a) && forall i :: 0 <= i < |order| ==> order[i] in deltas
    ensures Processing(a, start, cache, deltas, order).metric == a.metric
  {
    PostAllKeys(a, Postings(start, cache, deltas, order, a.metric), 0);
  }

  lemma BookProcessKeepsMetric(a: Books, s: Sys, ring: Ring, order: seq<SockKey>)
    requires WellFormed(a) && ring.Valid() && forall i :: 0 <= i < |order| ==> order[i] in s.stream
    ensures BookProcess(a, s, ring, order).metric == a.metric
  {
    var cache, deltas := Processed(s.cache, s.stream, StalenessUs(s), ring), DeltasOf(s.cache, s.stream);
    DeltasKeepKeys(s.cache, s.stream);
    BookProcessIs(a, s, ring, order, cache, deltas);
    ProcessingKeepsMetric(a, ClearAllLevels(s.flows), cache, deltas, order);
  }

  lemma BookKeepsMetric(a: Books, s: Sys, step: Step)
    requires WellFormed(a) && Enabled(s, step)
    ensures Book(a, s, step).metric == a.metric
  {
    if step.Process? {
      BookProcessKeepsMetric(a, s, step.ring, step.order);
    }
  }

  /** Over every run, a complete read carries the severed flags that were cached. */
  lemma CarriedAlongRun(s: Sys, steps: seq<Step>)
    requires Initial(s) && Run(s, steps).Some?
    requires Run(s, steps).value.phase.Reading? && Run(s, steps).value.toRead == {}
    ensures AllCarried(Run(s, steps).value.cache, Run(s, steps).value.stream)
  {
    var t := Run(s, steps).value;
    forall k | k in t.stream ensures Carried(Find(t.cache, k), t.stream[k]) {
      Levels.ReadsLoseNoFlag(s, steps, k, StartedClosure);
      Levels.ReadsLoseNoFlag(s, steps, k, TerminatedFromSyn);
    }
  }

  lemma {:induction false} BooksAlongRun(m: Metric, s: Sys, steps: seq<Step>)
    requires Initial(s) && Run(s, steps).Some?
    ensures BooksOf(m, s, steps).metric == m
    ensures Inv(Run(s, steps).value) && BooksInv(BooksOf(m, s, steps), Run(s, steps).value)
  {
    RunKeepsInv(s, steps);
    if steps == [] {
      assert Values(map[], m) == map[];
    } else {
      var init, last := steps[..|steps| - 1], steps[|steps| - 1];
      BooksAlongRun(m, s, init);
      if last.Process? {
        CarriedAlongRun(s, init);
      }
      BooksStep(BooksOf(m, s, init), Run(s, init).value, last);
      BookKeepsMetric(BooksOf(m, s, init), Run(s, init).value, last);
    }
  }

  /** Conservation, over every run and for every counter: a cached socket's counter is, modulo its
      width, all that was emitted since the socket entered the cache; in every lifetime what was
      emitted reached flows, or was dropped for want of endpoints or by the flow limit, all of it for want
      of endpoints while the socket has no context; and what all lifetimes were credited is found, to the last unit, in the flows pending, in the flows already taken, or in what
      saturated flows could not hold, which is nothing exactly when no single flow ever saturated. */
  lemma ConservationLedger(f: Counter, s: Sys, steps: seq<Step>)
    requires Initial(s) && Run(s, steps).Some?
    ensures var (a, t) := (BooksOf(OfCounter(f), s, steps), Run(s, steps).value);
      && (forall k :: k in t.cache ==>
            k in a.current && Congruent(LifeOf(a, k).emitted, Ctr(t.cache[k].agg.stats, f), Width(f)))
      && (forall i :: 0 <= i < |a.lives| ==>
            a.lives[i].emitted == a.lives[i].credited + a.lives[i].unplaced + a.lives[i].crowdedOut)
      && (forall k :: k in t.cache && !IsValid(t.cache[k].context) ==>
            LifeOf(a, k).emitted == LifeOf(a, k).unplaced)
      && (IsFlowMetric(OfCounter(f)) ==>
            FlowTotal(t.flows, OfCounter(f)) + a.taken + a.lost == SumCredited(a.lives))
      && (a.lost == 0 <==> !a.saturated)
  {
    BooksAlongRun(OfCounter(f), s, steps);
    var a, t := BooksOf(OfCounter(f), s, steps), Run(s, steps).value;
    forall k | k in t.cache
      ensures k in a.current && Congruent(LifeOf(a, k).emitted, Ctr(t.cache[k].agg.stats, f), Width(f))
    {
      assert LifeOk(a.metric, LifeOf(a, k), t.cache[k], a.cycle);
    }
    forall i | 0 <= i < |a.lives|
      ensures a.lives[i].emitted == a.lives[i].credited + a.lives[i].unplaced + a.lives[i].crowdedOut
    {
      assert Balanced(a.metric, a.lives[i]);
    }
  }

  /** Counted once: over every run, a lifetime adds at most one to `sockets_completed` and at most one
      to `severed_establish` over all flows; entries still cached have added nothing, so the one comes
      in the very cycle that evicts; and the flows hold exactly these ones. */
  lemma CountedOnce(m: Metric, s: Sys, steps: seq<Step>)
    requires OnceOnly(m) && Initial(s) && Run(s, steps).Some?
    ensures var (a, t) := (BooksOf(m, s, steps), Run(s, steps).value);
      && (forall i :: 0 <= i < |a.lives| ==> a.lives[i].credited <= 1)
      && (forall k :: k in t.cache ==> k in a.current && LifeOf(a, k).credited == 0)
      && FlowTotal(t.flows, m) + a.taken == SumCredited(a.lives)
  {
    BooksAlongRun(m, s, steps);
    var a, t := BooksOf(m, s, steps), Run(s, steps).value;
    forall k | k in t.cache ensures k in a.current && LifeOf(a, k).credited == 0 {
      assert LifeOk(a.metric, LifeOf(a, k), t.cache[k], a.cycle);
    }
    forall i | 0 <= i < |a.lives| ensures a.lives[i].credited <= 1 {
      assert Balanced(a.metric, a.lives[i]);
    }
  }

  /** Initialisation, over every run: the counter of cycles not fully initialised is absent exactly
      when the entry has had both a context and a statistics read; otherwise it equals the number of
      eviction passes survived, and that is at most one. */
  lemma UninitialisedEntriesDoNotLinger(s: Sys, steps: seq<Step>)
    requires Initial(s) && Run(s, steps).Some?
    ensures var (a, t) := (BooksOf(Completed, s, steps), Run(s, steps).value);
      forall k :: k in t.cache ==> k in a.current && InitialisationOk(LifeOf(a, k), t.cache[k], a.cycle)
  {
    BooksAlongRun(Completed, s, steps);
    var a, t := BooksOf(Completed, s, steps), Run(s, steps).value;
    forall k | k in t.cache
      ensures k in a.current && InitialisationOk(LifeOf(a, k), t.cache[k], a.cycle)
    {
      LifeOkInitialisation(a.metric, LifeOf(a, k), t.cache[k], a.cycle);
    }
  }

  ghost predicate InitialisationOk(l: Life, w: SockWrapper, cycle: nat) {
    && l.born <= cycle
    && (w.cyclesNotFullyInitialized.None? <==> l.hadContext && l.hadStats)
    && (!(l.hadContext && l.hadStats) ==>
          w.cyclesNotFullyInitialized == Some(cycle - l.born) && cycle - l.born <= 1)
  }

  lemma LifeOkInitialisation(m: Metric, l: Life, w: SockWrapper, cycle: nat)
    requires LifeOk(m, l, w, cycle)
    ensures InitialisationOk(l, w, cycle)
  {
  }

  /** Who is evicted, in plain terms: a socket read closed with its context known, or complete from before
      if it was not read; one untouched for the whole tracking time, or never touched; and one overdue
      for initialisation. */
  lemma EvictionIsExact(s: Sys, ring: Ring, order: seq<SockKey>, k: SockKey)
    requires ring.Valid() && CacheOk(s.cache, s.bpf.stats)
    requires forall i :: 0 <= i < |order| ==> order[i] in s.stream
    requires k in s.cache || k in s.stream
    ensures var (t, w) := (DoProcess(s, ring, order), Processed(s.cache, s.stream, StalenessUs(s), ring)[k]);
      var touched := if k in s.stream then s.stream[k].stats.lastTouchedUs else s.cache[k].agg.stats.lastTouchedUs;
      && (k in t.cache <==> k !in t.toRemove)
      && (k in t.cache ==> t.cache[k] == w && touched + s.notrackUs > s.nowUs && touched > 0)
      && (k in t.toRemove <==>
            || (if k in s.stream then k in s.cache && IsValid(s.cache[k].context) && Closed in s.stream[k].stats.flags
                else s.cache[k].isComplete)
            || touched + s.notrackUs <= s.nowUs || touched == 0
            || (w.cyclesNotFullyInitialized.Some? && w.cyclesNotFullyInitialized.value > 1))
  {
    ProcessedStatus(s.cache, s.stream, StalenessUs(s), ring, k);
    var w := Processed(s.cache, s.stream, StalenessUs(s), ring)[k];
    StaleIff(w.agg.stats.lastTouchedUs, s.nowUs, s.notrackUs);
    ProcessOutcome(s, ring, order, Processed(s.cache, s.stream, StalenessUs(s), ring));
  }

  /** A socket counts as completed exactly in the pass that evicts it. */
  lemma CompletedIffEvicted(s: Sys, ring: Ring, order: seq<SockKey>, k: SockKey)
    requires ring.Valid() && CacheOk(s.cache, s.bpf.stats) && k in s.stream
    requires forall i :: 0 <= i < |order| ==> order[i] in s.stream
    ensures var (t, processed) := (DoProcess(s, ring, order), Processed(s.cache, s.stream, StalenessUs(s), ring));
      && k in processed
      && (Contribution(Completed, processed[k], DeltasOf(s.cache, s.stream)[k].stats) == 1 <==> k in t.toRemove)
  {
    ProcessedStatus(s.cache, s.stream, StalenessUs(s), ring, k);
    ProcessOutcome(s, ring, order, Processed(s.cache, s.stream, StalenessUs(s), ring));
  }

  lemma ProcessOutcome(s: Sys, ring: Ring, order: seq<SockKey>, cache: Cache)
    requires ring.Valid() && cache == Processed(s.cache, s.stream, StalenessUs(s), ring)
    requires forall i :: 0 <= i < |order| ==> order[i] in s.stream
    ensures DoProcess(s, ring, order).cache == Kept(cache)
    ensures DoProcess(s, ring, order).toRemove.Keys == Evicted(cache).Keys
  {
  }

  /** The status of an entry after processing: stale by its timestamp, and complete if it was read closed
      and has a context. */
  lemma ProcessedStatus(cache: Cache, stream: Stream, stalenessUs: nat, ring: Ring, k: SockKey)
    requires ring.Valid() && (k in cache || k in stream) && (k in cache ==> ContextOk(cache[k]))
    ensures var processed := Processed(cache, stream, stalenessUs, ring);
      && k in processed && ContextOk(processed[k])
      && (processed[k].isStale <==> processed[k].agg.stats.lastTouchedUs <= stalenessUs)
      && processed[k].agg == (if k in stream then stream[k] else cache[k].agg)
      && processed[k].context == (if k in cache then cache[k].context else NO_CONTEXT)
      && (processed[k].isComplete <==>
            if k in stream then k in cache && IsValid(cache[k].context) && Closed in stream[k].stats.flags
            else cache[k].isComplete)
      && (k in stream && IsValid(processed[k].context) ==> processed[k].cyclesNotFullyInitialized.None?)
  {
    ProcessedEntry(cache, stream, stalenessUs, ring, k);
    if k in stream {
      StoredEntry(Find(cache, k), stream[k], stalenessUs);
    } else {
      AbsentEntry(cache[k], stalenessUs);
    }
  }

  /** Why a read of a cached socket is dropped: exactly without a valid context, or for want of room for
      a new flow. */
  lemma DroppedIff(flows: FlowTable, cache: Cache, k: SockKey)
    requires k in cache && ContextOk(cache[k])
    ensures Judge(flows, cache, k).MissingProps? <==> !IsValid(cache[k].context)
    ensures Judge(flows, cache, k).AboveLimit? <==>
      && IsValid(cache[k].context) && |flows| >= AGG_FLOWS_MAX_ENTRIES
      && FlowOf(ContextBeyondNat(cache[k])).value !in flows
    ensures Judge(flows, cache, k).Credited? || Judge(flows, cache, k).MissingProps?
            || Judge(flows, cache, k).AboveLimit?
  {
  }

  /** One read of a socket: it is credited as severed while connecting, and kept to be read again,
      exactly when it has a flow, is so flagged, and is neither closed nor stale. */
  lemma SeveredConnectLingersIff(flows: FlowTable, cache: Cache, stream: Stream, stalenessUs: nat, ring: Ring,
                                 k: SockKey)
    requires ring.Valid() && k in stream && (k in cache ==> ContextOk(cache[k]))
    ensures var processed := Processed(cache, stream, stalenessUs, ring);
      var p := PostingFor(flows, processed, k, DeltasOf(cache, stream)[k].stats, SeveredConnect);
      && (p.verdict.Credited? && p.lingers <==> CreditOf(p) == 1 && k in Kept(processed))
      && (p.lingers <==>
            && {StartedClosure, TerminatedFromSyn} <= stream[k].stats.flags
            && Closed !in stream[k].stats.flags && stream[k].stats.lastTouchedUs > stalenessUs)
  {
    ProcessedStatus(cache, stream, stalenessUs, ring, k);
    var processed, s := Processed(cache, stream, stalenessUs, ring), DeltasOf(cache, stream)[k].stats;
    assert s.flags == stream[k].stats.flags;
    LingersIsCreditedAndKept(flows, processed, k, s);
  }

  lemma LingersIsCreditedAndKept(flows: FlowTable, cache: Cache, k: SockKey, s: SockStats)
    requires k in cache && ContextOk(cache[k])
    requires IsValid(cache[k].context) ==>
      (cache[k].isComplete <==> IsClosed(s)) && cache[k].cyclesNotFullyInitialized.None?
    ensures var p := PostingFor(flows, cache, k, s, SeveredConnect);
      p.verdict.Credited? && p.lingers <==> CreditOf(p) == 1 && k in Kept(cache)
  {
    DroppedIff(flows, cache, k);
  }

  /** `severed_connect` is not counted once only. Over every run, a lifetime is counted more than once
      exactly when a read with a flow finds it severed while connecting, open and fresh, and a later read
      has a flow. */
  lemma SeveredConnectRepeatsIff(s: Sys, steps: seq<Step>)
    requires Initial(s) && Run(s, steps).Some?
    ensures var (a, t) := (BooksOf(SeveredConnect, s, steps), Run(s, steps).value);
      && (forall i :: 0 <= i < |a.lives| ==> (a.lives[i].credited > 1 <==> a.lives[i].reread))
      && (forall i :: 0 <= i < |a.lives| && !a.lives[i].lingered ==> a.lives[i].credited <= 1)
      && (forall k :: k in t.cache ==>
            k in a.current && (LifeOf(a, k).credited > 0 <==> LifeOf(a, k).lingered))
      && FlowTotal(t.flows, SeveredConnect) + a.taken == SumCredited(a.lives)
  {
    BooksAlongRun(SeveredConnect, s, steps);
    var a, t := BooksOf(SeveredConnect, s, steps), Run(s, steps).value;
    LivesRepeatIff(a);
    CachedLingerIff(a, t.cache);
  }

  /** What the later read does: a socket that lingered is read again in every cycle that completes its
      read, still flagged and with endpoints, so it is counted again unless the flow limit spares it. */
  lemma LingeringIsCountedAgain(s: Sys, steps: seq<Step>, ring: Ring, order: seq<SockKey>, k: SockKey,
                                flows: FlowTable)
    requires Initial(s) && Run(s, steps).Some? && Enabled(Run(s, steps).value, Process(ring, order))
    ensures var (t, a) := (Run(s, steps).value, BooksOf(SeveredConnect, s, steps));
      k in t.cache && LifeOf(a, k).lingered ==>
        && k in t.stream
        && var p := PostingFor(flows, Processed(t.cache, t.stream, StalenessUs(t), ring), k,
                               DeltasOf(t.cache, t.stream)[k].stats, SeveredConnect);
           p.amount == 1 && (p.verdict.Credited? || p.verdict.AboveLimit?)
  {
    var t, a := Run(s, steps).value, BooksOf(SeveredConnect, s, steps);
    if k in t.cache && LifeOf(a, k).lingered {
      LingeringIsReadAgain(s, steps, k);
      StillSevered(t, ring, k, flows);
    }
  }

  lemma LingeringEntry(a: Books, cache: Cache, k: SockKey)
    requires WellFormed(a) && EntriesOk(a, cache) && LivesBalance(a) && a.metric == SeveredConnect
    requires k in cache && LifeOf(a, k).lingered
    ensures IsValid(cache[k].context) && SeveredConnecting(cache[k].agg.stats)
  {
    assert LifeOk(a.metric, LifeOf(a, k), cache[k], a.cycle);
    LifeIsBalanced(a, k);
  }

  lemma LingeringIsReadAgain(s: Sys, steps: seq<Step>, k: SockKey)
    requires Initial(s) && Run(s, steps).Some?
    requires Run(s, steps).value.phase.Reading? && Run(s, steps).value.toRead == {}
    requires k in Run(s, steps).value.cache && LifeOf(BooksOf(SeveredConnect, s, steps), k).lingered
    ensures var t := Run(s, steps).value;
      && CacheOk(t.cache, t.bpf.stats) && IsValid(t.cache[k].context)
      && k in t.stream && SeveredConnecting(t.stream[k].stats)
  {
    BooksAlongRun(SeveredConnect, s, steps);
    LingeringEntry(BooksOf(SeveredConnect, s, steps), Run(s, steps).value.cache, k);
    Levels.ReadsLoseNoFlag(s, steps, k, StartedClosure);
    Levels.ReadsLoseNoFlag(s, steps, k, TerminatedFromSyn);
  }

  lemma StillSevered(t: Sys, ring: Ring, k: SockKey, flows: FlowTable)
    requires CacheOk(t.cache, t.bpf.stats) && ring.Valid() && k in t.cache && k in t.stream
    requires IsValid(t.cache[k].context) && SeveredConnecting(t.stream[k].stats)
    ensures var p := PostingFor(flows, Processed(t.cache, t.stream, StalenessUs(t), ring), k,
                                DeltasOf(t.cache, t.stream)[k].stats, SeveredConnect);
      p.amount == 1 && (p.verdict.Credited? || p.verdict.AboveLimit?)
  {
    ProcessedEntry(t.cache, t.stream, StalenessUs(t), ring, k);
    DroppedIff(flows, Processed(t.cache, t.stream, StalenessUs(t), ring), k);
  }

  lemma LivesRepeatIff(a: Books)
    requires LivesBalance(a) && a.metric == SeveredConnect
    ensures forall i :: 0 <= i < |a.lives| ==> (a.lives[i].credited > 1 <==> a.lives[i].reread)
    ensures forall i :: 0 <= i < |a.lives| && !a.lives[i].lingered ==> a.lives[i].credited <= 1
  {
    forall i | 0 <= i < |a.lives| ensures Balanced(a.metric, a.lives[i]) {
    }
  }

  lemma CachedLingerIff(a: Books, cache: Cache)
    requires WellFormed(a) && EntriesOk(a, cache) && LivesBalance(a) && a.metric == SeveredConnect
    ensures forall k :: k in cache ==>
      k in a.current && (LifeOf(a, k).credited > 0 <==> LifeOf(a, k).lingered)
  {
    forall k | k in cache
      ensures k in a.current && (LifeOf(a, k).credited > 0 <==> LifeOf(a, k).lingered)
    {
      assert LifeOk(a.metric, LifeOf(a, k), cache[k], a.cycle);
      assert Balanced(a.metric, a.lives[a.current[k]]);
    }
  }
}
