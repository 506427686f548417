/** Keeping the flows with the greatest loss (nfm-controller/src/events/event_filter_top_loss.rs). */
module TopLoss {
  import opened Arith
  import opened Flows

  datatype AggregateResults = AggregateResults(flow: FlowProperties, stats: NetworkStats)

  datatype Ordering = Less | Equal | Greater

  function TotalBytes(n: NetworkStats): nat { SatAdd(n.bytesReceived, n.bytesDelivered, U64) }

  function RetransTotal(n: NetworkStats): nat {
    SatAdd(SatAdd(n.retransSyn, n.retransEst, U32), n.retransClose, U32)
  }

  function RtosTotal(n: NetworkStats): nat {
    SatAdd(SatAdd(n.rtosSyn, n.rtosEst, U32), n.rtosClose, U32)
  }

  /** Retransmissions once, timeouts twice, severed connections four times, saturating throughout. */
  function QuantifyLoss(n: NetworkStats): nat {
    SatAdd(SatAdd(RetransTotal(n), SatMul(RtosTotal(n), 2, U32), U32),
           SatMul(SatAdd(n.severedConnect, n.severedEstablish, U32), 4, U32), U32)
  }

  function CompareNat(a: nat, b: nat): Ordering {
    if a < b then Less else if a == b then Equal else Greater
  }

  /** By loss, then by bytes. */
  function Compare(a: AggregateResults, b: AggregateResults): Ordering {
    match CompareNat(QuantifyLoss(a.stats), QuantifyLoss(b.stats))
    case Equal => CompareNat(TotalBytes(a.stats), TotalBytes(b.stats))
    case other => other
  }

  /** The comparator is a total preorder that swaps with its arguments. */
  lemma CompareIsTotalPreorder(a: AggregateResults, b: AggregateResults, c: AggregateResults)
    ensures Compare(a, a) == Equal
    ensures Compare(a, b) == Less <==> Compare(b, a) == Greater
    ensures Compare(a, b) == Equal <==> Compare(b, a) == Equal
    ensures Compare(a, b) != Greater && Compare(b, c) != Greater ==> Compare(a, c) != Greater
    ensures Compare(a, b) == Less && Compare(b, c) != Greater ==> Compare(a, c) == Less
  {
  }

  /** The order is by loss, and by bytes between equal losses. */
  lemma CompareIs(a: AggregateResults, b: AggregateResults)
    ensures Compare(a, b) == Less <==> RanksBelow(a, b)
    ensures Compare(a, b) == Greater <==> RanksBelow(b, a)
  {
  }

  /** Less loss, or the same and fewer bytes. */
  predicate RanksBelow(a: AggregateResults, b: AggregateResults) {
    || QuantifyLoss(a.stats) < QuantifyLoss(b.stats)
    || (QuantifyLoss(a.stats) == QuantifyLoss(b.stats) && TotalBytes(a.stats) < TotalBytes(b.stats))
  }

  /** The loss is the weighted sum it stands for, up to the greatest 32-bit value; the bytes are the sum of
      both directions, up to the greatest 64-bit value. */
  lemma LossIsWeightedSum(n: NetworkStats)
    ensures QuantifyLoss(n) == Min(U32 - 1,
              n.retransSyn + n.retransEst + n.retransClose + 2 * (n.rtosSyn + n.rtosEst + n.rtosClose)
              + 4 * (n.severedConnect + n.severedEstablish))
    ensures TotalBytes(n) == Min(U64 - 1, n.bytesReceived + n.bytesDelivered)
  {
  }

  /** Entry `i` of the input goes before entry `j`: it ranks higher, or ties and came first. */
  ghost predicate Before(events: seq<AggregateResults>, i: nat, j: nat)
    requires i < |events| && j < |events|
  {
    Compare(events[j], events[i]) == Less || (Compare(events[j], events[i]) == Equal && i < j)
  }

  lemma BeforeIsStrictOrder(events: seq<AggregateResults>, i: nat, j: nat, k: nat)
    requires i < |events| && j < |events| && k < |events|
    ensures !Before(events, i, i)
    ensures i != j ==> Before(events, i, j) || Before(events, j, i)
    ensures Before(events, i, j) && Before(events, j, k) ==> Before(events, i, k)
  {
    CompareIsTotalPreorder(events[k], events[j], events[i]);
    CompareIsTotalPreorder(events[i], events[j], events[k]);
  }

  /** `from` names distinct entries of the first `n`, each before the next. */
  ghost predicate Sorted(events: seq<AggregateResults>, from: seq<nat>, n: nat) {
    && n <= |events| && (forall i :: 0 <= i < |from| ==> from[i] < n)
    && (forall i, j :: 0 <= i < j < |from| ==> Before(events, from[i], from[j]))
  }

  function Pick(events: seq<AggregateResults>, from: seq<nat>): seq<AggregateResults>
    requires forall i :: 0 <= i < |from| ==> from[i] < |events|
  {
    seq(|from|, i requires 0 <= i < |from| => events[from[i]])
  }

  ghost predicate Covers(from: seq<nat>, n: nat) { forall k: nat :: k < n ==> k in from }

  /** The first `n` entries are in place. */
  ghost predicate SortedSoFar(events: seq<AggregateResults>, sorted: seq<AggregateResults>, from: seq<nat>,
                              n: nat) {
    && Sorted(events, from, n) && |from| == n && Covers(from, n)
    && sorted == Pick(events, from)
    && multiset(sorted) == multiset(events[..n])
  }

  /** Where entry `n` belongs among the sorted ones before it: after all that do not rank lower. */
  method InsertionPoint(events: seq<AggregateResults>, sorted: seq<AggregateResults>, ghost from: seq<nat>,
                        n: nat)
    returns (p: nat)
    requires n < |events| && SortedSoFar(events, sorted, from, n)
    ensures p <= |from|
    ensures forall i :: 0 <= i < p ==> Before(events, from[i], n)
    ensures forall i :: p <= i < |from| ==> Before(events, n, from[i])
  {
    p := |sorted|;
    while p > 0 && Compare(sorted[p - 1], events[n]) == Less
      invariant p <= |sorted|
      invariant forall i :: p <= i < |from| ==> Before(events, n, from[i])
    {
      p := p - 1;
    }
    if p > 0 {
      CompareIsTotalPreorder(events[n], sorted[p - 1], events[n]);
      assert Before(events, from[p - 1], n);
      forall i | 0 <= i < p ensures Before(events, from[i], n) {
        if i < p - 1 {
          BeforeIsStrictOrder(events, from[i], from[p - 1], n);
        }
      }
    }
  }

  lemma InsertKeepsSorted(events: seq<AggregateResults>, from: seq<nat>, n: nat, p: nat)
    requires n < |events| && Sorted(events, from, n) && p <= |from|
    requires forall i :: 0 <= i < p ==> Before(events, from[i], n)
    requires forall i :: p <= i < |from| ==> Before(events, n, from[i])
    ensures Sorted(events, from[..p] + [n] + from[p..], n + 1)
  {
  }

  lemma InsertKeepsCover(from: seq<nat>, n: nat, p: nat)
    requires Covers(from, n) && p <= |from|
    ensures Covers(from[..p] + [n] + from[p..], n + 1)
  {
    var all := from[..p] + [n] + from[p..];
    forall k: nat | k < n + 1 ensures k in all {
      if k < n {
        assert k in from;
        var i :| 0 <= i < |from| && from[i] == k;
        assert all[if i < p then i else i + 1] == k;
      } else {
        assert all[p] == k;
      }
    }
  }

  lemma InsertMultiset<T>(s: seq<T>, x: T, p: nat)
    requires p <= |s|
    ensures multiset(s[..p] + [x] + s[p..]) == multiset(s) + multiset{x}
  {
    assert s == s[..p] + s[p..];
  }

  lemma InsertPicks(events: seq<AggregateResults>, from: seq<nat>, n: nat, p: nat)
    requires n < |events| && p <= |from| && forall i :: 0 <= i < |from| ==> from[i] < |events|
    ensures var (all, sorted) := (from[..p] + [n] + from[p..], Pick(events, from));
      && (forall i :: 0 <= i < |all| ==> all[i] < |events|)
      && Pick(events, all) == sorted[..p] + [events[n]] + sorted[p..]
  {
  }

  lemma SortedIsDescending(events: seq<AggregateResults>, from: seq<nat>, i: nat, j: nat)
    requires Sorted(events, from, |events|) && i < j < |from|
    ensures Compare(events[from[i]], events[from[j]]) != Less
  {
    assert Before(events, from[i], from[j]);
    CompareIsTotalPreorder(events[from[i]], events[from[j]], events[from[j]]);
  }

  /** Inserting the next entry where it belongs puts it in place too. */
  lemma InsertSorts(events: seq<AggregateResults>, sorted: seq<AggregateResults>, from: seq<nat>, n: nat, p: nat)
    requires SortedSoFar(events, sorted, from, n) && n < |events| && p <= |from|
    requires forall i :: 0 <= i < p ==> Before(events, from[i], n)
    requires forall i :: p <= i < |from| ==> Before(events, n, from[i])
    ensures SortedSoFar(events, sorted[..p] + [events[n]] + sorted[p..], from[..p] + [n] + from[p..], n + 1)
  {
    InsertKeepsSorted(events, from, n, p);
    InsertKeepsCover(from, n, p);
    InsertPicks(events, from, n, p);
    InsertMultiset(sorted, events[n], p);
    assert events[..n + 1] == events[..n] + [events[n]];
  }

  /** Puts the next entry in its place. */
  method InsertNext(events: seq<AggregateResults>, sorted0: seq<AggregateResults>, ghost from0: seq<nat>, n: nat)
    returns (sorted: seq<AggregateResults>, ghost from: seq<nat>)
    requires n < |events| && SortedSoFar(events, sorted0, from0, n)
    ensures SortedSoFar(events, sorted, from, n + 1)
  {
    var p := InsertionPoint(events, sorted0, from0, n);
    InsertSorts(events, sorted0, from0, n, p);
    sorted := sorted0[..p] + [events[n]] + sorted0[p..];
    from := from0[..p] + [n] + from0[p..];
  }

  /** A stable descending sort. */
  method SortDescending(events: seq<AggregateResults>)
    returns (sorted: seq<AggregateResults>, ghost from: seq<nat>)
    ensures Sorted(events, from, |events|) && |from| == |events| && Covers(from, |events|)
    ensures sorted == Pick(events, from)
    ensures multiset(sorted) == multiset(events)
  {
    sorted, from := [], [];
    NothingToSort(events);
    for n := 0 to |events|
      invariant SortedSoFar(events, sorted, from, n)
    {
      sorted, from := InsertNext(events, sorted, from, n);
    }
    AllSorted(events, sorted, from);
  }

  lemma NothingToSort(events: seq<AggregateResults>)
    ensures SortedSoFar(events, [], [], 0)
  {
    assert events[..0] == [];
  }

  lemma AllSorted(events: seq<AggregateResults>, sorted: seq<AggregateResults>, from: seq<nat>)
    requires SortedSoFar(events, sorted, from, |events|)
    ensures Sorted(events, from, |events|) && |from| == |events| && Covers(from, |events|)
    ensures sorted == Pick(events, from) && multiset(sorted) == multiset(events)
  {
    assert events[..|events|] == events;
  }

  /** Sorts, then truncates. The result is the true top: of its length, drawn from the input without
      repetition, in descending order with ties in input order, and nothing left out goes before
      anything kept. */
  method FilterEvents(events: seq<AggregateResults>, maxItems: nat)
    returns (kept: seq<AggregateResults>, ghost from: seq<nat>)
    ensures |kept| == Min(maxItems, |events|)
    ensures multiset(kept) <= multiset(events)
    ensures forall i, j :: 0 <= i < j < |kept| ==> !RanksBelow(kept[i], kept[j])
    ensures forall d: nat, i :: d < |events| && d !in from && 0 <= i < |kept| ==> !RanksBelow(kept[i], events[d])
    ensures Sorted(events, from, |events|) && kept == Pick(events, from)
    ensures forall d: nat :: d < |events| && d !in from ==>
      forall i :: 0 <= i < |from| ==> Before(events, from[i], d)
  {
    var sorted;
    ghost var all;
    sorted, all := SortDescending(events);
    var n := Min(maxItems, |sorted|);
    kept := sorted[..n];
    from := all[..n];
    assert sorted == kept + sorted[n..];
    forall i, j | 0 <= i < j < |kept| ensures !RanksBelow(kept[i], kept[j]) {
      SortedIsDescending(events, from, i, j);
      CompareIs(kept[i], kept[j]);
    }
    forall d: nat, i | d < |events| && d !in from && 0 <= i < |from| ensures Before(events, from[i], d) {
      assert d in all;
      var j :| 0 <= j < |all| && all[j] == d;
      assert j >= n;
    }
    forall d: nat, i | d < |events| && d !in from && 0 <= i < |kept| ensures !RanksBelow(kept[i], events[d]) {
      assert Before(events, from[i], d);
      CompareIs(events[d], kept[i]);
      CompareIs(kept[i], events[d]);
    }
  }

  /** This pins the result down: any other selection meeting the contract is the same one. */
  lemma {:induction false} TopIsUnique(events: seq<AggregateResults>, f: seq<nat>, g: seq<nat>, i: nat)
    requires |f| == |g| && i < |f|
    requires Sorted(events, f, |events|) && Sorted(events, g, |events|)
    requires forall d: nat :: d < |events| && d !in f ==> forall i :: 0 <= i < |f| ==> Before(events, f[i], d)
    requires forall d: nat :: d < |events| && d !in g ==> forall i :: 0 <= i < |g| ==> Before(events, g[i], d)
    ensures f[i] == g[i]
    decreases i
  {
    forall j | 0 <= j < i ensures f[j] == g[j] {
      TopIsUnique(events, f, g, j);
    }
    if f[i] != g[i] {
      NotLater(events, f, g, i);
      NotLater(events, g, f, i);
      BeforeIsStrictOrder(events, f[i], g[i], f[i]);
    }
  }

  lemma NotLater(events: seq<AggregateResults>, f: seq<nat>, g: seq<nat>, i: nat)
    requires |f| == |g| && i < |f| && f[i] != g[i]
    requires Sorted(events, f, |events|) && Sorted(events, g, |events|)
    requires forall d: nat :: d < |events| && d !in g ==> forall i :: 0 <= i < |g| ==> Before(events, g[i], d)
    requires forall j :: 0 <= j < i ==> f[j] == g[j]
    ensures Before(events, g[i], f[i])
  {
    if f[i] in g {
      var j :| 0 <= j < |g| && g[j] == f[i];
      if j < i {
        assert Before(events, f[j], f[i]);
        BeforeIsStrictOrder(events, f[i], f[i], f[i]);
      }
    }
  }
}
