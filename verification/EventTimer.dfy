/** The periodic event timer (nfm-controller/src/utils/event_timer.rs) over a clock that moves only by
    exact sleeps (the FakeClock of nfm-controller/src/utils/clock.rs). Times are unbounded here. */
module EventTimerModel {
  import opened Arith

  const EXIT_EVENT: nat := 0
  const MAX_FRAGMENT_US: nat := 1_000_000

  datatype PeriodicEvent = PeriodicEvent(id: nat, periodUs: nat, jitterUs: nat, nextInvocation: nat)

  /** `next` is within the jitter range one period from now. */
  predicate WithinJitter(e: PeriodicEvent, nowUs: nat, next: nat) {
    if e.jitterUs == 0 then next == nowUs + e.periodUs
    else nowUs + e.periodUs <= next + e.jitterUs && next < nowUs + e.periodUs + e.jitterUs
  }

  // ---------------------------------------------------------------------------------------------
  // Firings as a state machine
  // ---------------------------------------------------------------------------------------------

  datatype Schedule = Schedule(nowUs: nat, events: multiset<PeriodicEvent>)

  /** An event fires and is put back at a later time. */
  datatype Firing = Firing(event: PeriodicEvent, next: nat) {
    function Rescheduled(): PeriodicEvent { event.(nextInvocation := next) }
  }

  ghost predicate Earliest(e: PeriodicEvent, events: multiset<PeriodicEvent>) {
    e in events && forall x :: x in events ==> e.nextInvocation <= x.nextInvocation
  }

  ghost predicate Fires(s: Schedule, f: Firing, s': Schedule) {
    && Earliest(f.event, s.events)
    && s'.nowUs == Max(s.nowUs, f.event.nextInvocation)
    && WithinJitter(f.event, s'.nowUs, f.next)
    && s'.events == s.events - multiset{f.event} + multiset{f.Rescheduled()}
  }

  /** One event per id, none twice. */
  ghost predicate UniqueIds(events: multiset<PeriodicEvent>) {
    forall x, y :: x in events && y in events && x.id == y.id ==> x == y && events[x] == 1
  }

  /** Nothing is overdue, and no jitter exceeds its period. */
  ghost predicate OnTime(s: Schedule) {
    forall x :: x in s.events ==> s.nowUs <= x.nextInvocation && x.jitterUs <= x.periodUs
  }

  ghost function Ids(events: multiset<PeriodicEvent>): set<nat> {
    set x | x in events :: x.id
  }

  /** Taking an event out and putting it back at another time. */
  lemma PutBack(all: multiset<PeriodicEvent>, e: PeriodicEvent, e': PeriodicEvent)
    requires e in all && UniqueIds(all) && e'.id == e.id
    ensures var back := all - multiset{e} + multiset{e'};
      && UniqueIds(back) && |back| == |all|
      && (forall x :: x in back ==> x == e' || (x in all && x.id != e.id))
      && (forall x :: x in all ==> x == e || x in back)
  {
    var rest := all - multiset{e};
    assert e !in rest by {
      assert all[e] == 1;
    }
    forall x | x in rest ensures x in all && x.id != e.id && rest[x] == 1 {
    }
    assert e' !in rest;
  }

  lemma TakenOutIsGone(all: multiset<PeriodicEvent>, e: PeriodicEvent)
    requires e in all && UniqueIds(all)
    ensures e.id !in Ids(all - multiset{e})
  {
    assert all[e] == 1;
  }

  lemma PutBackIds(all: multiset<PeriodicEvent>, e: PeriodicEvent, e': PeriodicEvent)
    requires e in all && UniqueIds(all) && e'.id == e.id
    ensures Ids(all - multiset{e} + multiset{e'}) == Ids(all)
  {
    PutBack(all, e, e');
    var back := all - multiset{e} + multiset{e'};
    assert e' in back;
    forall id | id in Ids(all) ensures id in Ids(back) {
      var x :| x in all && x.id == id;
    }
  }

  /** One firing: exactly on time, later than no other event, and nothing lost or duplicated. */
  lemma FiringKeeps(s: Schedule, f: Firing, s': Schedule)
    requires Fires(s, f, s') && UniqueIds(s.events) && OnTime(s)
    ensures s'.nowUs == f.event.nextInvocation && s.nowUs <= s'.nowUs
    ensures UniqueIds(s'.events) && OnTime(s')
    ensures |s'.events| == |s.events| && Ids(s'.events) == Ids(s.events)
  {
    PutBack(s.events, f.event, f.Rescheduled());
    PutBackIds(s.events, f.event, f.Rescheduled());
  }

  /** A run of firings. */
  ghost predicate IsRun(states: seq<Schedule>, firings: seq<Firing>) {
    && |states| == |firings| + 1 && UniqueIds(states[0].events) && OnTime(states[0])
    && forall i :: 0 <= i < |firings| ==> Fires(states[i], firings[i], states[i + 1])
  }

  /** The schedule is in order, and holds the events it held at first. */
  ghost predicate Sound(first: Schedule, s: Schedule) {
    && UniqueIds(s.events) && OnTime(s)
    && |s.events| == |first.events| && Ids(s.events) == Ids(first.events)
  }

  lemma FiringKeepsSound(first: Schedule, s: Schedule, f: Firing, s': Schedule)
    requires Sound(first, s) && Fires(s, f, s')
    ensures Sound(first, s')
  {
    FiringKeeps(s, f, s');
  }

  lemma {:induction false} RunKeeps(states: seq<Schedule>, firings: seq<Firing>, n: nat)
    requires IsRun(states, firings) && n <= |firings|
    ensures Sound(states[0], states[n])
  {
    if n > 0 {
      RunKeeps(states, firings, n - 1);
      FiringKeepsSound(states[0], states[n - 1], firings[n - 1], states[n]);
    }
  }

  /** After a firing the event waits, unchanged, until its next one. */
  lemma {:induction false} WaitsUntilNext(states: seq<Schedule>, firings: seq<Firing>, i: nat, n: nat)
    requires IsRun(states, firings) && i < n <= |firings|
    requires forall k :: i < k < n ==> firings[k].event.id != firings[i].event.id
    ensures firings[i].Rescheduled() in states[n].events
  {
    if n > i + 1 {
      WaitsUntilNext(states, firings, i, n - 1);
      assert firings[n - 1].event != firings[i].Rescheduled();
    }
  }

  /** Over every run: each firing is of an event of earliest scheduled time, exactly at that time;
      no event is lost or duplicated; and two consecutive firings of one event are at least
      period - jitter and less than period + jitter apart, exactly a period when there is no jitter. */
  lemma TimerKeepsCadence(states: seq<Schedule>, firings: seq<Firing>, i: nat, j: nat)
    requires IsRun(states, firings) && i < j < |firings|
    requires firings[j].event.id == firings[i].event.id
    requires forall k :: i < k < j ==> firings[k].event.id != firings[i].event.id
    ensures states[i + 1].nowUs == firings[i].event.nextInvocation
    ensures Earliest(firings[i].event, states[i].events)
    ensures |states[j].events| == |states[0].events| && Ids(states[j].events) == Ids(states[0].events)
    ensures var (e, gap) := (firings[i].event, states[j + 1].nowUs - states[i + 1].nowUs);
      && e.periodUs - e.jitterUs <= gap
      && (if e.jitterUs == 0 then gap == e.periodUs else gap < e.periodUs + e.jitterUs)
  {
    RunKeeps(states, firings, i);
    FiringKeeps(states[i], firings[i], states[i + 1]);
    RunKeeps(states, firings, j);
    FiringKeeps(states[j], firings[j], states[j + 1]);
    WaitsUntilNext(states, firings, i, j);
    assert firings[j].event == firings[i].Rescheduled();
  }

  // ---------------------------------------------------------------------------------------------
  // The timer itself
  // ---------------------------------------------------------------------------------------------

  class FakeClock {
    var nowUs: nat

    constructor (now_: nat)
      ensures nowUs == now_
    {
      nowUs := now_;
    }

    method Sleep(us: nat)
      modifies this
      ensures nowUs == old(nowUs) + us
    {
      nowUs := nowUs + us;
    }
  }

  /** How long a sleep of that many fragments has lasted. */
  function Slept(span: nat, fragments: nat): nat { Min(span, fragments * MAX_FRAGMENT_US) }

  /** A sleep of that span has a fragment numbered `i`: time is left when it begins. */
  predicate Needed(span: int, i: nat) { i * 1_000_000 < span }

  /** The exit flag shows after some fragment of the sleep. */
  ghost predicate CutShort(span: int, exit: nat -> bool) { exists i: nat :: Needed(span, i) && exit(i) }

  /** Ids have been handed out, and rescheduling does not go below zero. */
  ghost predicate EventsOk(events: multiset<PeriodicEvent>, lastId: nat, nowUs: nat) {
    forall x :: x in events ==> EXIT_EVENT < x.id <= lastId && x.jitterUs <= nowUs + x.periodUs
  }

  lemma AddNew(all: multiset<PeriodicEvent>, e: PeriodicEvent, lastId: nat, nowUs: nat)
    requires UniqueIds(all) && EventsOk(all, lastId, nowUs)
    requires e.id == lastId + 1 && e.jitterUs <= nowUs + e.periodUs
    ensures UniqueIds(all + multiset{e}) && EventsOk(all + multiset{e}, lastId + 1, nowUs)
  {
    assert e !in all;
    forall x | x in all + multiset{e} ensures x == e || (x in all && x.id != e.id) {
    }
  }

  class EventTimer {
    const clock: FakeClock
    var lastId: nat
    var events: seq<PeriodicEvent>   // a heap: only which event is popped matters

    ghost predicate Valid()
      reads this, clock
    {
      UniqueIds(multiset(events)) && EventsOk(multiset(events), lastId, clock.nowUs)
    }

    ghost function View(): Schedule
      reads this, clock
    {
      Schedule(clock.nowUs, multiset(events))
    }

    constructor (c: FakeClock)
      ensures Valid() && clock == c && events == [] && lastId == EXIT_EVENT
    {
      clock := c;
      lastId := EXIT_EVENT;
      events := [];
    }

    /** One period from now, less the jitter, plus a draw from twice the jitter; the arithmetic must not
        go below zero. `draw` is what the random source gives, reduced to that range. */
    method ChooseNextInvocation(e: PeriodicEvent, draw: nat) returns (e': PeriodicEvent)
      requires e.jitterUs <= clock.nowUs + e.periodUs
      ensures e' == e.(nextInvocation := e'.nextInvocation)
      ensures e.jitterUs == 0 ==> e'.nextInvocation == clock.nowUs + e.periodUs
      ensures e.jitterUs > 0 ==>
        e'.nextInvocation + e.jitterUs == clock.nowUs + e.periodUs + draw % (2 * e.jitterUs)
      ensures WithinJitter(e, clock.nowUs, e'.nextInvocation)
    {
      var rand: nat := 0;
      if e.jitterUs > 0 {
        rand := draw % (2 * e.jitterUs);
      }
      e' := e.(nextInvocation := clock.nowUs + e.periodUs - e.jitterUs + rand);
    }

    /** Registers an event under a new id, first due one period after the delay. */
    method AddEventWithDelay(periodUs: nat, jitterUs: nat, delayUs: nat, draw: nat) returns (id: nat)
      requires Valid() && jitterUs <= clock.nowUs + periodUs
      modifies this
      ensures Valid() && id == lastId == old(lastId) + 1
      ensures |events| == |old(events)| + 1 && events[..|old(events)|] == old(events)
      ensures var e := events[|old(events)|];
        && e == PeriodicEvent(id, periodUs, jitterUs, e.nextInvocation) && delayUs <= e.nextInvocation
        && WithinJitter(e, clock.nowUs, e.nextInvocation - delayUs)
    {
      lastId := lastId + 1;
      var e := ChooseNextInvocation(PeriodicEvent(lastId, periodUs, jitterUs, 0), draw);
      e := e.(nextInvocation := e.nextInvocation + delayUs);
      AddNew(multiset(events), e, old(lastId), clock.nowUs);
      events := events + [e];
      assert multiset(events) == multiset(old(events)) + multiset{e};
      id := lastId;
    }

    method AddEvent(periodUs: nat, jitterUs: nat, draw: nat) returns (id: nat)
      requires Valid() && jitterUs <= clock.nowUs + periodUs
      modifies this
      ensures Valid() && id == lastId == old(lastId) + 1
      ensures |events| == |old(events)| + 1 && events[..|old(events)|] == old(events)
      ensures var e := events[|old(events)|];
        && e == PeriodicEvent(id, periodUs, jitterUs, e.nextInvocation)
        && WithinJitter(e, clock.nowUs, e.nextInvocation)
    {
      id := AddEventWithDelay(periodUs, jitterUs, 0, draw);
    }

    /** Sleeps in fragments, looking at the exit flag after each; `exit(i)` is what it shows after
        fragment `i`. It fails exactly when the flag shows after a fragment that was needed, and then
        stops at the end of the first such fragment; otherwise the total is exact. */
    method TrySleep(untilUs: nat, exit: nat -> bool) returns (ok: bool, ghost fragments: nat)
      requires untilUs >= clock.nowUs
      modifies clock
      ensures clock.nowUs == old(clock.nowUs) + Slept(untilUs - old(clock.nowUs), fragments)
      ensures !ok <==> CutShort(untilUs - old(clock.nowUs), exit)
      ensures ok ==> clock.nowUs == untilUs
      ensures !ok ==> fragments > 0 && exit(fragments - 1)
      ensures fragments > 0 ==> clock.nowUs > old(clock.nowUs) + (fragments - 1) * MAX_FRAGMENT_US
      ensures forall i: nat :: i + 1 < fragments ==> !exit(i)
    {
      ghost var start, span := clock.nowUs, untilUs - clock.nowUs;
      var now_, n: nat := clock.nowUs, 0;
      fragments := 0;
      while untilUs > now_
        invariant clock.nowUs == now_ <= untilUs && fragments == n
        invariant now_ == start + Slept(span, n)
        invariant now_ < untilUs ==> now_ == start + n * MAX_FRAGMENT_US
        invariant n > 0 ==> now_ > start + (n - 1) * MAX_FRAGMENT_US
        invariant forall i: nat :: i < n ==> !exit(i)
        decreases untilUs - now_
      {
        var fragment := Min(untilUs - now_, MAX_FRAGMENT_US);
        clock.Sleep(fragment);
        now_ := now_ + fragment;
        n := n + 1;
        fragments := n;
        if exit(n - 1) {
          assert Needed(span, n - 1);
          return false, fragments;
        }
      }
      ok := true;
      assert span <= n * MAX_FRAGMENT_US;
    }

    /** Takes out an event of earliest time; which one, among several, is up to the heap. */
    method Pop() returns (e: PeriodicEvent)
      requires events != []
      modifies this`events
      ensures Earliest(e, multiset(old(events))) && multiset(events) == multiset(old(events)) - multiset{e}
    {
      ghost var all := events;
      var best := 0;
      for n := 1 to |events|
        invariant events == all && best < n
        invariant forall j :: 0 <= j < n ==> events[best].nextInvocation <= events[j].nextInvocation
      {
        var better := events[n].nextInvocation < events[best].nextInvocation;
        var tie := events[n].nextInvocation == events[best].nextInvocation;
        var either: bool :| true;
        if better || (tie && either) {
          best := n;
        }
      }
      e := events[best];
      assert events == events[..best] + [e] + events[best + 1..];
      events := events[..best] + events[best + 1..];
    }

    /** Chooses an event's next time and puts it back among the others. */
    method PutInAgain(e: PeriodicEvent, draw: nat, ghost all: multiset<PeriodicEvent>) returns (ghost next: nat)
      requires UniqueIds(all) && EventsOk(all, lastId, clock.nowUs)
      requires e in all && multiset(events) == all - multiset{e}
      modifies this`events
      ensures Valid() && WithinJitter(e, clock.nowUs, next)
      ensures multiset(events) == all - multiset{e} + multiset{Firing(e, next).Rescheduled()}
    {
      var e' := ChooseNextInvocation(e, draw);
      next := e'.nextInvocation;
      PutBack(all, e, e');
      ghost var rest := events;
      events := events + [e'];
      assert multiset(events) == multiset(rest) + multiset{e'};
    }

    /** Sleeps until the next event is due, puts it back for its next time and returns its id. Exactly
        when the exit flag shows after a fragment of that sleep, it returns the exit id and does not
        put the event back: the event is lost. An event already due is never lost. */
    method AwaitNextEvent(exit: nat -> bool, draw: nat) returns (id: nat, ghost f: Firing)
      requires Valid()
      modifies this`events, clock
      ensures lastId == old(lastId)
      ensures |old(events)| == 0 ==> id == EXIT_EVENT && View() == old(View())
      ensures |old(events)| > 0 ==> Earliest(f.event, multiset(old(events)))
      ensures |old(events)| > 0 ==>
        (id == EXIT_EVENT <==> CutShort(f.event.nextInvocation - old(clock.nowUs), exit))
      ensures |old(events)| > 0 && id != EXIT_EVENT ==>
        (&& Valid() && id == f.event.id && Fires(old(View()), f, View())
         && clock.nowUs + f.event.periodUs <= f.next + f.event.jitterUs
         && f.next <= clock.nowUs + f.event.periodUs + f.event.jitterUs)
      ensures |old(events)| > 0 && id == EXIT_EVENT ==>
        (&& multiset(events) == multiset(old(events)) - multiset{f.event}
         && f.event.id !in Ids(multiset(events))
         && old(clock.nowUs) < clock.nowUs <= f.event.nextInvocation)
    {
      if events == [] {
        f := Firing(PeriodicEvent(0, 0, 0, 0), 0);
        return EXIT_EVENT, f;
      }
      ghost var all := events;
      var e := Pop();
      if e.nextInvocation > clock.nowUs {
        var ok, fragments := TrySleep(e.nextInvocation, exit);
        if !ok {
          f := Firing(e, 0);
          TakenOutIsGone(multiset(all), e);
          return EXIT_EVENT, f;
        }
      }
      assert e in multiset(all) && e.id > EXIT_EVENT;
      ghost var next := PutInAgain(e, draw, multiset(all));
      f := Firing(e, next);
      id := e.id;
    }
  }
}
