/** Event counters kept by the BPF layer, and how the controller publishes them
    (nfm-common/src/network.rs, nfm-controller/src/events/event_provider_ebpf.rs). */
module EventCountersModel {
  import opened Arith

  datatype EventCounters = EventCounters(
    activeConnectEvents: nat, activeEstablishedEvents: nat, passiveEstablishedEvents: nat,
    stateChangeEvents: nat, rttEvents: nat, retransEvents: nat, rtoEvents: nat, otherEvents: nat,
    socketEvents: nat,
    socketsInvalid: nat, mapInsertionErrors: nat, rttsInvalid: nat, setFlagsErrors: nat,
    otherErrors: nat)

  const NO_EVENTS: EventCounters := EventCounters(0, 0, 0, 0, 0, 0, 0, 0, 0, 0, 0, 0, 0, 0)

  datatype Tally =
    | ActiveConnect | ActiveEstablish | PassiveEstablish | StateChange | Rtt | Retrans | Rto | Other
    | Socket | Invalid | MapInsertion | RttInvalid | SetFlags | OtherError

  function Count(c: EventCounters, t: Tally): nat {
    match t
    case ActiveConnect => c.activeConnectEvents
    case ActiveEstablish => c.activeEstablishedEvents
    case PassiveEstablish => c.passiveEstablishedEvents
    case StateChange => c.stateChangeEvents
    case Rtt => c.rttEvents
    case Retrans => c.retransEvents
    case Rto => c.rtoEvents
    case Other => c.otherEvents
    case Socket => c.socketEvents
    case Invalid => c.socketsInvalid
    case MapInsertion => c.mapInsertionErrors
    case RttInvalid => c.rttsInvalid
    case SetFlags => c.setFlagsErrors
    case OtherError => c.otherErrors
  }

  function AddCounts(a: EventCounters, b: EventCounters): EventCounters {
    EventCounters(
      WrapAdd(a.activeConnectEvents, b.activeConnectEvents, U32),
      WrapAdd(a.activeEstablishedEvents, b.activeEstablishedEvents, U32),
      WrapAdd(a.passiveEstablishedEvents, b.passiveEstablishedEvents, U32),
      WrapAdd(a.stateChangeEvents, b.stateChangeEvents, U32),
      WrapAdd(a.rttEvents, b.rttEvents, U32),
      WrapAdd(a.retransEvents, b.retransEvents, U32),
      WrapAdd(a.rtoEvents, b.rtoEvents, U32),
      WrapAdd(a.otherEvents, b.otherEvents, U32),
      WrapAdd(a.socketEvents, b.socketEvents, U32),
      WrapAdd(a.socketsInvalid, b.socketsInvalid, U32),
      WrapAdd(a.mapInsertionErrors, b.mapInsertionErrors, U32),
      WrapAdd(a.rttsInvalid, b.rttsInvalid, U32),
      WrapAdd(a.setFlagsErrors, b.setFlagsErrors, U32),
      WrapAdd(a.otherErrors, b.otherErrors, U32))
  }

  function SubtractCounts(a: EventCounters, b: EventCounters): EventCounters {
    EventCounters(
      WrapSub(a.activeConnectEvents, b.activeConnectEvents, U32),
      WrapSub(a.activeEstablishedEvents, b.activeEstablishedEvents, U32),
      WrapSub(a.passiveEstablishedEvents, b.passiveEstablishedEvents, U32),
      WrapSub(a.stateChangeEvents, b.stateChangeEvents, U32),
      WrapSub(a.rttEvents, b.rttEvents, U32),
      WrapSub(a.retransEvents, b.retransEvents, U32),
      WrapSub(a.rtoEvents, b.rtoEvents, U32),
      WrapSub(a.otherEvents, b.otherEvents, U32),
      WrapSub(a.socketEvents, b.socketEvents, U32),
      WrapSub(a.socketsInvalid, b.socketsInvalid, U32),
      WrapSub(a.mapInsertionErrors, b.mapInsertionErrors, U32),
      WrapSub(a.rttsInvalid, b.rttsInvalid, U32),
      WrapSub(a.setFlagsErrors, b.setFlagsErrors, U32),
      WrapSub(a.otherErrors, b.otherErrors, U32))
  }

  lemma AddCountsAt(a: EventCounters, b: EventCounters, t: Tally)
    ensures Count(AddCounts(a, b), t) == WrapAdd(Count(a, t), Count(b, t), U32)
  {
  }

  lemma SubtractCountsAt(a: EventCounters, b: EventCounters, t: Tally)
    ensures Count(SubtractCounts(a, b), t) == WrapSub(Count(a, t), Count(b, t), U32)
  {
  }
}
