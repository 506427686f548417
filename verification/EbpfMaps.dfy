/** The maps shared between the BPF layer and the controller, as mutable objects
    (nfm-common/src/ebpf_mocks.rs). */
module EbpfMapsModel {
  import opened Arith
  import opened SockStatsModel
  import opened SockContextModel
  import opened EventCountersModel
  import opened SockOps

  datatype InsertFlag = BpfAny | BpfNoExist | BpfExist
  datatype InsertResult = Inserted | NoMemory | InvalidArgument

  class SharedHashMap<K(==), V> {
    var data: map<K, V>
    const capacity: nat

    ghost predicate Valid()
      reads this
    {
      |data| <= capacity
    }

    constructor (cap: nat)
      ensures Valid() && data == map[] && capacity == cap
    {
      data := map[];
      capacity := cap;
    }

    /** A missing key is refused when the map is full, before the existence rules are looked at. */
    method Insert(key: K, val: V, flag: InsertFlag) returns (r: InsertResult)
      requires Valid()
      modifies this
      ensures Valid()
      ensures r.NoMemory? <==> key !in old(data) && |old(data)| == capacity
      ensures r.Inserted? <==> !r.NoMemory? && (flag.BpfNoExist? ==> key !in old(data))
                               && (flag.BpfExist? ==> key in old(data))
      ensures data == if r.Inserted? then old(data)[key := val] else old(data)
    {
      var exists_ := key in data;
      if !exists_ && |data| >= capacity {
        r := NoMemory;
      } else if (flag.BpfExist? && !exists_) || (flag.BpfNoExist? && exists_) {
        r := InvalidArgument;
      } else {
        StoreKeeps(data, capacity, key, val);
        data := data[key := val];
        r := Inserted;
      }
    }

    /** A write through the pointer handed out for a present key. */
    method Store(key: K, val: V)
      requires Valid() && key in data
      modifies this
      ensures Valid() && data == old(data)[key := val] && data.Keys == old(data.Keys)
    {
      StoreKeeps(data, capacity, key, val);
      data := data[key := val];
    }

    method Remove(key: K) returns (ok: bool)
      requires Valid()
      modifies this
      ensures Valid()
      ensures ok <==> key in old(data)
      ensures data == old(data) - {key}
    {
      ok := key in data;
      assert (data - {key}).Keys == data.Keys - {key};
      data := data - {key};
    }
  }

  class EbpfMaps {
    const props: SharedHashMap<CpuSockKey, SockContext>
    const stats: SharedHashMap<CpuSockKey, SockStats>
    var counters: map<nat, EventCounters>

    ghost predicate Valid()
      reads this, props, stats
    {
      && (props as object) != (stats as object)
      && props.Valid() && stats.Valid()
    }

    /** The contents as one value. */
    ghost function View(): Bpf
      reads this, props, stats
    {
      Bpf(props.data, props.capacity, stats.data, stats.capacity, counters)
    }

    constructor (propsCap: nat, statsCap: nat)
      ensures Valid() && fresh(props) && fresh(stats)
      ensures View() == Bpf(map[], propsCap, map[], statsCap, map[])
    {
      props := new SharedHashMap(propsCap);
      stats := new SharedHashMap(statsCap);
      counters := map[];
    }
  }

  /** Handles one callback (nfm-common/src/sock_ops_handler.rs). Each handler returns how the event
      ended; the counts it makes are kept aside and persisted once, at the end. */
  class TcpSockOpsHandler {
    const e: Event
    const maps: EbpfMaps
    var counters: EventCounters

    ghost predicate Valid()
      reads this, maps, maps.props, maps.stats
    {
      && maps.Valid()
      && (this as object) !in {maps as object, maps.props as object, maps.stats as object}
      && (maps as object) !in {maps.props as object, maps.stats as object}
    }

    constructor (event: Event, ebpf: EbpfMaps)
      requires ebpf.Valid() && (ebpf as object) !in {ebpf.props as object, ebpf.stats as object}
      ensures Valid() && e == event && maps == ebpf && counters == NO_EVENTS
    {
      e := event;
      maps := ebpf;
      counters := NO_EVENTS;
    }

    method HandleSocketEvent() returns (r: EventResult)
      requires Valid() && counters == NO_EVENTS
      modifies this, maps, maps.props, maps.stats
      ensures Valid()
      ensures r == Outcome(old(maps.View()), e)
      ensures maps.View() == HandleEvent(old(maps.View()), e)
    {
      counters := counters.(socketEvents := counters.socketEvents + 1);
      match e.op {
        case TcpConnect => r := HandleConnect();
        case PassiveEstablished => r := HandlePassiveEstablished();
        case StateCb => r := HandleStateChange();
        case RttCb => r := HandleRtt();
        case RetransCb => r := HandleRetransmit();
        case RtoCb => r := HandleRto();
        case ParseHdrOpt => r := HandleBytesTransferred();
        case HdrOptLen => r := HandleBytesTransferred();
        case _ =>
          counters := counters.(otherEvents := counters.otherEvents + 1);
          r := OperationUnknown;
      }
      assert counters == EventCounts(e, r);
      maps.counters := maps.counters[e.cpu := AddCounts(CountersAt(maps.counters, e.cpu), counters)];
    }

    /** What every handler below promises, given the counts it starts from. */
    twostate predicate Handles(r: EventResult, counts: EventCounters)
      reads this, maps, maps.props, maps.stats
    {
      && Valid() && maps.counters == old(maps.counters)
      && r == Outcome(old(maps.View()), e)
      && maps.stats.data == StatsAfter(old(maps.View()), e)
      && maps.props.data == PropsAfter(old(maps.View()), e)
      && counters == counts.(
           mapInsertionErrors := counts.mapInsertionErrors + if r.MapInsertionError? then 1 else 0,
           socketsInvalid := counts.socketsInvalid + if r.ContextInvalid? then 1 else 0,
           setFlagsErrors := counts.setFlagsErrors + if r.SetCbFlagsError? then 1 else 0)
    }

    method HandleConnect() returns (r: EventResult)
      requires Valid() && e.op.TcpConnect?
      modifies this, maps.props, maps.stats
      ensures Handles(r, old(counters).(activeConnectEvents := old(counters).activeConnectEvents + 1))
    {
      counters := counters.(activeConnectEvents := counters.activeConnectEvents + 1);
      r := HandleNewSock(true);
    }

    method HandlePassiveEstablished() returns (r: EventResult)
      requires Valid() && e.op.PassiveEstablished?
      modifies this, maps.props, maps.stats
      ensures Handles(r, old(counters).(
                passiveEstablishedEvents := old(counters).passiveEstablishedEvents + 1))
    {
      counters := counters.(passiveEstablishedEvents := counters.passiveEstablishedEvents + 1);
      r := HandleNewSock(false);
    }

    method HandleNewSock(isClient: bool) returns (r: EventResult)
      requires Valid() && IsNewSockEvent(e.op) && isClient == e.op.TcpConnect?
      modifies this, maps.props, maps.stats
      ensures Handles(r, old(counters))
    {
      var context := e.context.(isClient := isClient);
      if !IsValid(context) {
        counters := counters.(socketsInvalid := counters.socketsInvalid + 1);
        return ContextInvalid;
      }
      var ins := maps.props.Insert(KeyOf(e), context, BpfNoExist);
      if !ins.Inserted? {
        counters := counters.(mapInsertionErrors := counters.mapInsertionErrors + 1);
        return MapInsertionError;
      }
      if !e.flagsOk {
        counters := counters.(setFlagsErrors := counters.setFlagsErrors + 1);
        return SetCbFlagsError;
      }
      var entry := GetOrAddSockStats();
      match entry {
        case None => r := MapInsertionError;
        case Some(s) =>
          var t := s.(connectStartUs := e.nowUs);
          if isClient {
            t := t.(connectAttempts := WrapAdd(t.connectAttempts, 1, U8));
          }
          if e.sockState == BPF_TCP_ESTABLISHED {
            t := t.(flags := t.flags + {EnteredEstablish});
          }
          WriteEntry(old(maps.stats.data), s, t);
          r := Handled;
      }
    }

    method HandleStateChange() returns (r: EventResult)
      requires Valid() && e.op.StateCb?
      modifies this, maps.props, maps.stats
      ensures Handles(r, old(counters).(
                stateChangeEvents := old(counters).stateChangeEvents + 1,
                activeEstablishedEvents := old(counters).activeEstablishedEvents
                  + if r.Handled? && e.arg1 == BPF_TCP_ESTABLISHED && e.arg0 == BPF_TCP_SYN_SENT
                    then 1 else 0))
    {
      counters := counters.(stateChangeEvents := counters.stateChangeEvents + 1);
      var entry := GetOrAddSockStats();
      match entry {
        case None => r := MapInsertionError;
        case Some(s) =>
          var t := ApplyStateChange(s);
          if e.arg1 == BPF_TCP_ESTABLISHED && e.arg0 == BPF_TCP_SYN_SENT {
            counters := counters.(activeEstablishedEvents := counters.activeEstablishedEvents + 1);
          }
          WriteEntry(old(maps.stats.data), s, t);
          r := Handled;
      }
    }

    /** The branches of a state change, taken one field at a time. */
    method ApplyStateChange(s: SockStats) returns (t: SockStats)
      ensures t == StateChangeEntry(e, s)
    {
      var oldState, newState := e.arg0, e.arg1;
      var newFlags: set<Flag> := {};
      t := s;
      if newState == BPF_TCP_ESTABLISHED {
        newFlags := newFlags + {EnteredEstablish};
        t := t.(connectEndUs := e.nowUs);
        if oldState == BPF_TCP_SYN_SENT {
          t := t.(connectSuccesses := WrapAdd(t.connectSuccesses, 1, U8));
        }
      } else if newState != BPF_TCP_SYN_SENT && newState != BPF_TCP_SYN_RECV {
        newFlags := newFlags + {StartedClosure};
        if oldState == BPF_TCP_SYN_SENT || oldState == BPF_TCP_SYN_RECV {
          newFlags := newFlags + {TerminatedFromSyn};
        }
        if newState == BPF_TCP_CLOSE {
          newFlags := newFlags + {Closed};
          t := TakeKernelStats(t, e.kernel);
          if oldState == BPF_TCP_ESTABLISHED {
            newFlags := newFlags + {TerminatedFromEst};
          }
        }
      }
      assert newFlags == StateChangeFlags(oldState, newState);
      t := t.(flags := t.flags + newFlags);
    }

    method HandleRtt() returns (r: EventResult)
      requires Valid() && e.op.RttCb?
      modifies this, maps.props, maps.stats
      ensures Handles(r, old(counters).(
                rttEvents := old(counters).rttEvents + 1,
                rttsInvalid := old(counters).rttsInvalid + if e.arg0 == 0 then 1 else 0))
    {
      counters := counters.(rttEvents := counters.rttEvents + 1);
      if e.arg0 == 0 {
        counters := counters.(rttsInvalid := counters.rttsInvalid + 1);
      }
      var entry := GetOrAddSockStats();
      match entry {
        case None => r := MapInsertionError;
        case Some(s) =>
          var t := ApplyRtt(s);
          WriteEntry(old(maps.stats.data), s, t);
          r := Handled;
      }
    }

    method ApplyRtt(s: SockStats) returns (t: SockStats)
      ensures t == RttEntry(e, s)
    {
      var measured := if e.arg0 == 0 then e.kernel.srttUs else e.arg0;
      var smoothed := if e.arg1 == 0 then e.kernel.srttUs else e.arg1 / 8;
      t := s.(rttCount := WrapAdd(s.rttCount, 1, U32));
      t := t.(rttLatestUs := measured);
      t := t.(rttSmoothedUs := smoothed);
      t := TakeKernelStats(t, e.kernel);
    }

    method HandleRetransmit() returns (r: EventResult)
      requires Valid() && e.op.RetransCb?
      modifies this, maps.props, maps.stats
      ensures Handles(r, old(counters).(retransEvents := old(counters).retransEvents + 1))
    {
      counters := counters.(retransEvents := counters.retransEvents + 1);
      var entry := GetOrAddSockStats();
      match entry {
        case None => r := MapInsertionError;
        case Some(s) =>
          var t := s;
          if e.sockState == BPF_TCP_ESTABLISHED {
            t := t.(retransEst := WrapAdd(t.retransEst, e.arg1, U32));
          } else if e.sockState == BPF_TCP_SYN_SENT {
            t := t.(retransSyn := WrapAdd(t.retransSyn, e.arg1, U32));
            t := t.(connectAttempts := WrapAdd(t.connectAttempts, e.arg1 % U8, U8));
          } else if e.sockState == BPF_TCP_SYN_RECV {
            t := t.(retransSyn := WrapAdd(t.retransSyn, e.arg1, U32));
          } else {
            t := t.(retransClose := WrapAdd(t.retransClose, e.arg1, U32));
          }
          WriteEntry(old(maps.stats.data), s, t);
          r := Handled;
      }
    }

    method HandleRto() returns (r: EventResult)
      requires Valid() && e.op.RtoCb?
      modifies this, maps.props, maps.stats
      ensures Handles(r, old(counters).(rtoEvents := old(counters).rtoEvents + 1))
    {
      counters := counters.(rtoEvents := counters.rtoEvents + 1);
      var entry := GetOrAddSockStats();
      match entry {
        case None => r := MapInsertionError;
        case Some(s) =>
          var t := s;
          if e.sockState == BPF_TCP_ESTABLISHED {
            t := t.(rtosEst := WrapAdd(t.rtosEst, 1, U32));
          } else if e.sockState == BPF_TCP_SYN_SENT || e.sockState == BPF_TCP_SYN_RECV {
            t := t.(rtosSyn := WrapAdd(t.rtosSyn, 1, U32));
          } else {
            t := t.(rtosClose := WrapAdd(t.rtosClose, 1, U32));
          }
          WriteEntry(old(maps.stats.data), s, t);
          r := Handled;
      }
    }

    method HandleBytesTransferred() returns (r: EventResult)
      requires Valid() && IsHdrOpt(e.op)
      modifies this, maps.props, maps.stats
      ensures Handles(r, old(counters))
    {
      var entry := GetOrAddSockStats();
      match entry {
        case None => r := MapInsertionError;
        case Some(s) =>
          WriteEntry(old(maps.stats.data), s, TakeKernelStats(s, e.kernel));
          r := Handled;
      }
    }

    /** Writes through the pointer that `GetOrAddSockStats` handed out. */
    method WriteEntry(ghost before: map<CpuSockKey, SockStats>, ghost s: SockStats, t: SockStats)
      requires Valid() && KeyOf(e) in maps.stats.data
      requires maps.stats.data == before[KeyOf(e) := s]
      modifies maps.stats
      ensures Valid() && maps.stats.data == before[KeyOf(e) := t]
      ensures maps.props.data == old(maps.props.data) && maps.counters == old(maps.counters)
      ensures counters == old(counters)
    {
      maps.stats.Store(KeyOf(e), t);
      assert before[KeyOf(e) := s][KeyOf(e) := t] == before[KeyOf(e) := t];
    }

    /** Finds or creates this core's entry and touches it; fails only when a new entry is needed and
        the map is full. */
    method GetOrAddSockStats() returns (entry: Option<SockStats>)
      requires Valid()
      modifies this`counters, maps.stats
      ensures Valid() && maps.props.data == old(maps.props.data)
      ensures entry.Some? <==> StatsOutcome(old(maps.View()), e).Handled?
      ensures entry.Some? ==> && KeyOf(e) in maps.stats.data
                              && maps.stats.data == old(maps.stats.data)[KeyOf(e) := entry.value]
                              && counters == old(counters)
      ensures entry.Some? ==>
        entry.value == (if KeyOf(e) in old(maps.stats.data) then old(maps.stats.data)[KeyOf(e)]
                        else DEFAULT).(lastTouchedUs := e.nowUs)
      ensures entry.None? ==>
        && maps.stats.data == old(maps.stats.data)
        && counters == old(counters).(mapInsertionErrors := old(counters).mapInsertionErrors + 1)
    {
      if KeyOf(e) in maps.stats.data {
        var s := maps.stats.data[KeyOf(e)].(lastTouchedUs := e.nowUs);
        maps.stats.Store(KeyOf(e), s);
        return Some(s);
      }
      var s := DEFAULT.(lastTouchedUs := e.nowUs);
      var ins := maps.stats.Insert(KeyOf(e), s, BpfNoExist);
      if ins.Inserted? {
        return Some(s);
      }
      counters := counters.(mapInsertionErrors := counters.mapInsertionErrors + 1);
      return None;
    }
  }
}
