/**
 The provisioning event container of a machine: the newest event comes first.
 Times are nanoseconds; an unset time is None.
 */
module ProvisioningEvents {
  import opened Wrappers

  datatype EventType =
    | Alive | Crashed | PXEBooting | PlannedReboot | Preparing | Registering | Waiting
    | Installing | BootingNewKernel | PhonedHome | MachineReclaim
    | Other(name: string)  // any string outside the known event types

  datatype Event = Event(time: int, kind: EventType, message: string)

  datatype Liveliness = Live | Dead | Unknown

  /** The value of a container, used in every specification. */
  datatype Log = Log(
    liveliness: Liveliness,
    events: seq<Event>,
    lastEventTime: Option<int>,
    lastErrorEvent: Option<Event>,
    crashLoop: bool,
    failedMachineReclaim: bool)

  function Take<T>(s: seq<T>, n: nat): seq<T> {
    if |s| <= n then s else s[..n]
  }

  function Trimmed(log: Log, maxCount: nat): Log {
    log.(events := Take(log.events, maxCount))
  }

  /** Newest first, equal times allowed, and no event later than the last event time. */
  predicate Chronological(log: Log) {
    log.events != [] ==>
      && log.lastEventTime.Some?
      && log.events[0].time <= log.lastEventTime.value
      && forall i, j :: 0 <= i <= j < |log.events| ==> log.events[j].time <= log.events[i].time
  }

  class Container {
    var liveliness: Liveliness
    var events: seq<Event>
    var lastEventTime: Option<int>
    var lastErrorEvent: Option<Event>
    var crashLoop: bool
    var failedMachineReclaim: bool

    function Value(): Log
      reads this
    {
      Log(liveliness, events, lastEventTime, lastErrorEvent, crashLoop, failedMachineReclaim)
    }

    constructor (log: Log)
      ensures Value() == log
    {
      liveliness, events, lastEventTime := log.liveliness, log.events, log.lastEventTime;
      lastErrorEvent, crashLoop := log.lastErrorEvent, log.crashLoop;
      failedMachineReclaim := log.failedMachineReclaim;
    }

    method TrimEvents(maxCount: nat)
      modifies this
      ensures Value() == Trimmed(old(Value()), maxCount)
    {
      if |events| > maxCount {
        events := events[..maxCount];
      }
    }

    method Validate() returns (ok: bool)
      ensures ok <==> Chronological(Value())
    {
      if |events| == 0 {
        return true;
      }
      var last := events[0].time;
      if lastEventTime.None? || last > lastEventTime.value {
        return false;
      }
      for i := 0 to |events|
        invariant i > 0 ==> last == events[i - 1].time
        invariant i == 0 ==> last == events[0].time
        invariant forall j, k :: 0 <= j <= k < i ==> events[k].time <= events[j].time
      {
        if events[i].time > last {
          assert i > 0;
          assert Value().events[i].time > Value().events[i - 1].time;
          return false;
        }
        last := events[i].time;
      }
      return true;
    }
  }

  /** Keeping the newest entries keeps a container valid. */
  lemma TrimmedIsChronological(log: Log, n: nat)
    requires Chronological(log)
    ensures Chronological(Trimmed(log, n))
  {
  }
}
