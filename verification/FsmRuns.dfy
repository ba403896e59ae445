/**
 Whole runs of the provisioning state machine, with and without trimming of the event log.
 */
module FsmRuns {
  import opened Wrappers
  import opened ProvisioningEvents
  import opened Fsm

  const MAX_EVENTS := 100

  const EMPTY_LOG := Log(Live, [], None, None, false, false)

  // ---------- one step ----------

  /** The state an event of this type leaves behind when it is stored. */
  function StateOf(kind: EventType): State {
    match kind
    case Alive => State.Alive
    case Crashed => State.Crashing
    case PXEBooting => State.PXEBooting
    case PlannedReboot => State.PlannedReboot
    case Preparing => State.Preparing
    case Registering => State.Registering
    case Waiting => State.Waiting
    case Installing => State.Installing
    case BootingNewKernel => State.BootingNewKernel
    case PhonedHome => State.PhonedHome
    case MachineReclaim => State.MachineReclaim
    case Other(_) => State.Initial
  }

  lemma DestinationIsStateOf(kind: EventType)
    ensures EventDestination(kind) == StateOf(kind)
  {
    SkipTo(FirstRow(kind), kind);
    if !kind.Other? {
      RowKind(FirstRow(kind), kind);
      assert Entry(FirstRow(kind)).dst == To(StateOf(kind));
    }
  }

  lemma SkipTo(i: nat, kind: EventType)
    requires i <= FirstRow(kind)
    ensures EventDestination(kind) == DestinationFrom(i, kind)
  {
    if i > 0 {
      SkipTo(i - 1, kind);
      RowKind(i - 1, kind);
    }
  }

  /** The state the next event is judged in. */
  function StateOfLog(log: Log): State {
    if log.events == [] then State.Initial else StateOf(log.events[0].kind)
  }

  predicate IsUnexpected(log: Log, event: Event) {
    !event.kind.Other? && Resolved(event.kind, StateOfLog(log)).None?
  }

  function Stored(log: Log, event: Event): Event {
    if IsUnexpected(log, event) then MarkedUnexpected(StateOfLog(log), event) else event
  }

  /** One handled event, with the event table already resolved; HandleIsStep ties it to Handle. */
  function Step(log: Log, event: Event): Log
    requires !event.kind.Other?
  {
    var s := StateOfLog(log);
    match Resolved(event.kind, s)
    case None => Unexpected(s, log, event)
    case Some(target) => Entered(if target.To? then target.state else s, s, log, event)
  }

  function Entered(entered: State, src: State, log: Log, event: Event): Log {
    var r := OnTransition(entered, src, log, event);
    if r.Ok? then r.value else log
  }

  /** Exactly the known event types are handled, and the machine never falls back to Initial. */
  lemma HandleIsStep(log: Log, event: Event)
    ensures RebuiltState(log) == StateOfLog(log)
    ensures Handle(log, event) == if event.kind.Other? then Err(UnknownEvent) else Ok(Step(log, event))
  {
    if log.events != [] {
      DestinationIsStateOf(log.events[0].kind);
    }
    TransitionTable(event.kind, RebuiltState(log));
    KnownExactly(event.kind);
    DispatchIsStep(log, event);
  }

  lemma DispatchIsStep(log: Log, event: Event)
    ensures Dispatch(Resolved(event.kind, StateOfLog(log)), !event.kind.Other?, StateOfLog(log), log, event) ==
            if event.kind.Other? then Err(UnknownEvent) else Ok(Step(log, event))
  {
  }

  lemma KnownExactly(kind: EventType)
    ensures KnownEvent(kind) <==> !kind.Other?
  {
    if kind.Other? {
      forall i | 0 <= i < TABLE_SIZE ensures Entry(i).name != kind {
        RowKind(i, kind);
      }
    } else {
      RowKind(FirstRow(kind), kind);
    }
  }

  lemma MarkedKeepsKind(state: State, event: Event)
    ensures MarkedUnexpected(state, event).kind == event.kind && MarkedUnexpected(state, event).time == event.time
  {
    hide StateName;
  }

  /**
   An event is stored at the front or not at all, an Alive event never is, and so the next state is
   the old one or the destination of the event.
   */
  lemma StoredOrKept(log: Log, event: Event)
    requires !event.kind.Other?
    ensures var next := Step(log, event);
            || (next.events == log.events && StateOfLog(next) == StateOfLog(log))
            || (&& next.events == [Stored(log, event)] + log.events
                && !event.kind.Alive?
                && StateOfLog(next) == StateOf(event.kind))
  {
    hide SwallowsBuffered, ReclaimFailed, StateName, MarkedUnexpected;
    MarkedKeepsKind(StateOfLog(log), event);
  }

  /** What a single event decides about the crash loop flag, if anything. */
  function Verdict(log: Log, event: Event): Option<bool> {
    var s := StateOfLog(log);
    match event.kind
    case Crashed => if Provisioning(s) then Some(true) else None
    case PXEBooting => if IsUnexpected(log, event) then Some(true) else None
    case Preparing => if IsUnexpected(log, event) then Some(true) else None
    case PlannedReboot => Some(false)
    case MachineReclaim => Some(false)
    case PhonedHome =>
      if s.BootingNewKernel? || s.Initial? || s.PlannedReboot? then Some(false) else None
    case _ => None
  }

  lemma VerdictDecidesStep(log: Log, event: Event)
    requires !event.kind.Other?
    ensures Step(log, event).crashLoop ==
            match Verdict(log, event) case Some(b) => b case None => log.crashLoop
  {
  }

  // ---------- what one event changes, field by field ----------

  /**
   A phoned home event that changes nothing: a delayed one from before the reboot, or one that the
   machine still sends within five minutes of being reclaimed.
   */
  predicate Ignored(log: Log, event: Event) {
    var fiveMinutes := 300_000_000_000;
    && event.kind.PhonedHome?
    && match StateOfLog(log)
       case MachineReclaim => log.lastEventTime.None? || event.time - log.lastEventTime.value <= fiveMinutes
       case PXEBooting => log.lastEventTime.Some? && event.time - log.lastEventTime.value < fiveMinutes
       case Preparing => log.lastEventTime.Some? && event.time - log.lastEventTime.value < fiveMinutes
       case Registering => log.lastEventTime.Some? && event.time - log.lastEventTime.value < fiveMinutes
       case Waiting => log.lastEventTime.Some? && event.time - log.lastEventTime.value < fiveMinutes
       case _ => false
  }

  /** An event that is noted without being stored: the newest event in the log already says as much. */
  predicate NotedOnly(log: Log, event: Event) {
    match event.kind
    case Alive => true
    case PXEBooting => StateOfLog(log).PXEBooting?
    case PhonedHome =>
      StateOfLog(log).PhonedHome? || StateOfLog(log).PXEBooting? || StateOfLog(log).MachineReclaim?
    case _ => false
  }

  /** Every event but an ignored one leaves the machine alive, with its time; all but the noted ones are stored. */
  lemma EventIsNotedUnlessIgnored(log: Log, event: Event)
    requires !event.kind.Other?
    ensures Ignored(log, event) ==> Step(log, event) == log
    ensures !Ignored(log, event) ==>
              && Step(log, event).lastEventTime == Some(event.time)
              && Step(log, event).liveliness == Live
              && Step(log, event).events ==
                 (if NotedOnly(log, event) then [] else [Stored(log, event)]) + log.events
  {
    if event.kind.PhonedHome? {
      PhonedHomeIsNotedUnlessIgnored(log, event);
    } else {
      OtherEventIsNoted(log, event);
    }
    hide Step, Ignored, NotedOnly, Stored;
  }

  lemma OtherEventIsNoted(log: Log, event: Event)
    requires !event.kind.Other? && !event.kind.PhonedHome?
    ensures !Ignored(log, event)
    ensures var next := Step(log, event);
            && next.lastEventTime == Some(event.time) && next.liveliness == Live
            && next.events == (if NotedOnly(log, event) then [] else [Stored(log, event)]) + log.events
  {
    MarkedKeepsKind(StateOfLog(log), event);
    hide MarkedUnexpected, ReclaimFailed;
  }

  lemma PhonedHomeIsNotedUnlessIgnored(log: Log, event: Event)
    requires event.kind.PhonedHome?
    ensures Ignored(log, event) ==> Step(log, event) == log
    ensures !Ignored(log, event) ==>
              && Step(log, event).lastEventTime == Some(event.time)
              && Step(log, event).liveliness == Live
              && Step(log, event).events ==
                 (if NotedOnly(log, event) then [] else [Stored(log, event)]) + log.events
  {
    MarkedKeepsKind(StateOfLog(log), event);
    hide MarkedUnexpected;
  }

  /** The last error is the newest crash or unexpected event, the latter with a mark. */
  lemma LastErrorIsCrashOrUnexpected(log: Log, event: Event)
    requires !event.kind.Other?
    ensures Step(log, event).lastErrorEvent ==
            if IsUnexpected(log, event) || event.kind.Crashed? then Some(Stored(log, event)) else log.lastErrorEvent
  {
    hide MarkedUnexpected, SwallowsBuffered, ReclaimFailed;
  }

  /** The mark goes in front of the message and changes nothing else. */
  lemma MarkIsInFront(state: State, event: Event)
    ensures var marked := MarkedUnexpected(state, event);
            && marked == event.(message := marked.message)
            && "[unexpectedly received in " <= marked.message
            && |event.message| < |marked.message|
            && marked.message[|marked.message| - |event.message|..] == event.message
  {
    hide StateName;
  }

  /**
   A reclaim has failed when the machine phones home more than five minutes later; entering or staying in
   PXE booting or preparing takes that back, unless the event is ignored.
   */
  lemma ReclaimFailsExactly(log: Log, event: Event)
    requires !event.kind.Other?
    ensures var s, next := StateOfLog(log), Step(log, event).failedMachineReclaim;
            if event.kind.PhonedHome? && s.MachineReclaim? && !Ignored(log, event) then next
            else if || (event.kind.PXEBooting? && !IsUnexpected(log, event))
                    || (event.kind.Preparing? && !IsUnexpected(log, event))
                    || (event.kind.PhonedHome? && (s.PXEBooting? || s.Preparing?) && !Ignored(log, event))
            then !next
            else next == log.failedMachineReclaim
  {
    hide MarkedUnexpected;
  }

  // ---------- runs ----------

  ghost predicate Known(events: seq<Event>) {
    forall i :: 0 <= i < |events| ==> !events[i].kind.Other?
  }

  ghost predicate InTimeOrder(events: seq<Event>) {
    forall i, j :: 0 <= i <= j < |events| ==> events[i].time <= events[j].time
  }

  function Front<T>(s: seq<T>): seq<T>
    requires s != []
  {
    s[..|s| - 1]
  }

  function Last<T>(s: seq<T>): T
    requires s != []
  {
    s[|s| - 1]
  }

  /** Handling every event in turn, keeping the whole log. */
  ghost function Run(log: Log, events: seq<Event>): Log
    requires Known(events)
  {
    if events == [] then log else Step(Run(log, Front(events)), Last(events))
  }

  /** The same with the log cut after every event. */
  ghost function TrimmedRun(log: Log, events: seq<Event>, n: nat): Log
    requires Known(events)
  {
    if events == [] then log else Trimmed(Step(TrimmedRun(log, Front(events), n), Last(events)), n)
  }

  /** The verdict of the last event of the run that decided about the crash loop. */
  ghost function LastVerdict(log: Log, events: seq<Event>): Option<bool>
    requires Known(events)
  {
    if events == [] then None
    else
      var before := Run(log, Front(events));
      var v := Verdict(before, Last(events));
      if v.Some? then v else LastVerdict(log, Front(events))
  }

  lemma {:induction false} CrashLoopIsLastVerdict(log: Log, events: seq<Event>)
    requires Known(events)
    ensures Run(log, events).crashLoop ==
            match LastVerdict(log, events) case Some(b) => b case None => log.crashLoop
  {
    if events != [] {
      CrashLoopIsLastVerdict(log, Front(events));
      VerdictDecidesStep(Run(log, Front(events)), Last(events));
    }
  }

  // ---------- the bounded log refines the unbounded one ----------

  ghost predicate SameButTrimmed(bounded: Log, full: Log, n: nat) {
    Trimmed(bounded, n) == Trimmed(full, n)
  }

  function Scalars(log: Log): Log {
    log.(events := [])
  }

  /** Both logs were changed in the same scalar fields and extended by the same event, if at all. */
  ghost predicate ChangedAlike(a: Log, b: Log, a': Log, b': Log, stored: Event) {
    && Scalars(a') == Scalars(b')
    && (|| (a'.events == a.events && b'.events == b.events)
        || (a'.events == [stored] + a.events && b'.events == [stored] + b.events))
  }

  lemma EnteredOnScalars(entered: State, src: State, log: Log, event: Event)
    ensures var bare := Entered(entered, src, Scalars(log), event);
            Entered(entered, src, log, event) ==
            bare.(events := if bare.events == [] then log.events else [event] + log.events)
  {
    assert SwallowsBuffered(Scalars(log), event) == SwallowsBuffered(log, event);
    assert ReclaimFailed(Scalars(log), event) == ReclaimFailed(log, event);
    hide SwallowsBuffered, ReclaimFailed;
  }

  lemma EnteredReadsScalars(entered: State, src: State, a: Log, b: Log, event: Event)
    requires Scalars(a) == Scalars(b)
    ensures ChangedAlike(a, b, Entered(entered, src, a, event), Entered(entered, src, b, event), event)
  {
    EnteredOnScalars(entered, src, a, event);
    EnteredOnScalars(entered, src, b, event);
  }

  lemma UnexpectedReadsScalars(s: State, a: Log, b: Log, event: Event)
    requires Scalars(a) == Scalars(b)
    ensures ChangedAlike(a, b, Unexpected(s, a, event), Unexpected(s, b, event), MarkedUnexpected(s, event))
  {
  }

  /** Two containers with the same scalar fields in the same state change alike. */
  lemma StepReadsScalars(a: Log, b: Log, event: Event)
    requires Scalars(a) == Scalars(b) && StateOfLog(a) == StateOfLog(b) && !event.kind.Other?
    ensures ChangedAlike(a, b, Step(a, event), Step(b, event), Stored(a, event))
  {
    var s := StateOfLog(a);
    match Resolved(event.kind, s)
    case None => UnexpectedReadsScalars(s, a, b, event);
    case Some(target) => EnteredReadsScalars(if target.To? then target.state else s, s, a, b, event);
  }

  lemma SameButTrimmedInSameState(a: Log, b: Log, n: nat)
    requires n > 0 && SameButTrimmed(a, b, n)
    ensures Scalars(a) == Scalars(b) && StateOfLog(a) == StateOfLog(b)
    ensures Take(a.events, n) == Take(b.events, n)
  {
    assert Scalars(Trimmed(a, n)) == Scalars(a) && Scalars(Trimmed(b, n)) == Scalars(b);
    assert Trimmed(a, n).events == Take(a.events, n) && Trimmed(b, n).events == Take(b.events, n);
    assert a.events != [] ==> Take(a.events, n)[0] == a.events[0];
    assert b.events != [] ==> Take(b.events, n)[0] == b.events[0];
  }

  lemma StepIgnoresTrimming(bounded: Log, full: Log, event: Event, n: nat)
    requires n > 0 && SameButTrimmed(bounded, full, n) && !event.kind.Other?
    ensures SameButTrimmed(Step(bounded, event), Step(full, event), n)
  {
    SameButTrimmedInSameState(bounded, full, n);
    StepReadsScalars(bounded, full, event);
    TakeAfterPrepend(bounded.events, full.events, Stored(bounded, event), n);
    var x, y := Step(bounded, event), Step(full, event);
    assert Trimmed(x, n) == Scalars(x).(events := Take(x.events, n));
    assert Trimmed(y, n) == Scalars(y).(events := Take(y.events, n));
  }

  lemma TakeAfterPrepend(a: seq<Event>, b: seq<Event>, e: Event, n: nat)
    requires n > 0 && Take(a, n) == Take(b, n)
    ensures Take([e] + a, n) == Take([e] + b, n)
  {
    var x, y := Take([e] + a, n), Take([e] + b, n);
    assert |x| == |y|;
    forall i | 0 <= i < |x| ensures x[i] == y[i] {
      if i > 0 {
        assert x[i] == Take(a, n)[i - 1] && y[i] == Take(b, n)[i - 1];
      }
    }
  }

  /** From any container, trimming changes nothing but the length of the log. */
  lemma {:induction false} TrimmedRunRefinesRun(log: Log, events: seq<Event>, n: nat)
    requires n > 0 && Known(events)
    ensures SameButTrimmed(TrimmedRun(log, events, n), Run(log, events), n)
    ensures StateOfLog(TrimmedRun(log, events, n)) == StateOfLog(Run(log, events))
  {
    if events != [] {
      var b, f := TrimmedRun(log, Front(events), n), Run(log, Front(events));
      TrimmedRunRefinesRun(log, Front(events), n);
      StepIgnoresTrimming(b, f, Last(events), n);
    }
    SameButTrimmedInSameState(TrimmedRun(log, events, n), Run(log, events), n);
  }

  // ---------- what a run in time order keeps ----------

  /** Valid, nothing after `now`, no Alive event stored. */
  ghost predicate Healthy(log: Log, now: int) {
    && Chronological(log)
    && (log.lastEventTime.Some? ==> log.lastEventTime.value <= now)
    && forall i :: 0 <= i < |log.events| ==> !log.events[i].kind.Alive?
  }

  lemma StepStaysHealthy(log: Log, event: Event)
    requires !event.kind.Other? && Healthy(log, event.time)
    ensures Healthy(Step(log, event), event.time)
    ensures log.lastEventTime.Some? ==>
              && Step(log, event).lastEventTime.Some?
              && log.lastEventTime.value <= Step(log, event).lastEventTime.value
  {
    StoredOrKept(log, event);
    var next := Step(log, event);
    TimeAfterStep(log, event);
    if next.events != log.events {
      assert forall i :: 0 <= i < |log.events| ==> log.events[i].time <= log.events[0].time;
      assert next.events[1..] == log.events;
      assert forall i :: 0 < i < |next.events| ==> next.events[i] == log.events[i - 1];
    }
  }

  lemma TimeAfterStep(log: Log, event: Event)
    requires !event.kind.Other?
    ensures var next := Step(log, event);
            next.lastEventTime == Some(event.time) || next == log
    ensures Stored(log, event).time == event.time && Stored(log, event).kind == event.kind
  {
    hide StateName, SwallowsBuffered, ReclaimFailed, MarkedUnexpected;
    MarkedKeepsKind(StateOfLog(log), event);
  }

  // ---------- the event service ----------

  /** The new container of a machine, or the error for which nothing is stored. */
  function Send(stored: Option<Log>, event: Event): Result<Log, FsmError> {
    match Handle(if stored.Some? then stored.value else EMPTY_LOG, event)
    case Err(e) => Err(e)
    case Ok(log) => if Chronological(log) then Ok(Trimmed(log, MAX_EVENTS)) else Err(NotChronological)
  }

  class EventService {
    var containers: map<string, Log>

    constructor ()
      ensures containers == map[]
    {
      containers := map[];
    }

    method SendEvent(machineID: string, event: Event) returns (error: Option<FsmError>)
      modifies this
      ensures match Send(if machineID in old(containers) then Some(old(containers)[machineID]) else None, event)
              case Ok(log) => error.None? && containers == old(containers)[machineID := log]
              case Err(e) => error == Some(e) && containers == old(containers)
    {
      var ec := new Container(if machineID in containers then containers[machineID] else EMPTY_LOG);
      var r := HandleProvisioningEvent(ec, Some(event));
      if r.Err? {
        return Some(r.error);
      }
      var valid := r.value.Validate();
      if !valid {
        return Some(NotChronological);
      }
      r.value.TrimEvents(MAX_EVENTS);
      containers := containers[machineID := r.value.Value()];
      error := None;
    }
  }

  ghost function SendAll(events: seq<Event>): Result<Option<Log>, FsmError> {
    if events == [] then Ok(None)
    else
      match SendAll(Front(events))
      case Err(e) => Err(e)
      case Ok(stored) =>
        match Send(stored, Last(events))
        case Err(e) => Err(e)
        case Ok(log) => Ok(Some(log))
  }

  /** One send in time order: the handled log is valid and stored, cut to size. */
  lemma SendStores(stored: Option<Log>, event: Event)
    requires var before := if stored.Some? then stored.value else EMPTY_LOG;
             !event.kind.Other? && Healthy(before, event.time)
    ensures var before := if stored.Some? then stored.value else EMPTY_LOG;
            Send(stored, event) == Ok(Trimmed(Step(before, event), MAX_EVENTS))
  {
    var before := if stored.Some? then stored.value else EMPTY_LOG;
    HandleIsStep(before, event);
    StepStaysHealthy(before, event);
    hide Handle, Step;
  }

  lemma TrimmedIsHealthy(log: Log, now: int, n: nat)
    requires n > 0 && Healthy(log, now)
    ensures Healthy(Trimmed(log, n), now) && StateOfLog(Trimmed(log, n)) == StateOfLog(log)
  {
    TrimmedIsChronological(log, n);
  }

  /**
   Every run of known events in time order from no container succeeds at each step: the stored
   container equals the one of the unbounded run except that it keeps the first hundred events, it
   is valid, nothing in it is later than the last event, and no Alive event was stored.
   */
  lemma {:induction false} ServiceRunRefinesUnboundedRun(events: seq<Event>)
    requires events != [] && Known(events) && InTimeOrder(events)
    ensures SendAll(events).Ok? && SendAll(events).value.Some?
    ensures var full := Run(EMPTY_LOG, events);
            && SendAll(events).value.value == full.(events := Take(full.events, 100))
            && StateOfLog(SendAll(events).value.value) == StateOfLog(full)
            && Healthy(full, Last(events).time)
            && Healthy(SendAll(events).value.value, Last(events).time)
  {
    var front, e := Front(events), Last(events);
    var full := Run(EMPTY_LOG, front);
    var stored: Option<Log> := None;
    var before := EMPTY_LOG;
    if front != [] {
      assert Last(front).time <= e.time;
      ServiceRunRefinesUnboundedRun(front);
      stored := SendAll(front).value;
      before := stored.value;
    }
    assert SendAll(front) == Ok(stored);
    assert Healthy(full, e.time) && Healthy(before, e.time) && SameButTrimmed(before, full, MAX_EVENTS);
    assert SendAll(events) == match Send(stored, e) case Err(x) => Err(x) case Ok(log) => Ok(Some(log));
    hide Healthy, Send, Step, StateOfLog;
    SendStores(stored, e);
    StepStaysHealthy(full, e);
    StepIgnoresTrimming(before, full, e, MAX_EVENTS);
    TrimmedIsHealthy(Step(full, e), e.time, MAX_EVENTS);
  }

  /** The last event time never moves backwards along such a run. */
  lemma LastEventTimeNeverDecreases(events: seq<Event>, next: Event)
    requires events != [] && Known(events + [next]) && InTimeOrder(events + [next])
    ensures SendAll(events).Ok? && SendAll(events + [next]).Ok?
    ensures var t, u := SendAll(events).value.value.lastEventTime, SendAll(events + [next]).value.value.lastEventTime;
            t.Some? ==> u.Some? && t.value <= u.value <= next.time
  {
    var all := events + [next];
    assert Front(all) == events && Last(all) == next;
    assert forall i :: 0 <= i < |events| ==> events[i] == all[i];
    ServiceRunRefinesUnboundedRun(events);
    ServiceRunRefinesUnboundedRun(all);
    assert Last(events).time <= next.time;
    StepStaysHealthy(Run(EMPTY_LOG, events), next);
  }

  // ---------- self-stabilisation ----------

  datatype Phase = Start | Pxe | Prep | Reg | Wait | Inst | Kernel | Home | Off

  function NextPhase(p: Phase, kind: EventType): Phase {
    match (p, kind)
    case (Start, PXEBooting) => Pxe
    case (Pxe, PXEBooting) => Pxe
    case (Pxe, Preparing) => Prep
    case (Prep, Registering) => Reg
    case (Reg, Waiting) => Wait
    case (Reg, Installing) => Inst
    case (Wait, Installing) => Inst
    case (Inst, BootingNewKernel) => Kernel
    case (Kernel, PhonedHome) => Home
    case (Home, PhonedHome) => Home
    case (_, Alive) => if p.Start? || p.Home? then Off else p
    case _ => Off
  }

  /**
   One installation: PXE booting at least once, preparing, registering, optionally waiting,
   installing, booting the new kernel, phoning home (again and again), with Alive events anywhere
   between the first PXE booting and the first phoned home event.
   */
  ghost function PhaseAfter(events: seq<Event>): Phase {
    if events == [] then Start else NextPhase(PhaseAfter(Front(events)), Last(events).kind)
  }

  ghost predicate IsInstallation(events: seq<Event>) {
    PhaseAfter(events) == Home
  }

  predicate InPhase(p: Phase, log: Log) {
    var s := StateOfLog(log);
    match p
    case Start => true
    case Pxe => s.PXEBooting?
    case Prep => s.Preparing? && !log.failedMachineReclaim
    case Reg => s.Registering? && !log.failedMachineReclaim
    case Wait => s.Waiting? && !log.failedMachineReclaim
    case Inst => s.Installing? && !log.failedMachineReclaim
    case Kernel => s.BootingNewKernel? && !log.failedMachineReclaim
    case Home => s.PhonedHome? && !log.failedMachineReclaim && !log.crashLoop
    case Off => true
  }

  /** The states from which a first PXE booting event is expected. */
  predicate Restartable(s: State) {
    s.Initial? || s.PlannedReboot? || s.MachineReclaim? || s.Crashing? || s.PXEBooting?
  }

  lemma PhaseStep(p: Phase, log: Log, event: Event)
    requires !event.kind.Other? && InPhase(p, log) && !NextPhase(p, event.kind).Off?
    ensures InPhase(NextPhase(p, event.kind), Step(log, event))
    ensures !p.Start? || Restartable(StateOfLog(log)) ==> Step(log, event).lastErrorEvent == log.lastErrorEvent
  {
    StoredOrKept(log, event);
  }

  lemma {:induction false} PhaseRun(log: Log, events: seq<Event>)
    requires Known(events) && !PhaseAfter(events).Off?
    ensures InPhase(PhaseAfter(events), Run(log, events))
    ensures Restartable(StateOfLog(log)) ==> Run(log, events).lastErrorEvent == log.lastErrorEvent
  {
    if events != [] {
      var p := PhaseAfter(Front(events));
      assert !p.Off?;
      PhaseRun(log, Front(events));
      PhaseStep(p, Run(log, Front(events)), Last(events));
      assert p.Start? ==> Front(events) == [] by {
        StartOnlyAtTheBeginning(Front(events));
      }
    }
  }

  lemma StartOnlyAtTheBeginning(events: seq<Event>)
    ensures PhaseAfter(events).Start? ==> events == []
  {
  }

  /**
   From any container whatsoever, one installation brings the machine back to PhonedHome with both
   error flags cleared, whether the log is trimmed or not; started from a state in which PXE
   booting is expected it does not touch the last error event.
   */
  lemma InstallationStabilises(log: Log, events: seq<Event>, n: nat)
    requires n > 0 && Known(events) && IsInstallation(events)
    ensures forall c | c in {Run(log, events), TrimmedRun(log, events, n)} ::
              && StateOfLog(c).PhonedHome?
              && !c.crashLoop
              && !c.failedMachineReclaim
              && (Restartable(StateOfLog(log)) ==> c.lastErrorEvent == log.lastErrorEvent)
  {
    PhaseRun(log, events);
    TrimmedRunRefinesRun(log, events, n);
  }
}
