/**
 The provisioning state machine. The machine is rebuilt for every event from the newest stored
 event; the transition library is modelled as a lookup in the event table, where a later entry
 for the same event and source state replaces an earlier one.
 */
module Fsm {
  import opened Wrappers
  import opened ProvisioningEvents

  datatype State =
    | Initial | Alive | Crashing | PXEBooting | Preparing | Registering | Waiting
    | Installing | BootingNewKernel | PhonedHome | PlannedReboot | MachineReclaim

  datatype Target = To(state: State) | SelfTransition

  datatype EventDesc = EventDesc(name: EventType, src: set<State>, dst: Target)

  datatype FsmError = UnknownEvent | BackToInitial | NilContainer | NilEvent | NotChronological

  // Both thresholds are five minutes, in nanoseconds.
  const FAILED_MACHINE_RECLAIM_THRESHOLD := 300_000_000_000
  const SWALLOW_BUFFERED_PHONED_HOME_THRESHOLD := 300_000_000_000

  const ALL_STATES := {
    State.Initial, State.Alive, State.Crashing, State.PXEBooting, State.Preparing, State.Registering,
    State.Waiting, State.Installing, State.BootingNewKernel, State.PhonedHome, State.PlannedReboot,
    State.MachineReclaim}

  const PROVISIONING_STATES := {
    State.PXEBooting, State.Preparing, State.Registering, State.Waiting, State.Installing,
    State.BootingNewKernel, State.Initial}

  const TABLE_SIZE := 15

  /** The rows of the event table, in order. */
  function Entry(i: nat): EventDesc
    requires i < TABLE_SIZE
  {
    match i
    case 0 =>
      EventDesc(EventType.PXEBooting, {State.PlannedReboot, State.MachineReclaim, State.Crashing, State.Initial},
        To(State.PXEBooting))
    case 1 => EventDesc(EventType.PXEBooting, {State.PXEBooting}, SelfTransition)
    case 2 =>
      EventDesc(EventType.Preparing,
        {State.PXEBooting, State.PlannedReboot, State.MachineReclaim, State.Crashing, State.Initial},
                To(State.Preparing))
    case 3 => EventDesc(EventType.Registering, {State.Preparing, State.Initial}, To(State.Registering))
    case 4 => EventDesc(EventType.Waiting, {State.Registering, State.Initial}, To(State.Waiting))
    case 5 =>
      EventDesc(EventType.Installing, {State.Registering, State.Waiting, State.Initial}, To(State.Installing))
    case 6 =>
      EventDesc(EventType.BootingNewKernel, {State.Installing, State.Initial}, To(State.BootingNewKernel))
    case 7 =>
      EventDesc(EventType.PhonedHome, {State.BootingNewKernel, State.MachineReclaim, State.Initial},
        To(State.PhonedHome))
    case 8 =>
      EventDesc(EventType.PhonedHome, {State.PlannedReboot, State.PhonedHome, State.PXEBooting, State.Preparing,
                                       State.Registering, State.Waiting}, SelfTransition)
    case 9 => EventDesc(EventType.PlannedReboot, ALL_STATES, To(State.PlannedReboot))
    case 10 => EventDesc(EventType.PlannedReboot, {State.PlannedReboot}, SelfTransition)
    case 11 => EventDesc(EventType.MachineReclaim, ALL_STATES, To(State.MachineReclaim))
    case 12 => EventDesc(EventType.MachineReclaim, {State.MachineReclaim}, SelfTransition)
    case 13 => EventDesc(EventType.Alive, PROVISIONING_STATES, To(State.Alive))
    case _ => EventDesc(EventType.Crashed, PROVISIONING_STATES, To(State.Crashing))
  }

  /** The last of the first n rows that covers the event in this state. */
  function Lookup(n: nat, kind: EventType, state: State): Option<Target>
    requires n <= TABLE_SIZE
  {
    if n == 0 then None
    else if Entry(n - 1).name == kind && state in Entry(n - 1).src then Some(Entry(n - 1).dst)
    else Lookup(n - 1, kind, state)
  }

  function Transition(kind: EventType, state: State): Option<Target> {
    Lookup(TABLE_SIZE, kind, state)
  }

  predicate KnownEvent(kind: EventType) {
    exists i :: 0 <= i < TABLE_SIZE && Entry(i).name == kind
  }

  /** The state a stored event stands for: the first proper destination in the table. */
  function DestinationFrom(i: nat, kind: EventType): State
    requires i <= TABLE_SIZE
    decreases TABLE_SIZE - i
  {
    if i == TABLE_SIZE then State.Initial
    else if Entry(i).name == kind && Entry(i).dst.To? then Entry(i).dst.state
    else DestinationFrom(i + 1, kind)
  }

  function EventDestination(kind: EventType): State {
    DestinationFrom(0, kind)
  }

  function RebuiltState(log: Log): State {
    if log.events == [] then State.Initial else EventDestination(log.events[0].kind)
  }

  // ---------- the state callbacks ----------

  function Touched(log: Log, event: Event): Log {
    log.(lastEventTime := Some(event.time), liveliness := Live)
  }

  function Appended(log: Log, event: Event): Log {
    Touched(log, event).(events := [event] + log.events)
  }

  /** A phoned home event within the threshold is a delayed one from before the reboot. */
  predicate SwallowsBuffered(log: Log, event: Event) {
    && event.kind == EventType.PhonedHome
    && log.lastEventTime.Some?
    && event.time - log.lastEventTime.value < SWALLOW_BUFFERED_PHONED_HOME_THRESHOLD
  }

  predicate ReclaimFailed(log: Log, event: Event) {
    && log.lastEventTime.Some?
    && event.time - log.lastEventTime.value > FAILED_MACHINE_RECLAIM_THRESHOLD
  }

  /** What entering state `entered` from `src` does to the container. */
  function OnTransition(entered: State, src: State, log: Log, event: Event): Result<Log, FsmError> {
    match entered
    case Initial => Err(BackToInitial)
    case Alive => Ok(Touched(log, event))
    case Crashing => Ok(Appended(log, event).(crashLoop := true, lastErrorEvent := Some(event)))
    case PXEBooting =>
      if SwallowsBuffered(log, event) then Ok(log)
      else if src == State.PXEBooting then Ok(Touched(log, event).(failedMachineReclaim := false))
      else Ok(Appended(log, event).(failedMachineReclaim := false))
    case Preparing =>
      if SwallowsBuffered(log, event) then Ok(log)
      else Ok(Appended(log, event).(failedMachineReclaim := false))
    case Registering => Ok(if SwallowsBuffered(log, event) then log else Appended(log, event))
    case Waiting => Ok(if SwallowsBuffered(log, event) then log else Appended(log, event))
    case Installing => Ok(Appended(log, event))
    case BootingNewKernel => Ok(Appended(log, event))
    case PhonedHome =>
      if src == State.PhonedHome then Ok(Touched(log, event))
      else if src == State.MachineReclaim then
        Ok(if ReclaimFailed(log, event) then Touched(log, event).(failedMachineReclaim := true) else log)
      else Ok(Appended(log, event).(crashLoop := false))
    case PlannedReboot => Ok(Appended(log, event).(crashLoop := false))
    case MachineReclaim => Ok(Appended(log, event).(crashLoop := false))
  }

  function StateName(state: State): string {
    match state
    case Initial => "state initial"
    case Alive => "state alive"
    case Crashing => "state crashing"
    case PXEBooting => "state pxe booting"
    case Preparing => "state preparing"
    case Registering => "state registering"
    case Waiting => "state waiting"
    case Installing => "state installing"
    case BootingNewKernel => "state booting new kernel"
    case PhonedHome => "state phoned home"
    case PlannedReboot => "state planned reboot"
    case MachineReclaim => "state machine reclaim"
  }

  function MarkedUnexpected(state: State, event: Event): Event {
    var prefix := "[unexpectedly received in " + StateName(state) + "]";
    event.(message := if event.message == "" then prefix else prefix + ": " + event.message)
  }

  /** An event without a transition is an error, but it still moves the container on. */
  function Unexpected(state: State, log: Log, event: Event): Log {
    var marked := MarkedUnexpected(state, event);
    var noted := Touched(log, marked).(lastErrorEvent := Some(marked));
    match event.kind
    case PXEBooting => noted.(crashLoop := true, events := [marked] + log.events)
    case Preparing => noted.(crashLoop := true, events := [marked] + log.events)
    case Alive => noted
    case _ => noted.(events := [marked] + log.events)
  }

  /** What the library's verdict on the event leads to. */
  function Dispatch(target: Option<Target>, known: bool, state: State, log: Log, event: Event): Result<Log, FsmError> {
    match target
    case Some(To(entered)) => OnTransition(entered, state, log, event)
    case Some(SelfTransition) => OnTransition(state, state, log, event)
    case None => if known then Ok(Unexpected(state, log, event)) else Err(UnknownEvent)
  }

  function Handle(log: Log, event: Event): Result<Log, FsmError> {
    var state := RebuiltState(log);
    Dispatch(Transition(event.kind, state), KnownEvent(event.kind), state, log, event)
  }

  // ---------- the same callbacks on the mutable container ----------

  method UpdateTimeAndLiveliness(c: Container, event: Event)
    modifies c
    ensures c.Value() == Touched(old(c.Value()), event)
  {
    c.lastEventTime := Some(event.time);
    c.liveliness := Live;
  }

  method AppendEventToContainer(c: Container, event: Event)
    modifies c
    ensures c.Value() == Appended(old(c.Value()), event)
  {
    UpdateTimeAndLiveliness(c, event);
    c.events := [event] + c.events;
  }

  method EnterState(c: Container, entered: State, src: State, event: Event) returns (error: Option<FsmError>)
    modifies c
    ensures match OnTransition(entered, src, old(c.Value()), event)
            case Ok(log) => error.None? && c.Value() == log
            case Err(e) => error == Some(e) && c.Value() == old(c.Value())
  {
    error := None;
    match entered {
      case Initial =>
        error := Some(BackToInitial);
      case Alive =>
        UpdateTimeAndLiveliness(c, event);
      case Crashing =>
        c.crashLoop := true;
        c.lastErrorEvent := Some(event);
        AppendEventToContainer(c, event);
      case PXEBooting =>
        if SwallowsBuffered(c.Value(), event) {
          return;
        }
        c.failedMachineReclaim := false;
        if src == State.PXEBooting {
          UpdateTimeAndLiveliness(c, event);
          return;
        }
        AppendEventToContainer(c, event);
      case Preparing =>
        if SwallowsBuffered(c.Value(), event) {
          return;
        }
        c.failedMachineReclaim := false;
        AppendEventToContainer(c, event);
      case Registering =>
        if !SwallowsBuffered(c.Value(), event) {
          AppendEventToContainer(c, event);
        }
      case Waiting =>
        if !SwallowsBuffered(c.Value(), event) {
          AppendEventToContainer(c, event);
        }
      case Installing =>
        AppendEventToContainer(c, event);
      case BootingNewKernel =>
        AppendEventToContainer(c, event);
      case PhonedHome =>
        if src == State.PhonedHome {
          UpdateTimeAndLiveliness(c, event);
        } else if src == State.MachineReclaim {
          if ReclaimFailed(c.Value(), event) {
            UpdateTimeAndLiveliness(c, event);
            c.failedMachineReclaim := true;
          }
        } else {
          c.crashLoop := false;
          AppendEventToContainer(c, event);
        }
      case PlannedReboot =>
        c.crashLoop := false;
        AppendEventToContainer(c, event);
      case MachineReclaim =>
        c.crashLoop := false;
        AppendEventToContainer(c, event);
    }
  }

  method HandleProvisioningEvent(ec: Container?, event: Option<Event>) returns (r: Result<Container, FsmError>)
    ensures ec == null ==> r == Err(NilContainer)
    ensures ec != null && event.None? ==> r == Err(NilEvent)
    ensures ec != null && event.Some? ==>
              match Handle(old(ec.Value()), event.value)
              case Ok(log) => r.Ok? && fresh(r.value) && r.value.Value() == log
              case Err(e) => r == Err(e)
  {
    if ec == null {
      return Err(NilContainer);
    }
    if event.None? {
      return Err(NilEvent);
    }
    var e := event.value;
    var container := new Container(ec.Value());
    var state := RebuiltState(container.Value());
    match Transition(e.kind, state) {
      case Some(target) =>
        var entered := if target.To? then target.state else state;
        var error := EnterState(container, entered, state, e);
        r := if error.Some? then Err(error.value) else Ok(container);
      case None =>
        if !KnownEvent(e.kind) {
          return Err(UnknownEvent);
        }
        var marked := MarkedUnexpected(state, e);
        container.lastEventTime := Some(marked.time);
        container.liveliness := Live;
        container.lastErrorEvent := Some(marked);
        match e.kind {
          case PXEBooting =>
            container.crashLoop := true;
            container.events := [marked] + container.events;
          case Preparing =>
            container.crashLoop := true;
            container.events := [marked] + container.events;
          case Alive =>
          case _ =>
            container.events := [marked] + container.events;
        }
        r := Ok(container);
    }
  }

  // ---------- facts about the table ----------

  /** The transition relation the table denotes. */
  function Resolved(kind: EventType, s: State): Option<Target> {
    match kind
    case PXEBooting =>
      if s.PXEBooting? then Some(SelfTransition)
      else if s.PlannedReboot? || s.MachineReclaim? || s.Crashing? || s.Initial? then Some(To(State.PXEBooting))
      else None
    case Preparing =>
      if s.PXEBooting? || s.PlannedReboot? || s.MachineReclaim? || s.Crashing? || s.Initial?
      then Some(To(State.Preparing)) else None
    case Registering => if s.Preparing? || s.Initial? then Some(To(State.Registering)) else None
    case Waiting => if s.Registering? || s.Initial? then Some(To(State.Waiting)) else None
    case Installing =>
      if s.Registering? || s.Waiting? || s.Initial? then Some(To(State.Installing)) else None
    case BootingNewKernel =>
      if s.Installing? || s.Initial? then Some(To(State.BootingNewKernel)) else None
    case PhonedHome =>
      if s.BootingNewKernel? || s.MachineReclaim? || s.Initial? then Some(To(State.PhonedHome))
      else if s.Installing? || s.Alive? || s.Crashing? then None
      else Some(SelfTransition)
    case PlannedReboot => Some(if s.PlannedReboot? then SelfTransition else To(State.PlannedReboot))
    case MachineReclaim => Some(if s.MachineReclaim? then SelfTransition else To(State.MachineReclaim))
    case Alive => if Provisioning(s) then Some(To(State.Alive)) else None
    case Crashed => if Provisioning(s) then Some(To(State.Crashing)) else None
    case Other(_) => None
  }

  predicate Provisioning(s: State) {
    s.PXEBooting? || s.Preparing? || s.Registering? || s.Waiting? || s.Installing? || s.BootingNewKernel? || s.Initial?
  }

  lemma TransitionTable(kind: EventType, s: State)
    ensures Transition(kind, s) == Resolved(kind, s)
  {
    RowsOfKind(kind, s);
    if NextRow(kind) == FirstRow(kind) + 1 {
      if kind.Alive? || kind.Crashed? {
        AnyPhaseRow(kind, s);
      } else {
        OneRow(kind, s);
      }
    } else if NextRow(kind) == FirstRow(kind) + 2 {
      if kind.PhonedHome? {
        PhonedHomeRows(s);
      } else {
        TwoRows(kind, s);
      }
    }
  }

  lemma AnyPhaseRow(kind: EventType, s: State)
    requires kind.Alive? || kind.Crashed?
    requires Lookup(FirstRow(kind), kind, s) == None
    ensures Lookup(NextRow(kind), kind, s) == Resolved(kind, s)
  {
  }

  lemma OneRow(kind: EventType, s: State)
    requires NextRow(kind) == FirstRow(kind) + 1 && !kind.Alive? && !kind.Crashed?
    requires Lookup(FirstRow(kind), kind, s) == None
    ensures Lookup(NextRow(kind), kind, s) == Resolved(kind, s)
  {
  }

  lemma PhonedHomeRows(s: State)
    requires Lookup(7, EventType.PhonedHome, s) == None
    ensures Lookup(9, EventType.PhonedHome, s) == Resolved(EventType.PhonedHome, s)
  {
  }

  lemma TwoRows(kind: EventType, s: State)
    requires NextRow(kind) == FirstRow(kind) + 2 && !kind.PhonedHome?
    requires Lookup(FirstRow(kind), kind, s) == None
    ensures Lookup(NextRow(kind), kind, s) == Resolved(kind, s)
  {
  }

  function FirstRow(kind: EventType): nat {
    match kind
    case PXEBooting => 0
    case Preparing => 2
    case Registering => 3
    case Waiting => 4
    case Installing => 5
    case BootingNewKernel => 6
    case PhonedHome => 7
    case PlannedReboot => 9
    case MachineReclaim => 11
    case Alive => 13
    case Crashed => 14
    case Other(_) => 15
  }

  function NextRow(kind: EventType): nat {
    FirstRow(kind) +
    if kind.Other? then 0
    else if kind.PXEBooting? || kind.PhonedHome? || kind.PlannedReboot? || kind.MachineReclaim? then 2 else 1
  }

  lemma RowKind(i: nat, kind: EventType)
    requires i < TABLE_SIZE
    ensures Entry(i).name == kind <==> FirstRow(kind) <= i < NextRow(kind)
  {
  }

  /** Only the rows of an event matter for it, and of two rows the later one wins. */
  lemma RowsOfKind(kind: EventType, s: State)
    ensures Transition(kind, s) == Lookup(NextRow(kind), kind, s)
    ensures Lookup(FirstRow(kind), kind, s) == None
  {
    Skip(NextRow(kind), TABLE_SIZE, kind, s);
    Skip(0, FirstRow(kind), kind, s);
  }

  lemma Skip(lo: nat, hi: nat, kind: EventType, s: State)
    requires lo <= hi <= TABLE_SIZE
    requires hi <= FirstRow(kind) || NextRow(kind) <= lo
    ensures Lookup(hi, kind, s) == Lookup(lo, kind, s)
  {
    if lo < hi {
      RowKind(hi - 1, kind);
      Skip(lo, hi - 1, kind, s);
    }
  }
}
