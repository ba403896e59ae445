/**
 Many api servers allocate, release and edit machines at the same time. Every database operation is
 one atomic action of some client; a list of actions is one interleaving, and all lists are allowed.
 The shared mutex around the candidate search is left out of the model, so what is proved holds even
 when it has expired.
 */
module Allocation {
  import opened Wrappers
  import opened Storage

  datatype Machine = Machine(allocation: Option<string>, preAllocated: bool, waiting: bool, available: bool, rest: int)

  /** What a client is about to write, decided on the copy it has read. */
  datatype Intent =
    | PreAllocate             // findWaitingMachine
    | Allocate(uuid: string)  // allocateMachine, after fetching the machine again
    | Release(uuid: string)   // releaseAllocationTask
    | SetWaiting(waiting: bool)
    | Edit(available: bool, rest: int)  // any other write: it keeps the allocation

  predicate Allowed(intent: Intent, m: Machine) {
    match intent
    case PreAllocate => m.waiting && m.available && !m.preAllocated && m.allocation.None?
    case Allocate(_) => m.allocation.None?
    case Release(uuid) => m.allocation == Some(uuid)
    case SetWaiting(_) => true
    case Edit(_, _) => true
  }

  function Written(intent: Intent, m: Machine): Machine {
    match intent
    case PreAllocate => m.(preAllocated := true)
    case Allocate(uuid) => m.(allocation := Some(uuid), preAllocated := false)
    case Release(_) => m.(allocation := None, preAllocated := false)
    case SetWaiting(waiting) => m.(waiting := waiting)
    case Edit(available, rest) => m.(available := available, rest := rest)
  }

  /** The copy a client works on, and the row it was read from or last written as. */
  datatype Held = Held(id: string, copy: Entity<Machine>, basis: Entity<Machine>, intent: Option<Intent>)

  datatype Action =
    | CreateMachine(id: string, machine: Machine)
    | DeleteMachine(id: string)
    | Fetch(client: nat, id: string)
    | Decide(client: nat, intent: Intent)
    | Write(client: nat)

  datatype State = State(db: Db<Machine>, held: map<nat, Held>)

  const INITIAL := State(Db(map[], 0), map[])

  predicate CanDecide(s: State, client: nat, intent: Intent) {
    && client in s.held
    && s.held[client].intent.None?
    && Allowed(intent, s.held[client].copy.payload)
  }

  predicate Succeeds(s: State, client: nat) {
    && client in s.held
    && s.held[client].copy.changed.Some?
    && s.held[client].id in s.db.rows
    && s.db.rows[s.held[client].id].changed == s.held[client].copy.changed
  }

  /** An action that is not possible in a state changes nothing. */
  function Next(s: State, a: Action): State {
    match a
    case CreateMachine(id, machine) => s.(db := Created(s.db, id, machine).0)
    case DeleteMachine(id) => s.(db := s.db.(rows := s.db.rows - {id}))
    case Fetch(client, id) =>
      if id in s.db.rows
      then s.(held := s.held[client := Held(id, s.db.rows[id], s.db.rows[id], None)])
      else s.(held := s.held - {client})
    case Decide(client, intent) =>
      if CanDecide(s, client, intent) then
        var h := s.held[client];
        s.(held := s.held[client :=
          h.(copy := h.copy.(payload := Written(intent, h.copy.payload)), intent := Some(intent))])
      else s
    case Write(client) =>
      if client !in s.held then s
      else
        var h := s.held[client];
        var (db, error) := Updated(s.db, h.id, h.copy);
        var copy := if h.copy.changed.None? then h.copy else Stamped(s.db, h.copy);
        State(db, s.held[client := if error.None? then Held(h.id, copy, copy, None) else h.(copy := copy)])
  }

  ghost function Run(actions: seq<Action>): State {
    if actions == [] then INITIAL else Next(Run(actions[..|actions| - 1]), actions[|actions| - 1])
  }

  // ---------- what every interleaving keeps ----------

  /** The copy is its basis, edited as decided and not stamped since. */
  ghost predicate Genuine(h: Held) {
    && h.copy.changed == h.basis.changed
    && h.copy.generation == h.basis.generation
    && match h.intent
       case None => h.copy.payload == h.basis.payload
       case Some(intent) => Allowed(intent, h.basis.payload) && h.copy.payload == Written(intent, h.basis.payload)
  }

  /** Every timestamp that was written belongs to one version only; `log` names it. */
  ghost predicate Inv(s: State, log: map<int, (string, Entity<Machine>)>) {
    && (forall t | t in log :: t <= s.db.clock)
    && (forall id | id in s.db.rows ::
          && s.db.rows[id].changed.Some?
          && s.db.rows[id].changed.value in log
          && log[s.db.rows[id].changed.value] == (id, s.db.rows[id]))
    && (forall c | c in s.held ::
          && s.held[c].copy.changed.Some?
          && s.held[c].copy.changed.value <= s.db.clock
          && (|| s.held[c].copy.changed.value !in log  // burnt by a failed update
              || (Genuine(s.held[c]) && log[s.held[c].copy.changed.value] == (s.held[c].id, s.held[c].basis))))
  }

  ghost function Logged(s: State, a: Action, log: map<int, (string, Entity<Machine>)>)
    : map<int, (string, Entity<Machine>)>
  {
    match a
    case CreateMachine(id, _) =>
      if id in s.db.rows then log else log[s.db.clock + 1 := (id, Created(s.db, id, a.machine).1.value)]
    case Write(client) =>
      if Succeeds(s, client)
      then log[s.db.clock + 1 := (s.held[client].id, Stamped(s.db, s.held[client].copy))] else log
    case _ => log
  }

  lemma NextKeepsInv(s: State, a: Action, log: map<int, (string, Entity<Machine>)>)
    requires Inv(s, log)
    ensures Inv(Next(s, a), Logged(s, a, log))
  {
  }

  ghost function LogOf(actions: seq<Action>): map<int, (string, Entity<Machine>)> {
    if actions == [] then map[]
    else Logged(Run(actions[..|actions| - 1]), actions[|actions| - 1], LogOf(actions[..|actions| - 1]))
  }

  lemma {:induction false} RunKeepsInv(actions: seq<Action>)
    ensures Inv(Run(actions), LogOf(actions))
  {
    if actions != [] {
      RunKeepsInv(actions[..|actions| - 1]);
      NextKeepsInv(Run(actions[..|actions| - 1]), actions[|actions| - 1], LogOf(actions[..|actions| - 1]));
    }
  }

  /**
   A successful update, in whatever interleaving, was computed from the very row it replaces: it
   writes what was decided on that row and raises its generation by one.
   */
  lemma UpdateReplacesItsBasis(actions: seq<Action>, client: nat)
    requires Succeeds(Run(actions), client)
    ensures var s, h := Run(actions), Run(actions).held[client];
            var before, after := s.db.rows[h.id], Run(actions + [Write(client)]).db.rows;
            && before == h.basis
            && h.id in after
            && after == s.db.rows[h.id := after[h.id]]
            && after[h.id].generation == before.generation + 1
            && before.changed.Some? && after[h.id].changed.Some?
            && before.changed.value < after[h.id].changed.value
            && match h.intent
               case None => after[h.id].payload == before.payload
               case Some(i) => Allowed(i, before.payload) && after[h.id].payload == Written(i, before.payload)
  {
    RunKeepsInv(actions);
    assert (actions + [Write(client)])[..|actions|] == actions;
  }

  // ---------- what a write leaves behind ----------

  /** Besides what it is about, a successful write changes nothing in the row. */
  lemma WriteLeaves(actions: seq<Action>, client: nat)
    requires Succeeds(Run(actions), client)
    ensures var s, h := Run(actions), Run(actions).held[client];
            var before, after := s.db.rows[h.id].payload, Run(actions + [Write(client)]).db.rows[h.id].payload;
            match h.intent
            case None => after == before
            case Some(PreAllocate) =>
              && !before.preAllocated && after.preAllocated && before.allocation == after.allocation == None
              && before.waiting && after.waiting && before.available && after.available && after.rest == before.rest
            case Some(Allocate(uuid)) =>
              && before.allocation == None && after.allocation == Some(uuid) && !after.preAllocated
              && after.waiting == before.waiting && after.available == before.available && after.rest == before.rest
            case Some(Release(uuid)) =>
              && before.allocation == Some(uuid) && after.allocation == None && !after.preAllocated
              && after.waiting == before.waiting && after.available == before.available && after.rest == before.rest
            case Some(SetWaiting(waiting)) =>
              && after.waiting == waiting && after.preAllocated == before.preAllocated
              && after.allocation == before.allocation && after.available == before.available
              && after.rest == before.rest
            case Some(Edit(available, rest)) =>
              && after.available == available && after.rest == rest && after.preAllocated == before.preAllocated
              && after.allocation == before.allocation && after.waiting == before.waiting
  {
    UpdateReplacesItsBasis(actions, client);
  }

  /**
   A released machine is not lost: if it is waiting and available, the next undisturbed search wins it, and
   so the machine can go through any number of allocations.
   */
  lemma ReleasedMachineIsFoundAgain(actions: seq<Action>, client: nat, uuid: string, other: nat)
    ensures var s := Run(actions);
            Succeeds(s, client) && s.held[client].intent == Some(Release(uuid)) ==>
              var id := s.held[client].id;
              var released := actions + [Write(client)];
              var found := released + [Fetch(other, id), Decide(other, PreAllocate), Write(other)];
              && id in Run(released).db.rows && id in Run(found).db.rows
              && (var m := Run(released).db.rows[id].payload;
                  m.waiting && m.available ==>
                    Run(found).db.rows[id].payload == m.(preAllocated := true) && !m.preAllocated)
  {
    var s := Run(actions);
    if Succeeds(s, client) && s.held[client].intent == Some(Release(uuid)) {
      var id := s.held[client].id;
      var released := actions + [Write(client)];
      var search := [Fetch(other, id), Decide(other, PreAllocate), Write(other)];
      WriteLeaves(actions, client);
      UpdateReplacesItsBasis(actions, client);
      RunThree(released, search[0], search[1], search[2]);
      RunKeepsInv(released);
      hide Run;
    }
  }

  lemma RunOneMore(actions: seq<Action>, a: Action)
    ensures Run(actions + [a]) == Next(Run(actions), a)
  {
    assert (actions + [a])[..|actions + [a]| - 1] == actions;
  }

  lemma RunThree(actions: seq<Action>, a: Action, b: Action, c: Action)
    ensures Run(actions + [a, b, c]) == Next(Next(Next(Run(actions), a), b), c)
  {
    hide Run, Next;
    RunOneMore(actions, a);
    RunOneMore(actions + [a], b);
    RunOneMore(actions + [a] + [b], c);
    assert actions + [a] + [b] + [c] == actions + [a, b, c];
  }

  /** Only a successful write changes a stored machine; creations and deletions touch no other one. */
  lemma RowsAfter(actions: seq<Action>, a: Action)
    ensures var s, after := Run(actions), Run(actions + [a]).db.rows;
            && (a.CreateMachine? && a.id !in s.db.rows ==>
                  && a.id in after && after == s.db.rows[a.id := after[a.id]]
                  && after[a.id].payload == a.machine && after[a.id].generation == 0 && after[a.id].changed.Some?
                  && forall other | other in s.db.rows ::
                       s.db.rows[other].changed.Some? && s.db.rows[other].changed.value < after[a.id].changed.value)
            && (a.DeleteMachine? ==> after == s.db.rows - {a.id})
            && (|| after == s.db.rows || a.DeleteMachine?
                || (a.CreateMachine? && a.id !in s.db.rows)
                || (a.Write? && Succeeds(s, a.client)))
  {
    RunOneMore(actions, a);
    RunKeepsInv(actions);
  }

  /** How one action can change the allocation of a machine that exists before and after. */
  ghost predicate AllocationStep(s: State, a: Action, id: string)
    requires id in s.db.rows
  {
    id in Next(s, a).db.rows ==>
      var before, after := s.db.rows[id].payload.allocation, Next(s, a).db.rows[id].payload.allocation;
      || after == before
      || (&& a.Write? && Succeeds(s, a.client) && s.held[a.client].id == id && s.held[a.client].intent.Some?
          && match s.held[a.client].intent.value
             case Allocate(uuid) => before == None && after == Some(uuid)
             case Release(uuid) => before == Some(uuid) && after == None
             case _ => false)
  }

  lemma EveryActionIsAnAllocationStep(actions: seq<Action>, a: Action, id: string)
    requires id in Run(actions).db.rows
    ensures AllocationStep(Run(actions), a, id)
  {
    RunKeepsInv(actions);
  }

  /** The action at position k is a successful release of this allocation of the machine. */
  ghost predicate ReleasedAt(actions: seq<Action>, k: nat, id: string, uuid: string)
    requires k < |actions|
  {
    var s := Run(actions[..k]);
    && actions[k].Write?
    && Succeeds(s, actions[k].client)
    && s.held[actions[k].client].id == id
    && s.held[actions[k].client].intent == Some(Release(uuid))
  }

  ghost predicate DeletedAt(actions: seq<Action>, k: nat, id: string)
    requires k < |actions|
  {
    actions[k] == DeleteMachine(id)
  }

  /**
   Once a machine carries an allocation, no interleaving changes it except a release that names this
   very allocation, or the deletion of the machine.
   */
  lemma {:induction false} AllocationLastsUntilItsRelease(actions: seq<Action>, i: nat, id: string, uuid: string)
    requires i <= |actions|
    requires id in Run(actions[..i]).db.rows && Run(actions[..i]).db.rows[id].payload.allocation == Some(uuid)
    requires forall k :: i <= k < |actions| ==> !ReleasedAt(actions, k, id, uuid) && !DeletedAt(actions, k, id)
    ensures id in Run(actions).db.rows && Run(actions).db.rows[id].payload.allocation == Some(uuid)
  {
    if i == |actions| {
      assert actions[..i] == actions;
    } else {
      var front, a := actions[..|actions| - 1], actions[|actions| - 1];
      assert front[..i] == actions[..i];
      forall k | i <= k < |front| ensures !ReleasedAt(front, k, id, uuid) && !DeletedAt(front, k, id) {
        assert front[..k] == actions[..k] && front[k] == actions[k];
        assert !ReleasedAt(actions, k, id, uuid) && !DeletedAt(actions, k, id);
      }
      AllocationLastsUntilItsRelease(front, i, id, uuid);
      EveryActionIsAnAllocationStep(front, a, id);
      assert !ReleasedAt(actions, |front|, id, uuid) && !DeletedAt(actions, |front|, id);
    }
  }

  /** How many updates of the machine succeeded from position i on. */
  ghost function UpdatesSince(actions: seq<Action>, i: nat, id: string): nat
    requires i <= |actions|
  {
    if i == |actions| then 0
    else
      var front, a := actions[..|actions| - 1], actions[|actions| - 1];
      UpdatesSince(front, i, id) +
      if a.Write? && Succeeds(Run(front), a.client) && Run(front).held[a.client].id == id then 1 else 0
  }

  /** The versions of a machine form one chain: its generation counts the successful updates. */
  lemma {:induction false} GenerationCountsUpdates(actions: seq<Action>, i: nat, id: string)
    requires i <= |actions| && id in Run(actions[..i]).db.rows
    requires forall k :: i <= k < |actions| ==> !DeletedAt(actions, k, id)
    ensures id in Run(actions).db.rows
    ensures Run(actions).db.rows[id].generation ==
            Run(actions[..i]).db.rows[id].generation + UpdatesSince(actions, i, id)
  {
    if i == |actions| {
      assert actions[..i] == actions;
    } else {
      var front, a := actions[..|actions| - 1], actions[|actions| - 1];
      assert front[..i] == actions[..i];
      assert forall k :: i <= k < |front| ==> DeletedAt(front, k, id) == DeletedAt(actions, k, id);
      GenerationCountsUpdates(front, i, id);
      assert !DeletedAt(actions, |front|, id);
      RunKeepsInv(front);
      GenerationStep(Run(front), LogOf(front), a, id);
    }
  }

  lemma GenerationStep(s: State, log: map<int, (string, Entity<Machine>)>, a: Action, id: string)
    requires Inv(s, log) && id in s.db.rows && a != DeleteMachine(id)
    ensures id in Next(s, a).db.rows
    ensures Next(s, a).db.rows[id].generation ==
            s.db.rows[id].generation + if a.Write? && Succeeds(s, a.client) && s.held[a.client].id == id then 1 else 0
  {
  }

  // ---------- no version is won twice ----------

  /** The version that the successful update at position k replaced. */
  ghost predicate WonAt(actions: seq<Action>, k: nat, id: string, version: Entity<Machine>)
    requires k < |actions|
  {
    var s := Run(actions[..k]);
    && actions[k].Write?
    && Succeeds(s, actions[k].client)
    && s.held[actions[k].client].id == id
    && s.held[actions[k].client].basis == version
  }

  lemma RowAfterNext(s: State, a: Action, id: string)
    requires id in Next(s, a).db.rows
    ensures var row := Next(s, a).db.rows[id];
            (id in s.db.rows && row == s.db.rows[id]) || (row.changed.Some? && row.changed.value > s.db.clock)
  {
  }

  /** A row is either as old as it was, or was written after that moment. */
  lemma {:induction false} RowsOnlyGetNewer(actions: seq<Action>, i: nat, id: string)
    requires i <= |actions| && id in Run(actions).db.rows
    ensures Run(actions[..i]).db.clock <= Run(actions).db.clock
    ensures var row, past := Run(actions).db.rows[id], Run(actions[..i]).db;
            || (id in past.rows && row == past.rows[id])
            || (row.changed.Some? && row.changed.value > past.clock)
    decreases |actions|
  {
    if i == |actions| {
      assert actions[..i] == actions;
    } else {
      var front, a := actions[..|actions| - 1], actions[|actions| - 1];
      assert front[..i] == actions[..i];
      ClockNeverGoesBack(front, i);
      RowAfterNext(Run(front), a, id);
      if id in Run(front).db.rows {
        RowsOnlyGetNewer(front, i, id);
      }
    }
  }

  lemma {:induction false} ClockNeverGoesBack(actions: seq<Action>, i: nat)
    requires i <= |actions|
    ensures Run(actions[..i]).db.clock <= Run(actions).db.clock
  {
    if i == |actions| {
      assert actions[..i] == actions;
    } else {
      assert actions[..|actions| - 1][..i] == actions[..i];
      ClockNeverGoesBack(actions[..|actions| - 1], i);
    }
  }

  /**
   Two successful updates never replace the same version: of two candidate searches, or of two
   allocations, that picked the same version of a machine at most one succeeds.
   */
  lemma VersionIsWonOnce(actions: seq<Action>, j: nat, k: nat, id: string, version: Entity<Machine>)
    requires j < |actions| && k < |actions|
    requires WonAt(actions, j, id, version) && WonAt(actions, k, id, version)
    ensures j == k
  {
    if j < k {
      WonTwice(actions, j, k, id, version);
    } else if k < j {
      WonTwice(actions, k, j, id, version);
    }
  }

  lemma WonTwice(actions: seq<Action>, j: nat, k: nat, id: string, version: Entity<Machine>)
    requires j < k < |actions|
    requires WonAt(actions, j, id, version)
    ensures !WonAt(actions, k, id, version)
  {
    var before, later := actions[..j], actions[..k];
    if WonAt(actions, k, id, version) {
      RunKeepsInv(before);
      RunKeepsInv(later);
      assert actions[..j + 1] == before + [actions[j]];
      UpdateReplacesItsBasis(before, actions[j].client);
      UpdateReplacesItsBasis(later, actions[k].client);
      assert later[..j + 1] == actions[..j + 1];
      RowsOnlyGetNewer(later, j + 1, id);
      assert false;
    }
  }

  ghost predicate WroteAt(actions: seq<Action>, k: nat, id: string, intent: Intent)
    requires k < |actions|
  {
    var s := Run(actions[..k]);
    && actions[k].Write?
    && Succeeds(s, actions[k].client)
    && s.held[actions[k].client].id == id
    && s.held[actions[k].client].intent == Some(intent)
  }

  /** The machine is handed out or given back, or it is deleted. */
  ghost predicate EndsPreAllocation(actions: seq<Action>, k: nat, id: string)
    requires k < |actions|
  {
    || DeletedAt(actions, k, id)
    || exists uuid :: WroteAt(actions, k, id, Allocate(uuid)) || WroteAt(actions, k, id, Release(uuid))
  }

  lemma PreAllocatedAfterNext(actions: seq<Action>, a: Action, id: string)
    requires id in Run(actions).db.rows && Run(actions).db.rows[id].payload.preAllocated
    requires !EndsPreAllocation(actions + [a], |actions|, id)
    ensures id in Next(Run(actions), a).db.rows && Next(Run(actions), a).db.rows[id].payload.preAllocated
  {
    var s := Run(actions);
    assert (actions + [a])[..|actions|] == actions && (actions + [a])[|actions|] == a;
    if a.Write? && Succeeds(s, a.client) && s.held[a.client].id == id {
      UpdateReplacesItsBasis(actions, a.client);
    }
  }

  lemma {:induction false} PreAllocationLasts(actions: seq<Action>, i: nat, id: string)
    requires i <= |actions| && id in Run(actions[..i]).db.rows && Run(actions[..i]).db.rows[id].payload.preAllocated
    requires forall k :: i <= k < |actions| ==> !EndsPreAllocation(actions, k, id)
    ensures id in Run(actions).db.rows && Run(actions).db.rows[id].payload.preAllocated
    decreases |actions|
  {
    if i == |actions| {
      assert actions[..i] == actions;
    } else {
      var front, a := actions[..|actions| - 1], actions[|actions| - 1];
      assert front[..i] == actions[..i] && front + [a] == actions;
      forall k | i <= k < |front| ensures !EndsPreAllocation(front, k, id) {
        assert front[..k] == actions[..k] && front[k] == actions[k];
        assert !EndsPreAllocation(actions, k, id);
        assert forall intent :: WroteAt(front, k, id, intent) <==> WroteAt(actions, k, id, intent);
      }
      PreAllocationLasts(front, i, id);
      PreAllocatedAfterNext(front, a, id);
    }
  }

  /**
   Two candidate searches never win the same machine: between them it was handed out or given back,
   or deleted - whatever became of the mutex.
   */
  lemma SearchesWinApart(actions: seq<Action>, j: nat, k: nat, id: string)
    requires j < k < |actions|
    ensures WroteAt(actions, j, id, PreAllocate) && WroteAt(actions, k, id, PreAllocate) ==>
              exists l | j < l < k :: EndsPreAllocation(actions, l, id)
  {
    var before, later := actions[..j], actions[..k];
    if WroteAt(actions, j, id, PreAllocate) && WroteAt(actions, k, id, PreAllocate)
       && forall l | j < l < k :: !EndsPreAllocation(actions, l, id) {
      assert actions[..j + 1] == before + [actions[j]];
      UpdateReplacesItsBasis(before, actions[j].client);
      UpdateReplacesItsBasis(later, actions[k].client);
      assert later[..j + 1] == actions[..j + 1];
      hide Run;
      forall l | j + 1 <= l < |later| ensures !EndsPreAllocation(later, l, id) {
        assert later[..l] == actions[..l] && later[l] == actions[l];
        assert !EndsPreAllocation(actions, l, id);
        assert forall intent :: WroteAt(later, l, id, intent) <==> WroteAt(actions, l, id, intent);
      }
      PreAllocationLasts(later, j + 1, id);
      assert false;
    }
  }

  // ---------- one server on its own ----------

  datatype Refusal = Unavailable | Storage(error: StorageError)

  /** Fetch, check, edit and write without anything in between. */
  function Performed(db: Db<Machine>, id: string, intent: Intent): (Db<Machine>, Option<Refusal>) {
    if id !in db.rows then (db, Some(Refusal.Storage(NotFound)))
    else if !Allowed(intent, db.rows[id].payload) then (db, Some(Unavailable))
    else
      var (after, error) := Updated(db, id, db.rows[id].(payload := Written(intent, db.rows[id].payload)));
      (after, if error.Some? then Some(Refusal.Storage(error.value)) else None)
  }

  /** The common shape of allocateMachine's tail, releaseAllocationTask and setMachineWaitingFlag. */
  method Perform(table: Table<Machine>, id: string, intent: Intent) returns (refusal: Option<Refusal>)
    modifies table
    ensures (table.Value(), refusal) == Performed(old(table.Value()), id, intent)
  {
    var r := table.Get(id);
    if r.Err? {
      return Some(Refusal.Storage(r.error));
    }
    var machine := r.value;
    if !Allowed(intent, machine.payload) {
      return Some(Unavailable);
    }
    machine.payload := Written(intent, machine.payload);
    var error := table.Update(machine);
    refusal := if error.Some? then Some(Refusal.Storage(error.value)) else None;
  }

  /** Undisturbed, the three actions of a client do exactly that, and they succeed. */
  lemma UndisturbedClientPerforms(actions: seq<Action>, client: nat, id: string, intent: Intent)
    ensures var s := Run(actions);
            id in s.db.rows && Allowed(intent, s.db.rows[id].payload) ==>
              && Performed(s.db, id, intent).1 == None
              && Next(Next(Next(s, Fetch(client, id)), Decide(client, intent)), Write(client)).db ==
                 Performed(s.db, id, intent).0
  {
    RunKeepsInv(actions);
  }
}
