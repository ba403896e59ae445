/**
 The capacity report of partitions: machines are counted per partition and size, then reservations of
 other projects reduce what is reported as free.
 Whether a machine has issues is a parameter, and the request is present.
 */
module Capacity {
  import opened Wrappers
  import opened Reservations

  const UNKNOWN_SIZE := "unknown"

  datatype Machine = Machine(id: string, size: string, partition: string, project: Option<string>,
                             waiting: bool, preAllocated: bool, available: bool)

  datatype LastEvent = PhonedHome | Waiting | OtherEvent

  datatype Events = Events(alive: bool, last: LastEvent)

  datatype Fleet = Fleet(machines: seq<Machine>, containers: map<string, Events>, partitions: set<string>,
                         sizes: set<string>, faulty: set<string>)

  datatype Key = Key(partition: string, size: string)

  datatype Counts = Counts(total: int, faulty: int, inUse: int, allocatable: int, free: int, unavailable: int,
                           phonedHome: int, waiting: int, other: int, reservations: int, used: int, remaining: int)

  const ZERO := Counts(0, 0, 0, 0, 0, 0, 0, 0, 0, 0, 0, 0)

  /** What a machine can be counted as. */
  datatype Figure = Total | Faulty | InUse | Free | Unavailable | Last(event: LastEvent)

  predicate Considered(f: Fleet, m: Machine) {
    m.id in f.containers && m.partition in f.partitions
  }

  function KeyOf(f: Fleet, m: Machine): Key {
    Key(m.partition, if m.size in f.sizes then m.size else UNKNOWN_SIZE)
  }

  predicate Allocatable(f: Fleet, m: Machine) {
    m.project.None? && m.waiting && !m.preAllocated && m.available && m.id in f.containers && f.containers[m.id].alive
  }

  function LastOf(f: Fleet, m: Machine): LastEvent {
    if m.id in f.containers then f.containers[m.id].last else OtherEvent
  }

  predicate CountsAs(f: Fleet, m: Machine, figure: Figure) {
    match figure
    case Total => true
    case Faulty => m.id in f.faulty
    case InUse => m.project.Some?
    case Free => Allocatable(f, m)
    case Unavailable => m.project.None? && !Allocatable(f, m)
    case Last(event) => LastOf(f, m) == event
  }

  /** How many considered machines of a key count as the figure. */
  function Count(f: Fleet, ms: seq<Machine>, k: Key, figure: Figure): nat {
    if ms == [] then 0
    else
      var m := ms[|ms| - 1];
      Count(f, ms[..|ms| - 1], k, figure) +
      if Considered(f, m) && KeyOf(f, m) == k && CountsAs(f, m, figure) then 1 else 0
  }

  /** What the first loop counts, every figure on its own. */
  ghost predicate Tallied(f: Fleet, ms: seq<Machine>, k: Key, c: Counts) {
    c == Counts(Count(f, ms, k, Total), Count(f, ms, k, Faulty), Count(f, ms, k, InUse), Count(f, ms, k, Free),
                Count(f, ms, k, Free), Count(f, ms, k, Unavailable), Count(f, ms, k, Last(PhonedHome)),
                Count(f, ms, k, Last(Waiting)), Count(f, ms, k, Last(OtherEvent)), 0, 0, 0)
  }

  type Report = map<Key, Counts>

  function At(r: Report, k: Key): Counts {
    if k in r then r[k] else ZERO
  }

  function One(b: bool): int {
    if b then 1 else 0
  }

  function CountedOneMore(f: Fleet, m: Machine, c: Counts): Counts {
    Counts(c.total + 1, c.faulty + One(CountsAs(f, m, Faulty)), c.inUse + One(CountsAs(f, m, InUse)),
           c.allocatable + One(CountsAs(f, m, Free)), c.free + One(CountsAs(f, m, Free)),
           c.unavailable + One(CountsAs(f, m, Unavailable)), c.phonedHome + One(CountsAs(f, m, Last(PhonedHome))),
           c.waiting + One(CountsAs(f, m, Last(Waiting))), c.other + One(CountsAs(f, m, Last(OtherEvent))),
           c.reservations, c.used, c.remaining)
  }

  method CountMachine(f: Fleet, m: Machine, before: Report) returns (r: Report)
    requires Considered(f, m)
    ensures r == before[KeyOf(f, m) := CountedOneMore(f, m, At(before, KeyOf(f, m)))]
  {
    var e, key := f.containers[m.id], KeyOf(f, m);
    var cap := At(before, key);
    cap := cap.(total := cap.total + 1);
    if m.id in f.faulty {
      cap := cap.(faulty := cap.faulty + 1);
    }
    if m.project.Some? {
      cap := cap.(inUse := cap.inUse + 1);
    } else if m.waiting && !m.preAllocated && m.available && e.alive {
      cap := cap.(allocatable := cap.allocatable + 1, free := cap.free + 1);
    } else {
      cap := cap.(unavailable := cap.unavailable + 1);
    }
    match e.last {
      case PhonedHome => cap := cap.(phonedHome := cap.phonedHome + 1);
      case Waiting => cap := cap.(waiting := cap.waiting + 1);
      case OtherEvent => cap := cap.(other := cap.other + 1);
    }
    r := before[key := cap];
  }

  ghost predicate IsTally(f: Fleet, ms: seq<Machine>, r: Report) {
    r.Keys == KeysOf(f, ms) && forall k :: Tallied(f, ms, k, At(r, k))
  }

  method CountMachines(f: Fleet) returns (r: Report)
    ensures IsTally(f, f.machines, r)
  {
    r := map[];
    for i := 0 to |f.machines|
      invariant IsTally(f, f.machines[..i], r)
    {
      var m := f.machines[i];
      assert f.machines[..i + 1] == f.machines[..i] + [m];
      IsTallyOneMore(f, f.machines[..i], m, r);
      if Considered(f, m) {
        r := CountMachine(f, m, r);
      }
    }
    assert f.machines[..|f.machines|] == f.machines;
  }

  lemma IsTallyOneMore(f: Fleet, ms: seq<Machine>, m: Machine, r: Report)
    requires IsTally(f, ms, r)
    ensures IsTally(f, ms + [m],
                    if Considered(f, m) then r[KeyOf(f, m) := CountedOneMore(f, m, At(r, KeyOf(f, m)))] else r)
  {
    var after := if Considered(f, m) then r[KeyOf(f, m) := CountedOneMore(f, m, At(r, KeyOf(f, m)))] else r;
    KeysOneMore(f, ms, m);
    forall k ensures Tallied(f, ms + [m], k, At(after, k)) {
      assert Tallied(f, ms, k, At(r, k));
      TallyOneMore(f, ms, m, k, At(r, k));
      hide Tallied, CountedOneMore, KeyOf, Considered, KeysOf;
    }
  }

  /** The lines of the report: a key per partition and known size, one for all unknown sizes. */
  function KeysOf(f: Fleet, ms: seq<Machine>): set<Key> {
    set m | m in ms && Considered(f, m) :: KeyOf(f, m)
  }

  lemma KeysOneMore(f: Fleet, ms: seq<Machine>, m: Machine)
    ensures KeysOf(f, ms + [m]) == KeysOf(f, ms) + if Considered(f, m) then {KeyOf(f, m)} else {}
  {
    hide KeyOf, Considered;
  }

  lemma TallyOneMore(f: Fleet, ms: seq<Machine>, m: Machine, k: Key, c: Counts)
    requires Tallied(f, ms, k, c)
    ensures Tallied(f, ms + [m], k, if Considered(f, m) && KeyOf(f, m) == k then CountedOneMore(f, m, c) else c)
  {
    assert (ms + [m])[..|ms|] == ms;
    hide CountsAs, Considered;
  }

  // ---------- reservations ----------

  function UsedBy(ms: seq<Machine>, project: string, k: Key): seq<string> {
    if ms == [] then []
    else
      var m := ms[|ms| - 1];
      UsedBy(ms[..|ms| - 1], project, k)
      + if m.project == Some(project) && m.size == k.size && m.partition == k.partition then [m.id] else []
  }

  /** SizeReservationsBySize and SizeReservationsForPartition, one after the other. */
  function Applicable(rs: seq<Reservation>, k: Key): seq<Reservation> {
    if rs == [] then []
    else
      var r := rs[|rs| - 1];
      Applicable(rs[..|rs| - 1], k) + if r.size == k.size && k.partition in r.partitions then [r] else []
  }

  function UsedOf(ms: seq<Machine>, r: Reservation, k: Key): int {
    Min(|UsedBy(ms, r.project, k)|, r.amount)
  }

  function Min(a: int, b: int): int {
    if a <= b then a else b
  }

  predicate Own(project: Option<string>, r: Reservation) {
    project == Some(r.project)
  }

  function Reserved(rs: seq<Reservation>): int {
    if rs == [] then 0 else Reserved(rs[..|rs| - 1]) + rs[|rs| - 1].amount
  }

  function Used(ms: seq<Machine>, rs: seq<Reservation>, k: Key): int {
    if rs == [] then 0 else Used(ms, rs[..|rs| - 1], k) + UsedOf(ms, rs[|rs| - 1], k)
  }

  /** What other projects have reserved and not used. */
  function Others(ms: seq<Machine>, rs: seq<Reservation>, k: Key, project: Option<string>): nat {
    if rs == [] then 0
    else
      var r := rs[|rs| - 1];
      Others(ms, rs[..|rs| - 1], k, project) + if Own(project, r) then 0 else r.amount - UsedOf(ms, r, k)
  }

  method ReserveKey(f: Fleet, rs: seq<Reservation>, k: Key, project: Option<string>, counted: Counts)
    returns (c: Counts)
    requires counted.free >= 0 && counted.reservations == counted.used == 0
    ensures c == counted.(
                   reservations := Reserved(Applicable(rs, k)),
                   used := Used(f.machines, Applicable(rs, k), k),
                   free := Max(counted.free - Others(f.machines, Applicable(rs, k), k, project), 0))
  {
    c := counted;
    var list := Applicable(rs, k);
    for i := 0 to |list|
      invariant c == counted.(
                  reservations := Reserved(list[..i]),
                  used := Used(f.machines, list[..i], k),
                  free := Max(counted.free - Others(f.machines, list[..i], k, project), 0))
    {
      assert list[..i + 1][..i] == list[..i];
      var usedReservations := UsedOf(f.machines, list[i], k);
      c := c.(reservations := c.reservations + list[i].amount, used := c.used + usedReservations);
      if !Own(project, list[i]) {
        c := c.(free := Max(c.free - (list[i].amount - usedReservations), 0));
      }
    }
    assert list[..|list|] == list;
  }

  /** The report for one key: the counts, reduced by the reservations if the size is known. */
  ghost predicate Reported(f: Fleet, rs: seq<Reservation>, project: Option<string>, k: Key, c: Counts) {
    exists counted :: Tallied(f, f.machines, k, counted) &&
      var applied := if k.size in f.sizes then Applicable(rs, k) else [];
      c == counted.(
             reservations := Reserved(applied),
             used := Used(f.machines, applied, k),
             remaining := Reserved(applied) - Used(f.machines, applied, k),
             free := Max(counted.allocatable - Others(f.machines, applied, k, project), 0))
  }

  method FinishKey(f: Fleet, rs: seq<Reservation>, project: Option<string>, k: Key, counted: Counts) returns (c: Counts)
    requires Tallied(f, f.machines, k, counted)
    ensures Reported(f, rs, project, k, c)
  {
    c := counted;
    if k.size in f.sizes {
      c := ReserveKey(f, rs, k, project, counted);
    }
    c := c.(remaining := c.reservations - c.used);
    assert Tallied(f, f.machines, k, counted);
  }

  method Capacity(f: Fleet, rs: seq<Reservation>, project: Option<string>) returns (r: Report)
    ensures r.Keys == KeysOf(f, f.machines)
    ensures forall k | k in r :: Reported(f, rs, project, k, r[k])
  {
    r := CountMachines(f);
    assert r.Keys == KeysOf(f, f.machines) && forall k | k in r :: Tallied(f, f.machines, k, At(r, k));
    hide KeysOf, Tallied, Reported;
    var todo := r.Keys;
    while todo != {}
      invariant todo <= r.Keys == KeysOf(f, f.machines)
      invariant forall k | k in todo :: Tallied(f, f.machines, k, r[k])
      invariant forall k | k in r && k !in todo :: Reported(f, rs, project, k, r[k])
      decreases todo
    {
      var k :| k in todo;
      var c := FinishKey(f, rs, project, k, r[k]);
      r := r[k := c];
      todo := todo - {k};
    }
  }

  // ---------- what the figures satisfy ----------

  lemma {:induction false} CountsSplit(f: Fleet, ms: seq<Machine>, k: Key)
    ensures Count(f, ms, k, Total) == Count(f, ms, k, InUse) + Count(f, ms, k, Free) + Count(f, ms, k, Unavailable)
    ensures Count(f, ms, k, Total) ==
            Count(f, ms, k, Last(PhonedHome)) + Count(f, ms, k, Last(Waiting)) + Count(f, ms, k, Last(OtherEvent))
  {
    if ms != [] {
      CountsSplit(f, ms[..|ms| - 1], k);
    }
  }

  lemma {:induction false} UsedWithinReserved(ms: seq<Machine>, rs: seq<Reservation>, k: Key)
    ensures Used(ms, rs, k) <= Reserved(rs)
  {
    if rs != [] {
      UsedWithinReserved(ms, rs[..|rs| - 1], k);
    }
  }

  /** Every line of a report adds up, and its free machines are what other projects leave over. */
  lemma ReportAddsUp(f: Fleet, rs: seq<Reservation>, project: Option<string>, k: Key, c: Counts)
    requires Reported(f, rs, project, k, c)
    ensures c.total == c.inUse + c.allocatable + c.unavailable == c.phonedHome + c.waiting + c.other
    ensures c.used <= c.reservations && c.remaining == c.reservations - c.used
    ensures 0 <= c.free <= c.allocatable
    ensures k.size in f.sizes ==> c.free == Max(c.allocatable - Others(f.machines, Applicable(rs, k), k, project), 0)
    ensures k.size !in f.sizes ==> c.free == c.allocatable && c.reservations == 0
  {
    CountsSplit(f, f.machines, k);
    UsedWithinReserved(f.machines, Applicable(rs, k), k);
  }

  lemma SameTally(f: Fleet, ms: seq<Machine>, k: Key, c: Counts, d: Counts)
    requires Tallied(f, ms, k, c) && Tallied(f, ms, k, d)
    ensures c == d
  {
  }

  /** What a further machine adds to the line of its partition and size; other lines stay. */
  lemma OneMachineMore(f: Fleet, ms: seq<Machine>, m: Machine, k: Key, c: Counts, d: Counts)
    ensures Tallied(f, ms, k, c) && Tallied(f, ms + [m], k, d) ==>
              if m.id in f.containers && m.partition in f.partitions && k.partition == m.partition
                 && k.size == (if m.size in f.sizes then m.size else "unknown")
              then
                var e := f.containers[m.id];
                var free := m.project.None? && m.waiting && !m.preAllocated && m.available && e.alive;
                && d.total == c.total + 1
                && d.faulty == c.faulty + One(m.id in f.faulty)
                && d.inUse == c.inUse + One(m.project.Some?)
                && d.allocatable == c.allocatable + One(free) && d.free == c.free + One(free)
                && d.unavailable == c.unavailable + One(m.project.None? && !free)
                && d.phonedHome == c.phonedHome + One(e.last.PhonedHome?)
                && d.waiting == c.waiting + One(e.last.Waiting?)
                && d.other == c.other + One(e.last.OtherEvent?)
              else d == c
  {
    hide Tallied;
    if Tallied(f, ms, k, c) && Tallied(f, ms + [m], k, d) {
      TallyOneMore(f, ms, m, k, c);
      SameTally(f, ms + [m], k, d, if Considered(f, m) && KeyOf(f, m) == k then CountedOneMore(f, m, c) else c);
    }
  }

  // ---------- what reservations do to the free machines ----------

  function UsePositions(ms: seq<Machine>, project: string, k: Key): set<int> {
    set i | 0 <= i < |ms| && ms[i].project == Some(project) && ms[i].size == k.size && ms[i].partition == k.partition
  }

  lemma {:induction false} UsedByArePositions(ms: seq<Machine>, project: string, k: Key)
    ensures |UsedBy(ms, project, k)| == |UsePositions(ms, project, k)|
  {
    if ms != [] {
      var n := |ms| - 1;
      UsedByArePositions(ms[..n], project, k);
      assert UsePositions(ms, project, k) == UsePositions(ms[..n], project, k) +
             if ms[n].project == Some(project) && ms[n].size == k.size && ms[n].partition == k.partition
             then {n} else {};
    }
  }

  /** A report leaves no choice: all figures of a line are determined. */
  lemma ReportedFigures(f: Fleet, rs: seq<Reservation>, project: Option<string>, k: Key, c: Counts)
    requires Reported(f, rs, project, k, c)
    ensures var applied := if k.size in f.sizes then Applicable(rs, k) else [];
            var ms := f.machines;
            && Tallied(f, ms, k, c.(reservations := 0, used := 0, remaining := 0, free := c.allocatable))
            && c.reservations == Reserved(applied) && c.used == Used(ms, applied, k)
            && c.remaining == c.reservations - c.used
            && c.free == Max(c.allocatable - Others(ms, applied, k, project), 0)
  {
    hide Count;
  }

  lemma SameCounts(f: Fleet, k: Key, rs: seq<Reservation>, project: Option<string>, c: Counts,
                   rs': seq<Reservation>, project': Option<string>, d: Counts)
    requires Reported(f, rs, project, k, c) && Reported(f, rs', project', k, d)
    ensures d == c.(reservations := d.reservations, used := d.used, remaining := d.remaining, free := d.free)
  {
    ReportedFigures(f, rs, project, k, c);
    ReportedFigures(f, rs', project', k, d);
    hide Reported, Tallied;
    SameTally(f, f.machines, k, c.(reservations := 0, used := 0, remaining := 0, free := c.allocatable),
              d.(reservations := 0, used := 0, remaining := 0, free := d.allocatable));
  }

  /**
   A further reservation, last in the list, is used by as many machines of its project as it holds, and takes
   what it leaves unused from the free machines of all other projects, as far as there are any.
   */
  lemma OneReservationMore(f: Fleet, rs: seq<Reservation>, r: Reservation, project: Option<string>, k: Key,
                           c: Counts, d: Counts)
    ensures Reported(f, rs, project, k, c) && Reported(f, rs + [r], project, k, d) ==>
              if k.size in f.sizes && r.size == k.size && k.partition in r.partitions
              then
                var used := Min(|UsePositions(f.machines, r.project, k)|, r.amount);
                && d.reservations == c.reservations + r.amount
                && d.used == c.used + used
                && d.remaining == c.remaining + r.amount - used
                && d.free == if project == Some(r.project) then c.free else Max(c.free - (r.amount - used), 0)
              else d == c
  {
    hide Reported, Tallied, UsedBy, UsePositions, Applicable, Others, Used, Reserved;
    if Reported(f, rs, project, k, c) && Reported(f, rs + [r], project, k, d) {
      var before := Applicable(rs, k);
      ApplicableOneMore(rs, r, k);
      SumsOneMore(f.machines, before, r, k);
      OthersOneMore(f.machines, before, r, k, project);
      UsedByArePositions(f.machines, r.project, k);
      ReportedFigures(f, rs, project, k, c);
      ReportedFigures(f, rs + [r], project, k, d);
      SameCounts(f, k, rs, project, c, rs + [r], project, d);
    }
  }

  function WithoutOwn(rs: seq<Reservation>, project: string): seq<Reservation> {
    if rs == [] then []
    else
      var rest := WithoutOwn(rs[..|rs| - 1], project);
      if rs[|rs| - 1].project == project then rest else rest + [rs[|rs| - 1]]
  }

  lemma OnlyOthersStep(ms: seq<Machine>, rs: seq<Reservation>, kept: seq<Reservation>, r: Reservation, k: Key,
                       project: string, viewer: Option<string>)
    requires viewer.None? || viewer == Some(project)
    requires Others(ms, Applicable(kept, k), k, viewer) == Others(ms, Applicable(rs, k), k, Some(project))
    ensures Others(ms, Applicable(if r.project == project then kept else kept + [r], k), k, viewer) ==
            Others(ms, Applicable(rs + [r], k), k, Some(project))
  {
    hide UsedOf, Others, Applicable;
    ApplicableOneMore(kept, r, k);
    ApplicableOneMore(rs, r, k);
    OthersOneMore(ms, Applicable(kept, k), r, k, viewer);
    OthersOneMore(ms, Applicable(rs, k), r, k, Some(project));
  }

  lemma {:induction false} OnlyOthersCount(ms: seq<Machine>, rs: seq<Reservation>, k: Key, project: string,
                                           viewer: Option<string>)
    requires viewer.None? || viewer == Some(project)
    ensures Others(ms, Applicable(WithoutOwn(rs, project), k), k, viewer) ==
            Others(ms, Applicable(rs, k), k, Some(project))
  {
    hide Others, Applicable;
    if rs == [] {
      NothingReserved(ms, k, viewer);
      NothingReserved(ms, k, Some(project));
    } else {
      var front, r := rs[..|rs| - 1], rs[|rs| - 1];
      OnlyOthersCount(ms, front, k, project, viewer);
      OnlyOthersStep(ms, front, WithoutOwn(front, project), r, k, project, viewer);
      assert rs == front + [r];
    }
  }

  lemma ApplicableOneMore(rs: seq<Reservation>, r: Reservation, k: Key)
    ensures Applicable(rs + [r], k) ==
            if r.size == k.size && k.partition in r.partitions then Applicable(rs, k) + [r] else Applicable(rs, k)
  {
    assert (rs + [r])[..|rs|] == rs;
  }

  lemma SumsOneMore(ms: seq<Machine>, rs: seq<Reservation>, r: Reservation, k: Key)
    ensures Reserved(rs + [r]) == Reserved(rs) + r.amount && Used(ms, rs + [r], k) == Used(ms, rs, k) + UsedOf(ms, r, k)
  {
    assert (rs + [r])[..|rs|] == rs;
  }

  lemma OthersOneMore(ms: seq<Machine>, rs: seq<Reservation>, r: Reservation, k: Key, project: Option<string>)
    ensures Others(ms, rs + [r], k, project) ==
            Others(ms, rs, k, project) + if Own(project, r) then 0 else r.amount - UsedOf(ms, r, k)
  {
    assert (rs + [r])[..|rs|] == rs;
  }

  lemma NothingReserved(ms: seq<Machine>, k: Key, viewer: Option<string>)
    ensures Applicable([], k) == [] && Others(ms, [], k, viewer) == 0
  {
  }

  /**
   The reservations of a project, used or not, never reduce its free machines: it sees as many as it would
   without them, which is what everyone would see if they did not exist.
   */
  lemma OwnReservationsLeaveFreeAlone(f: Fleet, rs: seq<Reservation>, project: string, viewer: Option<string>, k: Key,
                                      c: Counts, d: Counts)
    ensures (viewer.None? || viewer == Some(project))
            && Reported(f, rs, Some(project), k, c) && Reported(f, WithoutOwn(rs, project), viewer, k, d) ==>
              c.free == d.free
  {
    hide Reported, Tallied, Others, Applicable, Used, Reserved, WithoutOwn;
    if (viewer.None? || viewer == Some(project))
       && Reported(f, rs, Some(project), k, c) && Reported(f, WithoutOwn(rs, project), viewer, k, d) {
      ReportedFigures(f, rs, Some(project), k, c);
      ReportedFigures(f, WithoutOwn(rs, project), viewer, k, d);
      SameCounts(f, k, rs, Some(project), c, WithoutOwn(rs, project), viewer, d);
      OnlyOthersCount(f.machines, rs, k, project, viewer);
      NothingReserved(f.machines, k, viewer);
      NothingReserved(f.machines, k, Some(project));
    }
  }

  // ---------- admission and reporting ----------

  /** The allocated machines per project that the reservation check of this partition and size sees. */
  ghost predicate SeenByCheck(f: Fleet, k: Key, byProject: map<string, seq<string>>) {
    forall p :: Allocated(byProject, p) == |UsedBy(f.machines, p, k)|
  }

  lemma OtherStep(f: Fleet, k: Key, byProject: map<string, seq<string>>, project: string, r: Reservation)
    requires SeenByCheck(f, k, byProject) && (r.project == project ==> Allocated(byProject, project) >= r.amount)
    ensures (if Own(Some(project), r) then 0 else r.amount - UsedOf(f.machines, r, k)) ==
            Max(r.amount - Allocated(byProject, r.project), 0)
  {
  }

  /** What others leave unused is the positive slack of all, if the project itself has none left. */
  lemma {:induction false} OthersAreUnused(f: Fleet, k: Key, byProject: map<string, seq<string>>, project: string,
                                           rs: seq<Reservation>)
    requires SeenByCheck(f, k, byProject) && !HasUnused(byProject, project, rs)
    ensures Others(f.machines, rs, k, Some(project)) == Unused(Slack(byProject, rs))
  {
    hide UsedOf, SeenByCheck, Allocated;
    if rs != [] {
      var front, r := rs[..|rs| - 1], rs[|rs| - 1];
      assert rs == front + [r];
      OthersAreUnused(f, k, byProject, project, front);
      assert Slack(byProject, rs)[..|rs| - 1] == Slack(byProject, front);
      assert r in rs;
      OtherStep(f, k, byProject, project, r);
      hide HasUnused;
    }
  }

  /**
   With the allocatable machines as candidates, the reservation check lets a project in if and only if it
   has an unused reservation or the report shows free machines for it - for every number of machines
   exactly when no unused reservation is followed by one that is overdrawn.
   */
  lemma AdmissionAgreesWithReport(f: Fleet, k: Key, byProject: map<string, seq<string>>, project: string,
                                  rs: seq<Reservation>)
    requires SeenByCheck(f, k, byProject) && !HasUnused(byProject, project, rs)
    ensures (forall available: nat ::
               Accepts(available, project, byProject, rs) <==> available - Others(f.machines, rs, k, Some(project)) > 0)
            <==> NothingLost(Slack(byProject, rs))
  {
    var xs := Slack(byProject, rs);
    OthersAreUnused(f, k, byProject, project, rs);
    ClampedVersusUnused(xs);
    if Clamped(xs) < Unused(xs) {
      assert Accepts(Unused(xs), project, byProject, rs);
    }
  }

  /** In particular for every report, as long as nobody is over a reservation. */
  lemma NobodyOverReservation(f: Fleet, rs: seq<Reservation>, k: Key, byProject: map<string, seq<string>>,
                              project: string, c: Counts)
    requires SeenByCheck(f, k, byProject) && Reported(f, rs, Some(project), k, c) && k.size in f.sizes
    requires forall r | r in Applicable(rs, k) :: Allocated(byProject, r.project) <= r.amount
    ensures Accepts(c.allocatable, project, byProject, Applicable(rs, k)) <==>
            HasUnused(byProject, project, Applicable(rs, k)) || c.free > 0
  {
    var list := Applicable(rs, k);
    assert forall i :: 0 <= i < |list| ==> Slack(byProject, list)[i] >= 0;
    if !HasUnused(byProject, project, list) {
      AdmissionAgreesWithReport(f, k, byProject, project, list);
      ReportAddsUp(f, rs, Some(project), k, c);
    }
  }
}
