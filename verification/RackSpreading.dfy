/**
 Spreading the machines of a project across racks: the available machines in the racks that are least
 occupied by equally tagged machines and, among those, least occupied by the project.
 Grouped machines are Go maps, so every traversal takes the keys in an arbitrary order.
 */
module RackSpreading {
  import opened Wrappers
  import opened Ordering

  datatype Machine = Machine(id: string, rack: string, tags: seq<string>)

  type Groups = map<string, seq<Machine>>

  function Racks(ms: seq<Machine>): set<string> {
    set m | m in ms :: m.rack
  }

  /** The machines in one of the racks, in their order. */
  function InRacks(ms: seq<Machine>, racks: set<string>): seq<Machine> {
    if ms == [] then []
    else
      var rest := InRacks(ms[..|ms| - 1], racks);
      if ms[|ms| - 1].rack in racks then rest + [ms[|ms| - 1]] else rest
  }

  function Occupancy(ms: seq<Machine>, rack: string): nat {
    |InRacks(ms, {rack})|
  }

  /** How often the tags of the machines in the rack are among the wanted ones. */
  function TagHits(ms: seq<Machine>, tags: set<string>, rack: string): nat {
    if ms == [] then 0
    else
      var m := ms[|ms| - 1];
      TagHits(ms[..|ms| - 1], tags, rack) + if m.rack == rack then Wanted(m.tags, tags) else 0
  }

  function Wanted(own: seq<string>, tags: set<string>): nat {
    if own == [] then 0 else Wanted(own[..|own| - 1], tags) + if own[|own| - 1] in tags then 1 else 0
  }

  /** The racks of minimal occupancy. */
  function Least(racks: set<string>, occupancy: string -> nat): set<string> {
    set r | r in racks && forall q | q in racks :: occupancy(r) <= occupancy(q)
  }

  function LeastByTags(all: seq<Machine>, project: seq<Machine>, tags: set<string>): set<string> {
    Least(Racks(all), r => TagHits(project, tags, r))
  }

  function LeastByProject(all: seq<Machine>, project: seq<Machine>): set<string> {
    Least(Racks(all), r => Occupancy(project, r))
  }

  /** Tags have precedence over the project. */
  function Chosen(all: seq<Machine>, project: seq<Machine>, tags: set<string>): set<string> {
    var both := LeastByTags(all, project, tags) * LeastByProject(all, project);
    if both != {} then both else LeastByTags(all, project, tags)
  }

  // ---------- grouping ----------

  function ByRack(ms: seq<Machine>): Groups {
    map r | r in Racks(ms) :: InRacks(ms, {r})
  }

  /** One entry per machine and occurrence of the tag. */
  function Tagged(ms: seq<Machine>, tag: string): seq<Machine> {
    if ms == [] then []
    else Tagged(ms[..|ms| - 1], tag) + Copies(ms[|ms| - 1], ms[|ms| - 1].tags, tag)
  }

  function Copies(m: Machine, own: seq<string>, tag: string): seq<Machine> {
    if own == [] then []
    else Copies(m, own[..|own| - 1], tag) + if own[|own| - 1] == tag then [m] else []
  }

  function Group(g: Groups, key: string): seq<Machine> {
    if key in g then g[key] else []
  }

  method GroupByRack(ms: seq<Machine>) returns (g: Groups)
    ensures g == ByRack(ms)
  {
    g := map[];
    for i := 0 to |ms|
      invariant g == ByRack(ms[..i])
    {
      assert ms[..i + 1] == ms[..i] + [ms[i]];
      ByRackOneMore(ms[..i], ms[i]);
      g := g[ms[i].rack := Group(g, ms[i].rack) + [ms[i]]];
    }
    assert ms[..|ms|] == ms;
  }

  lemma ByRackOneMore(ms: seq<Machine>, m: Machine)
    ensures ByRack(ms + [m]) == ByRack(ms)[m.rack := Group(ByRack(ms), m.rack) + [m]]
  {
    var more := ms + [m];
    assert more[..|ms|] == ms;
    NoneInRack(ms, m.rack);
    forall r ensures InRacks(more, {r}) == if r == m.rack then InRacks(ms, {r}) + [m] else InRacks(ms, {r}) {
    }
    assert Racks(more) == Racks(ms) + {m.rack};
  }

  lemma {:induction false} NoneInRack(ms: seq<Machine>, rack: string)
    ensures rack in Racks(ms) <==> InRacks(ms, {rack}) != []
  {
    if ms != [] {
      var front := ms[..|ms| - 1];
      assert ms == front + [ms[|ms| - 1]];
      NoneInRack(front, rack);
      assert Racks(ms) == Racks(front) + {ms[|ms| - 1].rack};
    }
  }

  method GroupByTags(ms: seq<Machine>) returns (g: Groups)
    ensures forall t :: Group(g, t) == Tagged(ms, t)
    ensures forall t | t in g :: g[t] != []
  {
    g := map[];
    for i := 0 to |ms|
      invariant forall t :: Group(g, t) == Tagged(ms[..i], t)
      invariant forall t | t in g :: g[t] != []
    {
      assert ms[..i + 1][..i] == ms[..i];
      g := AddUnderTags(g, ms[i]);
    }
    assert ms[..|ms|] == ms;
  }

  method AddUnderTags(before: Groups, m: Machine) returns (g: Groups)
    requires forall t | t in before :: before[t] != []
    ensures forall t :: Group(g, t) == Group(before, t) + Copies(m, m.tags, t)
    ensures forall t | t in g :: g[t] != []
  {
    g := before;
    for j := 0 to |m.tags|
      invariant forall t :: Group(g, t) == Group(before, t) + Copies(m, m.tags[..j], t)
      invariant forall t | t in g :: g[t] != []
    {
      AddUnderTag(before, g, m, j);
      g := g[m.tags[j] := Group(g, m.tags[j]) + [m]];
    }
    assert m.tags[..|m.tags|] == m.tags;
  }

  lemma AddUnderTag(before: Groups, g: Groups, m: Machine, j: nat)
    requires j < |m.tags| && forall t :: Group(g, t) == Group(before, t) + Copies(m, m.tags[..j], t)
    ensures var h := g[m.tags[j] := Group(g, m.tags[j]) + [m]];
            forall t :: Group(h, t) == Group(before, t) + Copies(m, m.tags[..j + 1], t)
  {
    var h := g[m.tags[j] := Group(g, m.tags[j]) + [m]];
    forall t ensures Group(h, t) == Group(before, t) + Copies(m, m.tags[..j + 1], t) {
      assert Group(g, t) == Group(before, t) + Copies(m, m.tags[..j], t);
      CopiesOneMore(m, j, t);
      Reassociate(Group(before, t), Copies(m, m.tags[..j], t), if m.tags[j] == t then [m] else []);
      hide Copies;
      assert Group(h, t) == if m.tags[j] == t then Group(g, t) + [m] else Group(g, t) + [];
    }
  }

  lemma CopiesOneMore(m: Machine, j: nat, t: string)
    requires j < |m.tags|
    ensures Copies(m, m.tags[..j + 1], t) == Copies(m, m.tags[..j], t) + if m.tags[j] == t then [m] else []
  {
    assert m.tags[..j + 1][..j] == m.tags[..j];
  }

  lemma Reassociate<T>(a: seq<T>, b: seq<T>, c: seq<T>)
    ensures a + b + c == a + (b + c)
  {
  }

  function Filtered(g: Groups, keys: set<string>): Groups {
    map k | k in g && k in keys :: g[k]
  }

  method FilterGroups(g: Groups, keys: seq<string>) returns (r: Groups)
    ensures r == Filtered(g, Elements(keys))
  {
    r := map[];
    for i := 0 to |keys|
      invariant r == Filtered(g, Elements(keys[..i]))
    {
      assert keys[..i + 1] == keys[..i] + [keys[i]];
      if keys[i] in g {
        r := r[keys[i] := g[keys[i]]];
      }
    }
    assert keys[..|keys|] == keys;
  }

  function Flatten(g: Groups, order: seq<string>): seq<Machine> {
    if order == [] then [] else Flatten(g, order[..|order| - 1]) + Group(g, order[|order| - 1])
  }

  method GetMachines(g: Groups) returns (ms: seq<Machine>, ghost order: seq<string>)
    ensures IsOrder(order, g.Keys) && ms == Flatten(g, order)
    ensures exists o: seq<string> :: IsOrder(o, g.Keys) && ms == Flatten(g, o)
  {
    ms, order := [], [];
    var todo := g.Keys;
    while todo != {}
      invariant todo <= g.Keys && IsOrder(order, g.Keys - todo) && ms == Flatten(g, order)
      decreases todo
    {
      var k :| k in todo;
      ms := ms + g[k];
      assert (order + [k])[..|order|] == order;
      order := order + [k];
      todo := todo - {k};
    }
  }

  // ---------- election ----------

  function GroupSize(g: Groups, key: string): nat {
    |Group(g, key)|
  }

  /** The initial minimum, larger than any length, is None. */
  method ElectRacks(allRacks: Groups, occupied: Groups) returns (winners: seq<string>)
    ensures Elements(winners) == Least(allRacks.Keys, r => GroupSize(occupied, r))
    ensures DistinctBy(winners, Identity)
  {
    var occupiedRacks := occupied;
    var todo := allRacks.Keys;
    while todo != {}
      invariant todo <= allRacks.Keys
      invariant occupiedRacks.Keys == occupied.Keys + (allRacks.Keys - todo)
      invariant forall r :: GroupSize(occupiedRacks, r) == GroupSize(occupied, r)
      decreases todo
    {
      var id :| id in todo;
      if id !in occupiedRacks {
        occupiedRacks := occupiedRacks[id := []];
      }
      todo := todo - {id};
    }
    winners := [];
    var min: Option<nat> := None;
    todo := occupiedRacks.Keys;
    while todo != {}
      invariant todo <= occupiedRacks.Keys && DistinctBy(winners, Identity)
      invariant min.None? ==> winners == [] && forall r | r in allRacks :: r in todo
      invariant min.Some? ==> winners != []
      invariant forall r | r in winners :: r in allRacks && r !in todo && min == Some(GroupSize(occupied, r))
      invariant forall r | r in allRacks && r !in todo ::
                  min.Some? && min.value <= GroupSize(occupied, r)
                    && (min.value == GroupSize(occupied, r) ==> r in winners)
      decreases todo
    {
      var id :| id in todo;
      todo := todo - {id};
      if id in allRacks {
        assert GroupSize(occupiedRacks, id) == |occupiedRacks[id]|;
        if min.None? || |occupiedRacks[id]| < min.value {
          min := Some(|occupiedRacks[id]|);
          winners := [id];
        } else if |occupiedRacks[id]| == min.value {
          winners := winners + [id];
        }
      }
    }
    forall r | r in winners ensures r in Least(allRacks.Keys, q => GroupSize(occupied, q)) {
    }
    forall r | r in Least(allRacks.Keys, q => GroupSize(occupied, q)) ensures r in winners {
      assert winners[0] in winners;
    }
  }

  method Intersect(a: seq<string>, b: seq<string>) returns (c: seq<string>)
    ensures Elements(c) == Elements(a) * Elements(b)
  {
    c := [];
    for i := 0 to |a|
      invariant Elements(c) == Elements(a[..i]) * Elements(b)
    {
      assert Elements(a[..i + 1]) == Elements(a[..i]) + {a[i]};
      assert Elements(c + [a[i]]) == Elements(c) + {a[i]};
      if a[i] in b {
        c := c + [a[i]];
      }
    }
    assert a[..|a|] == a;
  }

  // ---------- from groups back to machines ----------

  lemma {:induction false} InRacksAddsUp(ms: seq<Machine>, racks: set<string>, rack: string)
    requires rack !in racks
    ensures multiset(InRacks(ms, racks + {rack})) == multiset(InRacks(ms, racks)) + multiset(InRacks(ms, {rack}))
  {
    if ms != [] {
      InRacksAddsUp(ms[..|ms| - 1], racks, rack);
    }
  }

  /** Whatever the order, flattening a filtered rack grouping gives the machines in those racks. */
  lemma {:induction false} FlattenIsInRacks(ms: seq<Machine>, racks: set<string>, g: Groups, order: seq<string>)
    requires racks <= Racks(ms) && IsOrder(order, racks)
    requires forall r | r in racks :: r in g && g[r] == InRacks(ms, {r})
    ensures multiset(Flatten(g, order)) == multiset(InRacks(ms, racks))
    decreases |order|
  {
    if order == [] {
      assert racks == {};
      NothingInNoRack(ms);
    } else {
      var k, front := order[|order| - 1], order[..|order| - 1];
      assert order == front + [k];
      FlattenIsInRacks(ms, racks - {k}, g, front);
      InRacksAddsUp(ms, racks - {k}, k);
      assert racks - {k} + {k} == racks;
    }
  }

  lemma {:induction false} NothingInNoRack(ms: seq<Machine>)
    ensures InRacks(ms, {}) == []
  {
    if ms != [] {
      NothingInNoRack(ms[..|ms| - 1]);
    }
  }

  lemma {:induction false} OccupancyAppend(a: seq<Machine>, b: seq<Machine>, rack: string)
    ensures Occupancy(a + b, rack) == Occupancy(a, rack) + Occupancy(b, rack)
  {
    if b == [] {
      assert a + b == a;
    } else {
      assert (a + b)[..|a + b| - 1] == a + b[..|b| - 1];
      OccupancyAppend(a, b[..|b| - 1], rack);
    }
  }

  lemma {:induction false} CopiesInRack(m: Machine, own: seq<string>, tag: string, rack: string)
    ensures Occupancy(Copies(m, own, tag), rack) == if m.rack == rack then Wanted(own, {tag}) else 0
  {
    if own != [] {
      CopiesInRack(m, own[..|own| - 1], tag, rack);
      var last := if own[|own| - 1] == tag then [m] else [];
      OccupancyAppend(Copies(m, own[..|own| - 1], tag), last, rack);
      assert [m][..0] == [];
    }
  }

  lemma {:induction false} TaggedInRack(ms: seq<Machine>, tag: string, rack: string)
    ensures Occupancy(Tagged(ms, tag), rack) == TagHits(ms, {tag}, rack)
  {
    if ms != [] {
      var m := ms[|ms| - 1];
      TaggedInRack(ms[..|ms| - 1], tag, rack);
      CopiesInRack(m, m.tags, tag, rack);
      OccupancyAppend(Tagged(ms[..|ms| - 1], tag), Copies(m, m.tags, tag), rack);
    }
  }

  lemma {:induction false} WantedAddsUp(own: seq<string>, tags: set<string>, tag: string)
    requires tag !in tags
    ensures Wanted(own, tags + {tag}) == Wanted(own, tags) + Wanted(own, {tag})
    ensures Wanted(own, {}) == 0
  {
    if own != [] {
      WantedAddsUp(own[..|own| - 1], tags, tag);
    }
  }

  lemma {:induction false} TagHitsAddUp(ms: seq<Machine>, tags: set<string>, tag: string, rack: string)
    requires tag !in tags
    ensures TagHits(ms, tags + {tag}, rack) == TagHits(ms, tags, rack) + TagHits(ms, {tag}, rack)
    ensures TagHits(ms, {}, rack) == 0
  {
    if ms != [] {
      TagHitsAddUp(ms[..|ms| - 1], tags, tag, rack);
      WantedAddsUp(ms[|ms| - 1].tags, tags, tag);
    }
  }

  /** The tagged machines per rack, counted over whatever order of the tags. */
  lemma {:induction false} FlattenTagHits(ms: seq<Machine>, tags: set<string>, g: Groups, order: seq<string>,
                                          rack: string)
    requires IsOrder(order, tags) && forall t | t in tags :: Group(g, t) == Tagged(ms, t)
    ensures Occupancy(Flatten(g, order), rack) == TagHits(ms, tags, rack)
    decreases |order|
  {
    if order == [] {
      assert tags == {};
      TagHitsAddUp(ms, {}, "", rack);
    } else {
      var k, front := order[|order| - 1], order[..|order| - 1];
      assert order == front + [k];
      FlattenTagHits(ms, tags - {k}, g, front, rack);
      TaggedInRack(ms, k, rack);
      TagHitsAddUp(ms, tags - {k}, k, rack);
      assert tags - {k} + {k} == tags;
      OccupancyAppend(Flatten(g, front), Group(g, k), rack);
      hide Occupancy, TagHits, Tagged;
    }
  }

  /** Tags nobody carries do not count. */
  lemma {:induction false} UnusedTagsDoNotCount(ms: seq<Machine>, tags: set<string>, used: set<string>, rack: string)
    requires used <= tags && forall t | t in tags && t !in used :: Tagged(ms, t) == []
    ensures TagHits(ms, tags, rack) == TagHits(ms, used, rack)
    decreases tags
  {
    if used != tags {
      var t :| t in tags && t !in used;
      UnusedTagsDoNotCount(ms, tags - {t}, used, rack);
      TagHitsAddUp(ms, tags - {t}, t, rack);
      TaggedInRack(ms, t, rack);
      assert tags - {t} + {t} == tags;
    }
  }

  /** The positions at which the tags of the machines in the rack name a wanted one. */
  function TagPositions(ms: seq<Machine>, tags: set<string>, rack: string): set<(int, int)> {
    set i, j | 0 <= i < |ms| && 0 <= j < |ms[i].tags| && ms[i].rack == rack && ms[i].tags[j] in tags :: (i, j)
  }

  function OwnPositions(i: int, own: seq<string>, tags: set<string>): set<(int, int)> {
    set j | 0 <= j < |own| && own[j] in tags :: (i, j)
  }

  lemma {:induction false} WantedIsPositions(i: int, own: seq<string>, tags: set<string>)
    ensures |OwnPositions(i, own, tags)| == Wanted(own, tags)
  {
    if own != [] {
      var n := |own| - 1;
      WantedIsPositions(i, own[..n], tags);
      assert OwnPositions(i, own, tags) ==
             OwnPositions(i, own[..n], tags) + if own[n] in tags then {(i, n)} else {};
    }
  }

  lemma PositionsOneMore(ms: seq<Machine>, m: Machine, tags: set<string>, rack: string)
    ensures TagPositions(ms + [m], tags, rack) ==
            TagPositions(ms, tags, rack) + if m.rack == rack then OwnPositions(|ms|, m.tags, tags) else {}
  {
    var own := if m.rack == rack then OwnPositions(|ms|, m.tags, tags) else {};
    forall i, j ensures (i, j) in TagPositions(ms + [m], tags, rack) <==>
        (i, j) in TagPositions(ms, tags, rack) || (i, j) in own
    {
      if 0 <= i < |ms| {
        assert (ms + [m])[i] == ms[i];
      }
    }
  }

  /** A machine counts once for each of its tags that is wanted, equal tags included. */
  lemma {:induction false} TagHitsArePositions(ms: seq<Machine>, tags: set<string>, rack: string)
    ensures TagHits(ms, tags, rack) == |TagPositions(ms, tags, rack)|
  {
    if ms != [] {
      var m, front := ms[|ms| - 1], ms[..|ms| - 1];
      TagHitsArePositions(front, tags, rack);
      WantedIsPositions(|front|, m.tags, tags);
      PositionsOneMore(front, m, tags, rack);
      assert ms == front + [m];
      var own := OwnPositions(|front|, m.tags, tags);
      assert TagPositions(front, tags, rack) !! own;
      hide TagPositions, OwnPositions, Wanted;
    } else {
      assert TagPositions(ms, tags, rack) == {};
    }
  }

  // ---------- which machines are candidates ----------

  /** No rack with an available machine holds fewer machines of the project with one of the tags. */
  predicate FewestTags(all: seq<Machine>, project: seq<Machine>, tags: set<string>, rack: string) {
    forall m | m in all :: TagHits(project, tags, rack) <= TagHits(project, tags, m.rack)
  }

  /** No rack with an available machine holds fewer machines of the project. */
  predicate FewestMachines(all: seq<Machine>, project: seq<Machine>, rack: string) {
    forall m | m in all :: Occupancy(project, rack) <= Occupancy(project, m.rack)
  }

  predicate FewestOfBoth(all: seq<Machine>, project: seq<Machine>, tags: set<string>) {
    exists m | m in all :: FewestTags(all, project, tags, m.rack) && FewestMachines(all, project, m.rack)
  }

  /** The tags decide; the project only among the racks they leave, and only if it has one of its best there. */
  predicate IsCandidate(all: seq<Machine>, project: seq<Machine>, tags: set<string>, m: Machine) {
    && FewestTags(all, project, tags, m.rack)
    && (FewestOfBoth(all, project, tags) ==> FewestMachines(all, project, m.rack))
  }

  lemma {:induction false} InRacksCounts(ms: seq<Machine>, racks: set<string>, m: Machine)
    ensures multiset(InRacks(ms, racks))[m] == if m.rack in racks then multiset(ms)[m] else 0
  {
    if ms != [] {
      InRacksCounts(ms[..|ms| - 1], racks, m);
      assert ms == ms[..|ms| - 1] + [ms[|ms| - 1]];
    }
  }

  lemma LeastIsFewest(all: seq<Machine>, project: seq<Machine>, tags: set<string>, rack: string)
    ensures rack in LeastByTags(all, project, tags) <==> rack in Racks(all) && FewestTags(all, project, tags, rack)
    ensures rack in LeastByProject(all, project) <==> rack in Racks(all) && FewestMachines(all, project, rack)
  {
    hide TagHits, Occupancy;
    assert forall m | m in all :: m.rack in Racks(all);
  }

  /** Exactly these machines are in the chosen racks, each as often as it is available. */
  lemma CandidatesExactly(all: seq<Machine>, project: seq<Machine>, tags: set<string>, m: Machine)
    ensures multiset(InRacks(all, Chosen(all, project, tags)))[m] ==
            if IsCandidate(all, project, tags, m) then multiset(all)[m] else 0
  {
    InRacksCounts(all, Chosen(all, project, tags), m);
    forall r
      ensures r in LeastByTags(all, project, tags) <==> r in Racks(all) && FewestTags(all, project, tags, r)
      ensures r in LeastByProject(all, project) <==> r in Racks(all) && FewestMachines(all, project, r)
    {
      LeastIsFewest(all, project, tags, r);
    }
    hide LeastByTags, LeastByProject, FewestTags, FewestMachines, InRacks;
    assert m in all ==> m.rack in Racks(all);
    var both := LeastByTags(all, project, tags) * LeastByProject(all, project);
    if FewestOfBoth(all, project, tags) {
      var b :| b in all && FewestTags(all, project, tags, b.rack) && FewestMachines(all, project, b.rack);
      assert b.rack in both;
    } else {
      forall r ensures r !in both {
      }
      assert both == {};
    }
  }

  // ---------- the spread ----------

  method TagOccupation(project: seq<Machine>, tags: seq<string>) returns (g: Groups)
    ensures forall r :: GroupSize(g, r) == TagHits(project, Elements(tags), r)
  {
    var byTags := GroupByTags(project);
    var wanted := FilterGroups(byTags, tags);
    var machines, order := GetMachines(wanted);
    g := GroupByRack(machines);
    ghost var tagSet := Elements(tags);
    forall r ensures GroupSize(g, r) == TagHits(project, tagSet, r) {
      FlattenTagHits(project, wanted.Keys, wanted, order, r);
      UnusedTagsDoNotCount(project, tagSet, wanted.Keys, r);
      NoneInRack(machines, r);
    }
  }

  method MachinesInRacks(all: seq<Machine>, allRacks: Groups, racks: seq<string>) returns (ms: seq<Machine>)
    requires allRacks == ByRack(all) && Elements(racks) <= Racks(all)
    ensures multiset(ms) == multiset(InRacks(all, Elements(racks)))
    ensures ms == [] <==> Elements(racks) == {}
  {
    var filtered := FilterGroups(allRacks, racks);
    ghost var order;
    ms, order := GetMachines(filtered);
    assert filtered.Keys == Elements(racks);
    FlattenIsInRacks(all, Elements(racks), filtered, order);
    SomeMachineInRacks(all, Elements(racks));
    SameEmptiness(ms, InRacks(all, Elements(racks)));
  }

  lemma LeastOfEqual(racks: set<string>, f: string -> nat, g: string -> nat)
    requires forall r :: f(r) == g(r)
    ensures Least(racks, f) == Least(racks, g)
  {
  }

  method ElectByProject(all: seq<Machine>, allRacks: Groups, project: seq<Machine>) returns (racks: seq<string>)
    requires allRacks == ByRack(all)
    ensures Elements(racks) == LeastByProject(all, project)
  {
    var projectRacks := GroupByRack(project);
    forall r ensures GroupSize(projectRacks, r) == Occupancy(project, r) {
      NoneInRack(project, r);
    }
    racks := ElectRacks(allRacks, projectRacks);
    LeastOfEqual(Racks(all), r => GroupSize(projectRacks, r), r => Occupancy(project, r));
  }

  method ElectByTags(all: seq<Machine>, allRacks: Groups, project: seq<Machine>, tags: seq<string>)
    returns (racks: seq<string>)
    requires allRacks == ByRack(all)
    ensures Elements(racks) == LeastByTags(all, project, Elements(tags))
  {
    var taggedRacks := TagOccupation(project, tags);
    racks := ElectRacks(allRacks, taggedRacks);
    LeastOfEqual(Racks(all), r => GroupSize(taggedRacks, r), r => TagHits(project, Elements(tags), r));
  }

  method SpreadAcrossRacks(all: seq<Machine>, project: seq<Machine>, tags: seq<string>)
    returns (candidates: seq<Machine>)
    ensures multiset(candidates) == multiset(InRacks(all, Chosen(all, project, Elements(tags))))
    ensures forall m :: multiset(candidates)[m] ==
              if IsCandidate(all, project, Elements(tags), m) then multiset(all)[m] else 0
    ensures candidates != [] <==> all != []
  {
    var allRacks := GroupByRack(all);
    var leastByProject := ElectByProject(all, allRacks, project);
    var leastByTags := ElectByTags(all, allRacks, project, tags);
    var intersection := Intersect(leastByTags, leastByProject);
    ChosenIsOccupied(all, project, Elements(tags));
    forall m ensures multiset(InRacks(all, Chosen(all, project, Elements(tags))))[m] ==
      if IsCandidate(all, project, Elements(tags), m) then multiset(all)[m] else 0
    {
      CandidatesExactly(all, project, Elements(tags), m);
    }
    hide LeastByTags, LeastByProject, InRacks, ByRack, IsCandidate;
    assert Elements(leastByTags) <= Racks(all) && Elements(intersection) <= Racks(all);
    candidates := MachinesInRacks(all, allRacks, intersection);
    if |candidates| > 0 {
      return;
    }
    candidates := MachinesInRacks(all, allRacks, leastByTags);
  }

  lemma SameEmptiness(a: seq<Machine>, b: seq<Machine>)
    requires multiset(a) == multiset(b)
    ensures a == [] <==> b == []
  {
    assert |multiset(a)| == |a| && |multiset(b)| == |b|;
  }

  lemma {:induction false} SomeMachineInRacks(ms: seq<Machine>, racks: set<string>)
    ensures InRacks(ms, racks) != [] <==> Racks(ms) * racks != {}
  {
    if ms != [] {
      var front, m := ms[..|ms| - 1], ms[|ms| - 1];
      SomeMachineInRacks(front, racks);
      assert ms == front + [m];
      assert Racks(ms) == Racks(front) + {m.rack};
      assert m.rack in racks ==> m.rack in Racks(ms) * racks;
      assert Racks(ms) * racks == Racks(front) * racks + {m.rack} * racks;
    }
  }

  lemma {:induction false} LeastExists(racks: set<string>, occupancy: string -> nat)
    requires racks != {}
    ensures Least(racks, occupancy) != {}
  {
    var r :| r in racks;
    if racks == {r} {
      assert r in Least(racks, occupancy);
    } else {
      var rest := racks - {r};
      assert racks == rest + {r};
      LeastExists(rest, occupancy);
      var q :| q in Least(rest, occupancy);
      var best := if occupancy(r) <= occupancy(q) then r else q;
      assert best in Least(racks, occupancy);
    }
  }

  /** The chosen racks all hold available machines, and there are some if there is any machine. */
  lemma ChosenIsOccupied(all: seq<Machine>, project: seq<Machine>, tags: set<string>)
    ensures LeastByTags(all, project, tags) <= Racks(all)
    ensures Chosen(all, project, tags) != {} <==> all != []
  {
    if all != [] {
      assert all[0].rack in Racks(all);
      LeastExists(Racks(all), r => TagHits(project, tags, r));
    }
  }

  // ---------- fairness ----------

  ghost predicate Balanced(racks: set<string>, project: seq<Machine>) {
    forall r, q | r in racks && q in racks :: Occupancy(project, r) <= Occupancy(project, q) + 1
  }

  lemma UntaggedChoosesLeastByProject(all: seq<Machine>, project: seq<Machine>)
    ensures Chosen(all, project, {}) == LeastByProject(all, project)
  {
    forall r ensures TagHits(project, {}, r) == 0 {
      TagHitsAddUp(project, {}, "", r);
    }
    assert LeastByTags(all, project, {}) == Racks(all);
    if all == [] {
      assert LeastByProject(all, project) == {};
    } else {
      assert all[0].rack in Racks(all);
      LeastExists(Racks(all), r => Occupancy(project, r));
      assert LeastByTags(all, project, {}) * LeastByProject(all, project) == LeastByProject(all, project);
    }
  }

  /** Every rack has available machines, and one of the candidates without tags is drawn. */
  ghost predicate UntaggedPick(racks: set<string>, all: seq<Machine>, project: seq<Machine>, pick: Machine) {
    Racks(all) == racks && pick in InRacks(all, Chosen(all, project, {}))
  }

  lemma PickKeepsBalance(racks: set<string>, all: seq<Machine>, project: seq<Machine>, pick: Machine)
    requires Balanced(racks, project) && UntaggedPick(racks, all, project, pick)
    ensures Balanced(racks, project + [pick])
  {
    UntaggedChoosesLeastByProject(all, project);
    PickedFromRacks(all, Chosen(all, project, {}), pick);
    forall r ensures Occupancy(project + [pick], r) == Occupancy(project, r) + if r == pick.rack then 1 else 0 {
      assert (project + [pick])[..|project|] == project;
    }
  }

  lemma {:induction false} PickedFromRacks(ms: seq<Machine>, racks: set<string>, m: Machine)
    requires m in InRacks(ms, racks)
    ensures m in ms && m.rack in racks
  {
    var front := ms[..|ms| - 1];
    if m in InRacks(front, racks) {
      PickedFromRacks(front, racks, m);
    }
  }

  /** A run of untagged allocations, each drawn from the candidates of its moment. */
  ghost predicate UntaggedRun(racks: set<string>, project: seq<Machine>, available: seq<seq<Machine>>,
                              picks: seq<Machine>) {
    && |available| == |picks|
    && (picks != [] ==>
          var n := |picks| - 1;
          && UntaggedRun(racks, project, available[..n], picks[..n])
          && UntaggedPick(racks, available[n], project + picks[..n], picks[n]))
  }

  /**
   However many untagged machines a project allocates, and whichever candidate is drawn each time: if
   every rack still has available machines, counts within one of each other stay within one.
   */
  lemma {:induction false} AllocationsStayBalanced(racks: set<string>, project: seq<Machine>,
                                                   available: seq<seq<Machine>>, picks: seq<Machine>)
    requires Balanced(racks, project) && UntaggedRun(racks, project, available, picks)
    ensures Balanced(racks, project + picks)
  {
    if picks == [] {
      assert project + picks == project;
    } else {
      var n := |picks| - 1;
      AllocationsStayBalanced(racks, project, available[..n], picks[..n]);
      PickKeepsBalance(racks, available[n], project + picks[..n], picks[n]);
      assert project + picks[..n] + [picks[n]] == project + picks;
    }
  }
}
