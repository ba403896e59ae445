/**
 Moving all machines of a switch to another one: the new switch adopts the configuration, and the
 neighbors the machines report are rewritten to the new ports. When a machine that registers again
 would find the very connections that were adopted is the subject of Reregistration.
 */
module Migration {
  import opened Wrappers
  import opened Ordering
  import opened PortNames
  import opened Switches
  import opened Adoption

  datatype MigrationError =
    | EmptyId
    | OtherRack
    | AlreadyConnected
    | NotAdopted(error: SwitchError)
    | UnknownMachine(mid: string)
    | NoNewNeighbor(name: string)

  // ---------- rewriting the neighbors of a machine ----------

  predicate NicInConnections(name: string, mac: string, cons: seq<Connection>) {
    exists i | 0 <= i < |cons| :: cons[i].nic.name == name && cons[i].nic.mac == mac
  }

  predicate Movable(b: Nic, cons: seq<Connection>, nicMap: map<string, Nic>) {
    NicInConnections(b.name, b.mac, cons) ==> b.name in nicMap
  }

  function AdjustedNeighbor(b: Nic, cons: seq<Connection>, nicMap: map<string, Nic>): Nic {
    if NicInConnections(b.name, b.mac, cons) && b.name in nicMap then nicMap[b.name] else b
  }

  function AdjustedNeighbors(bs: seq<Nic>, cons: seq<Connection>, nicMap: map<string, Nic>): seq<Nic> {
    seq(|bs|, i requires 0 <= i < |bs| => AdjustedNeighbor(bs[i], cons, nicMap))
  }

  function AdjustedNic(m: Nic, cons: seq<Connection>, nicMap: map<string, Nic>): Nic {
    m.(neighbors := AdjustedNeighbors(m.neighbors, cons, nicMap))
  }

  function AdjustedNics(nics: seq<Nic>, cons: seq<Connection>, nicMap: map<string, Nic>): seq<Nic> {
    seq(|nics|, i requires 0 <= i < |nics| => AdjustedNic(nics[i], cons, nicMap))
  }

  predicate AllMovable(nics: seq<Nic>, cons: seq<Connection>, nicMap: map<string, Nic>) {
    forall i | 0 <= i < |nics| :: forall j | 0 <= j < |nics[i].neighbors| :: Movable(nics[i].neighbors[j], cons, nicMap)
  }

  method AdjustNeighbors(bs: seq<Nic>, cons: seq<Connection>, nicMap: map<string, Nic>)
    returns (r: Result<seq<Nic>, MigrationError>)
    ensures r.Ok? <==> forall j | 0 <= j < |bs| :: Movable(bs[j], cons, nicMap)
    ensures r.Ok? ==> r.value == AdjustedNeighbors(bs, cons, nicMap)
  {
    var out: seq<Nic> := [];
    for j := 0 to |bs|
      invariant forall k | 0 <= k < j :: Movable(bs[k], cons, nicMap)
      invariant out == AdjustedNeighbors(bs[..j], cons, nicMap)
    {
      if NicInConnections(bs[j].name, bs[j].mac, cons) {
        if bs[j].name !in nicMap {
          return Err(NoNewNeighbor(bs[j].name));
        }
        out := out + [nicMap[bs[j].name]];
      } else {
        out := out + [bs[j]];
      }
    }
    assert bs[..|bs|] == bs;
    r := Ok(out);
  }

  method AdjustMachineNics(nics: seq<Nic>, cons: seq<Connection>, nicMap: map<string, Nic>)
    returns (r: Result<seq<Nic>, MigrationError>)
    ensures r.Ok? <==> AllMovable(nics, cons, nicMap)
    ensures r.Ok? ==> r.value == AdjustedNics(nics, cons, nicMap)
  {
    var out: seq<Nic> := [];
    for i := 0 to |nics|
      invariant AllMovable(nics[..i], cons, nicMap)
      invariant out == AdjustedNics(nics[..i], cons, nicMap)
    {
      var neighbors := AdjustNeighbors(nics[i].neighbors, cons, nicMap);
      if neighbors.Err? {
        return Err(neighbors.error);
      }
      out := out + [nics[i].(neighbors := neighbors.value)];
    }
    assert nics[..|nics|] == nics;
    r := Ok(out);
  }

  // ---------- the migration ----------

  class Machines {
    var nics: map<string, seq<Nic>>

    constructor (nics: map<string, seq<Nic>>)
      ensures this.nics == nics
    {
      this.nics := nics;
    }
  }

  ghost predicate MachinesMoved(connections: Connections, nicMap: map<string, Nic>,
                                before: map<string, seq<Nic>>, after: map<string, seq<Nic>>) {
    && connections.Keys <= before.Keys && after.Keys == before.Keys
    && (forall mid | mid in connections ::
          AllMovable(before[mid], connections[mid], nicMap)
            && after[mid] == AdjustedNics(before[mid], connections[mid], nicMap))
    && (forall mid | mid in before && mid !in connections :: after[mid] == before[mid])
  }

  method AdjustMachineConnections(connections: Connections, nicMap: map<string, Nic>, machines: Machines)
    returns (r: Result<(), MigrationError>)
    modifies machines
    ensures r.Ok? ==> MachinesMoved(connections, nicMap, old(machines.nics), machines.nics)
    ensures r.Err? ==> exists mid | mid in connections ::
                         mid in old(machines.nics) ==> !AllMovable(old(machines.nics)[mid], connections[mid], nicMap)
  {
    var todo := connections.Keys;
    while todo != {}
      invariant todo <= connections.Keys
      invariant connections.Keys - todo <= machines.nics.Keys == old(machines.nics).Keys
      invariant forall mid | mid in connections && mid !in todo ::
                  && AllMovable(old(machines.nics)[mid], connections[mid], nicMap)
                  && machines.nics[mid] == AdjustedNics(old(machines.nics)[mid], connections[mid], nicMap)
      invariant forall mid | mid in machines.nics && (mid !in connections || mid in todo) ::
                machines.nics[mid] == old(machines.nics)[mid]
      decreases todo
    {
      var mid :| mid in todo;
      if mid !in machines.nics {
        return Err(UnknownMachine(mid));
      }
      var newNics := AdjustMachineNics(machines.nics[mid], connections[mid], nicMap);
      if newNics.Err? {
        return Err(newNics.error);
      }
      machines.nics := machines.nics[mid := newNics.value];
      todo := todo - {mid};
    }
    r := Ok(());
  }

  // ---------- the ports of the migrated switch ----------

  /** Every port of the migrated switch is a port it had, with the VRF of the old port of that name, if any. */
  lemma PortsCarryTheVrf(twin: Config, nics: seq<Nic>, source: Vendor, target: Vendor,
                         out: map<string, Nic>, adopted: seq<Nic>, x: Nic)
    requires Translation(nics, source, target, out) && ListsSorted(adopted, AdoptedNics(twin.nics, out), Name)
             && x in adopted
    ensures var t := TargetName(x.name, ByKey(nics, Name).Keys, source, target);
            t in out && x == if t in ByKey(twin.nics, Name) then out[t].(vrf := ByKey(twin.nics, Name)[t].vrf)
              else out[t]
    ensures exists n | n in nics :: x == n.(vrf := x.vrf)
  {
    hide TargetName, ByKey, Translation;
    ListedValues(adopted, AdoptedNics(twin.nics, out), Name, x);
    var t :| t in out && x == AdoptedNics(twin.nics, out)[t];
    EntryOf(nics, source, target, out, t);
  }

  /** A dropped port has the line of the port that took its name, so nothing changes for the others. */
  lemma LinesStay(twin: Config, nics: seq<Nic>, source: Vendor, target: Vendor, out: map<string, Nic>,
                  adopted: seq<Nic>)
    requires source != target && Translation(nics, source, target, out)
    requires ListsSorted(adopted, AdoptedNics(twin.nics, out), Name)
             && ByKey(adopted, Name).Keys <= ByKey(nics, Name).Keys
    ensures LinesOf(ByKey(adopted, Name).Keys, source) == LinesOf(ByKey(nics, Name).Keys, source)
  {
    hide ByKey, ListsSorted, AdoptedNics, TargetPort, PortNameToLine;
    var ports, kept := ByKey(nics, Name).Keys, ByKey(adopted, Name).Keys;
    forall line | line in LinesOf(ports, source) ensures line in LinesOf(kept, source) {
      var p :| p in ports && PortNameToLine(p, source) == Ok(line);
      var t := NewName(p, ports, source, target);
      hide NewName;
      assert t in out;
      var q := KeptPort(twin, nics, source, target, out, adopted, t);
      PrintedLinesDiffer(p, q, ports, source, target);
    }
  }

  lemma KeptPort(twin: Config, nics: seq<Nic>, source: Vendor, target: Vendor, out: map<string, Nic>,
                 adopted: seq<Nic>, t: string)
    returns (q: string)
    requires Translation(nics, source, target, out) && ListsSorted(adopted, AdoptedNics(twin.nics, out), Name)
             && t in out
    ensures q == out[t].name && q in ByKey(adopted, Name) && q in ByKey(nics, Name)
    ensures TargetName(q, ByKey(nics, Name).Keys, source, target) == t
  {
    hide TargetName, ByKey, Translation, ListsSorted, AdoptedNics;
    q := out[t].name;
    EntryOf(nics, source, target, out, t);
    AdoptedPort(twin, out, adopted, q, out[t].identifier);
    assert exists n | n in adopted :: Name(n) == q;
    ByKeyFinds(nics, Name, q);
    ByKeyFinds(adopted, Name, q);
  }

  lemma KeptPortsAreOld(twin: Config, nics: seq<Nic>, source: Vendor, target: Vendor, out: map<string, Nic>,
                        adopted: seq<Nic>)
    requires Translation(nics, source, target, out) && ListsSorted(adopted, AdoptedNics(twin.nics, out), Name)
    ensures ByKey(adopted, Name).Keys <= ByKey(nics, Name).Keys
  {
    hide TargetName, ByKey, Translation, ListsSorted, AdoptedNics;
    forall p | p in ByKey(adopted, Name) ensures p in ByKey(nics, Name) {
      ByKeyFinds(adopted, Name, p);
      PortsCarryTheVrf(twin, nics, source, target, out, adopted, ByKey(adopted, Name)[p]);
      assert exists n | n in nics :: Name(n) == p;
      ByKeyFinds(nics, Name, p);
    }
  }

  lemma StillTranslatable(ports: set<string>, kept: set<string>, source: Vendor, target: Vendor)
    requires LinesOf(ports, source) == LinesOf(kept, source) && kept <= ports && Translatable(ports, source, target)
    ensures Translatable(kept, source, target)
  {
    hide LinesOf;
  }

  lemma SameTarget(p: string, ports: set<string>, kept: set<string>, source: Vendor, target: Vendor)
    requires source != target ==> LinesOf(ports, source) == LinesOf(kept, source)
    ensures TargetName(p, ports, source, target) == TargetName(p, kept, source, target)
  {
  }

  /** The kept ports translate, to the same names as before. */
  lemma PortsStay(twin: Config, nics: seq<Nic>, source: Vendor, target: Vendor, out: map<string, Nic>,
                  adopted: seq<Nic>)
    requires Translation(nics, source, target, out) && ListsSorted(adopted, AdoptedNics(twin.nics, out), Name)
    ensures ByKey(adopted, Name).Keys <= ByKey(nics, Name).Keys && CanTranslate(adopted, source, target)
    ensures forall p ::
              TargetName(p, ByKey(adopted, Name).Keys, source, target) ==
                TargetName(p, ByKey(nics, Name).Keys, source, target)
  {
    hide ByKey, ListsSorted, AdoptedNics, LinesOf, TargetName, Translatable;
    var ports, kept := ByKey(nics, Name).Keys, ByKey(adopted, Name).Keys;
    KeptPortsAreOld(twin, nics, source, target, out, adopted);
    if source != target {
      LinesStay(twin, nics, source, target, out, adopted);
      StillTranslatable(ports, kept, source, target);
    }
    forall p ensures TargetName(p, kept, source, target) == TargetName(p, ports, source, target) {
      SameTarget(p, ports, kept, source, target);
    }
  }

  lemma NamesStay(twin: Config, nics: seq<Nic>, source: Vendor, target: Vendor, out: map<string, Nic>,
                  adopted: seq<Nic>)
    requires Translation(nics, source, target, out) && ListsSorted(adopted, AdoptedNics(twin.nics, out), Name)
    ensures TargetNames(adopted, source, target) == TargetNames(nics, source, target) == out.Keys
  {
    hide ByKey, ListsSorted, AdoptedNics, Translation, TargetName, CanTranslate;
    PortsStay(twin, nics, source, target, out, adopted);
    TranslationNames(nics, source, target, out);
    forall t | t in out ensures t in TargetNames(adopted, source, target) {
      var q := KeptPort(twin, nics, source, target, out, adopted, t);
    }
  }

  lemma ConnectedAreMovable(connections: Connections, mid: string, nics: seq<Nic>, nicMap: map<string, Nic>)
    requires ConnectedNames(connections) <= nicMap.Keys && mid in connections
    ensures AllMovable(nics, connections[mid], nicMap)
  {
    forall b: Nic | NicInConnections(b.name, b.mac, connections[mid]) ensures b.name in nicMap {
      var i :| 0 <= i < |connections[mid]| && connections[mid][i].nic.name == b.name;
      assert connections[mid][i] in connections[mid];
    }
  }

  // ---------- the migration as a whole ----------

  /** The three translations of a successful migration and what came of them. */
  ghost predicate Migrated(twin: Config, twinVendor: Vendor, nics: seq<Nic>, vendor: Vendor, d: Config,
                           before: map<string, seq<Nic>>, after: map<string, seq<Nic>>,
                           forNics: map<string, Nic>, forIndex: map<string, Nic>, forMachines: map<string, Nic>) {
    && Translation(nics, vendor, twinVendor, forNics) && Translation(nics, vendor, twinVendor, forIndex)
    && Adopted(twin, forNics, forIndex, d)
    && Translation(d.nics, vendor, twinVendor, forMachines)
    && MachinesMoved(twin.connections, forMachines, before, after)
  }

  /** Once the configuration is adopted, the migration can only fail for a machine that is not there. */
  lemma AdoptedIsMovable(twin: Config, nics: seq<Nic>, source: Vendor, target: Vendor,
                         forNics: map<string, Nic>, forIndex: map<string, Nic>, d: Config)
    requires Translation(nics, source, target, forNics) && Translation(nics, source, target, forIndex)
    requires Adopted(twin, forNics, forIndex, d)
    ensures CanTranslate(d.nics, source, target)
    ensures ConnectedNames(twin.connections) <= TargetNames(d.nics, source, target)
  {
    hide Translation, CanTranslate, TargetNames, ListsSorted, AdoptedNics;
    PortsStay(twin, nics, source, target, forNics, d.nics);
    NamesStay(twin, nics, source, target, forNics, d.nics);
    TranslationNames(nics, source, target, forIndex);
    NamedEverywhere(twin.connections, forIndex);
  }

  /**
   Works on fetched copies of both switches. It succeeds if and only if the conditions of the source
   hold, every old and every connected port has a counterpart, and all connected machines are known.
   */
  method Migrate(twin: Switch, sw: Switch, machines: Machines)
    returns (r: Result<(), MigrationError>,
             ghost forNics: map<string, Nic>, ghost forIndex: map<string, Nic>, ghost forMachines: map<string, Nic>)
    requires twin != sw
    modifies twin`connections, sw`nics, sw`connections, sw`operational, machines
    ensures r.Ok? <==>
              && twin.id != "" && sw.id != "" && twin.rack == sw.rack && old(sw.connections) == map[]
              && Adoptable(old(twin.Value()), twin.vendor, old(sw.nics), sw.vendor)
              && old(twin.connections).Keys <= old(machines.nics).Keys
    ensures r.Ok? ==>
              && Migrated(old(twin.Value()), twin.vendor, old(sw.nics), sw.vendor, sw.Value(),
                          old(machines.nics), machines.nics, forNics, forIndex, forMachines)
              && twin.Value() == old(twin.Value()).(connections := map[]) && sw.operational
    ensures r.Err? ==> twin.Value() == old(twin.Value())
    ensures twin.id == "" || sw.id == "" ==> r == Err(EmptyId)
    ensures twin.id != "" && sw.id != "" && twin.rack != sw.rack ==> r == Err(OtherRack)
    ensures twin.id != "" && sw.id != "" && twin.rack == sw.rack && old(sw.connections) != map[] ==>
            r == Err(AlreadyConnected)
  {
    hide Translation, CanTranslate, Adopted, Adoptable, TargetNames, ConnectedNames, AllMovable;
    forNics, forIndex, forMachines := map[], map[], map[];
    if twin.id == "" || sw.id == "" {
      return Err(EmptyId), forNics, forIndex, forMachines;
    }
    if twin.rack != sw.rack {
      return Err(OtherRack), forNics, forIndex, forMachines;
    }
    if sw.connections != map[] {
      return Err(AlreadyConnected), forNics, forIndex, forMachines;
    }
    var adopted;
    adopted, forNics, forIndex := AdoptConfiguration(twin, sw);
    if adopted.Err? {
      return Err(NotAdopted(adopted.error)), forNics, forIndex, forMachines;
    }
    var nicMap := TranslateNicMap(sw.nics, sw.vendor, twin.vendor);
    if nicMap.Err? {
      r := Err(NotAdopted(nicMap.error));
      AdoptedIsMovable(twin.Value(), old(sw.nics), sw.vendor, twin.vendor, forNics, forIndex, sw.Value());
      return;
    }
    AdoptedIsMovable(twin.Value(), old(sw.nics), sw.vendor, twin.vendor, forNics, forIndex, sw.Value());
    forMachines := nicMap.value;
    TranslationNames(sw.nics, sw.vendor, twin.vendor, forMachines);
    forall mid, nics | mid in twin.connections ensures AllMovable(nics, twin.connections[mid], forMachines) {
      ConnectedAreMovable(twin.connections, mid, nics, forMachines);
    }
    var moved := AdjustMachineConnections(twin.connections, nicMap.value, machines);
    if moved.Err? {
      return Err(moved.error), forNics, forIndex, forMachines;
    }
    twin.connections := map[];
    r := Ok(());
  }

  // ---------- what a migration keeps ----------

  lemma ConnectionCountsAreKept(twin: Config, forNics: map<string, Nic>, forIndex: map<string, Nic>, d: Config)
    requires Adopted(twin, forNics, forIndex, d)
    ensures d.connections.Keys == twin.connections.Keys
    ensures forall mid | mid in twin.connections :: |d.connections[mid]| == |twin.connections[mid]|
    ensures forall mid, i | mid in twin.connections && 0 <= i < |twin.connections[mid]| ::
              d.connections[mid][i].machineId == twin.connections[mid][i].machineId
  {
  }

  /** And every old port has its counterpart there. */
  lemma EveryPortHasItsCounterpart(twin: Config, nics: seq<Nic>, source: Vendor, target: Vendor,
                                   out: map<string, Nic>, adopted: seq<Nic>, t: string) returns (x: Nic)
    requires Translation(nics, source, target, out) && ListsSorted(adopted, AdoptedNics(twin.nics, out), Name)
    requires t in ByKey(twin.nics, Name) && t in out
    ensures x in adopted && TargetName(x.name, ByKey(nics, Name).Keys, source, target) == t
    ensures x.vrf == ByKey(twin.nics, Name)[t].vrf
  {
    hide TargetName, ByKey, Translation;
    x := AdoptedNics(twin.nics, out)[t];
    ListedValues(adopted, AdoptedNics(twin.nics, out), Name, x);
    EntryOf(nics, source, target, out, t);
  }

  ghost predicate Fresh(nics: seq<Nic>, id: string) {
    NoDuplicates(nics) && forall n | n in nics :: n.identifier != "" && n.hostname == id
  }

  /**
   A neighbor anywhere but on the new switch stays as it is if and only if it shares its name and
   hardware address with none of the machine's connections - whatever switch it is on.
   */
  lemma NeighborsAreUntouchedExactly(twin: Config, twinVendor: Vendor, nics: seq<Nic>, newId: string,
                                     vendor: Vendor, d: Config,
                                     before: map<string, seq<Nic>>, after: map<string, seq<Nic>>,
                                     forNics: map<string, Nic>, forIndex: map<string, Nic>,
                                     forMachines: map<string, Nic>, mid: string, i: nat, j: nat)
    requires Migrated(twin, twinVendor, nics, vendor, d, before, after, forNics, forIndex, forMachines)
             && Fresh(nics, newId)
    requires mid in before && i < |before[mid]| && j < |before[mid][i].neighbors|
             && before[mid][i].neighbors[j].hostname != newId
    ensures |after[mid]| == |before[mid]| && |after[mid][i].neighbors| == |before[mid][i].neighbors|
    ensures after[mid][i].(neighbors := before[mid][i].neighbors) == before[mid][i]
    ensures var b := before[mid][i].neighbors[j];
            after[mid][i].neighbors[j] == b <==>
              mid !in twin.connections || !NicInConnections(b.name, b.mac, twin.connections[mid])
  {
    hide Translation, ListsSorted, AdoptedNics, IndexAdopted, NicInConnections;
    var b := before[mid][i].neighbors[j];
    if mid in twin.connections {
      assert Movable(b, twin.connections[mid], forMachines);
      if NicInConnections(b.name, b.mac, twin.connections[mid]) {
        EntryOf(d.nics, vendor, twinVendor, forMachines, b.name);
        PortsCarryTheVrf(twin, nics, vendor, twinVendor, forNics, d.nics, forMachines[b.name]);
      }
    }
  }
}
