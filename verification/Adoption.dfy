/**
 A new switch takes over the configuration of another one, possibly of another vendor: VRFs by
 translated port name, and the connections of all machines.
 */
module Adoption {
  import opened Wrappers
  import opened Ordering
  import opened PortNames
  import opened Switches

  // ---------- the translated nic map ----------

  /** TranslateNicMap: which of several ports with the same new name is kept depends on the map order. */
  ghost predicate Translation(nics: seq<Nic>, source: Vendor, target: Vendor, out: map<string, Nic>) {
    if source == target then out == ByKey(nics, Name)
    else IsTranslation(ByKey(nics, Name), source, target, out)
  }

  function TargetName(port: string, ports: set<string>, source: Vendor, target: Vendor): string {
    if source == target then port else NewName(port, ports, source, target)
  }

  function TargetNames(nics: seq<Nic>, source: Vendor, target: Vendor): set<string> {
    var ports := ByKey(nics, Name).Keys;
    set p | p in ports :: TargetName(p, ports, source, target)
  }

  predicate CanTranslate(nics: seq<Nic>, source: Vendor, target: Vendor) {
    source == target || Translatable(ByKey(nics, Name).Keys, source, target)
  }

  method TranslateNicMap(nics: seq<Nic>, source: Vendor, target: Vendor)
    returns (r: Result<map<string, Nic>, SwitchError>)
    ensures r.Ok? <==> CanTranslate(nics, source, target)
    ensures r.Ok? ==> Translation(nics, source, target, r.value)
  {
    var byName := MapByKey(nics, Name);
    var t := TranslatePorts(byName, source, target);
    r := match t case Ok(out) => Ok(out) case Err(e) => Err(BadPortName(e));
  }

  lemma TranslationNames(nics: seq<Nic>, source: Vendor, target: Vendor, out: map<string, Nic>)
    requires Translation(nics, source, target, out)
    ensures out.Keys == TargetNames(nics, source, target)
  {
    hide NewName;
    if source != target {
      TranslationKeys(ByKey(nics, Name), source, target, out);
    }
  }

  /** Where an entry of a translated nic map comes from. */
  lemma EntryOf(nics: seq<Nic>, source: Vendor, target: Vendor, out: map<string, Nic>, t: string)
    requires Translation(nics, source, target, out) && t in out
    ensures out[t] in nics && out[t].name in ByKey(nics, Name)
    ensures TargetName(out[t].name, ByKey(nics, Name).Keys, source, target) == t
  {
    hide NewName;
    var m := ByKey(nics, Name);
    var p :| p in m && TargetName(p, m.Keys, source, target) == t && out[t] == m[p];
    ByKeyFinds(nics, Name, p);
  }

  // ---------- adopting ----------

  function AdoptedNics(twinNics: seq<Nic>, out: map<string, Nic>): map<string, Nic> {
    var twin := ByKey(twinNics, Name);
    map t | t in out :: if t in twin then out[t].(vrf := twin[t].vrf) else out[t]
  }

  function AdoptedConnection(con: Connection, n: Nic): Connection {
    con.(nic := con.nic.(name := n.name, identifier := n.identifier, mac := n.mac))
  }

  predicate AllNamed(cons: seq<Connection>, out: map<string, Nic>) {
    forall i | 0 <= i < |cons| :: cons[i].nic.name in out
  }

  function AdoptedConnections(cons: seq<Connection>, out: map<string, Nic>): seq<Connection>
    requires AllNamed(cons, out)
  {
    seq(|cons|, i requires 0 <= i < |cons| => AdoptedConnection(cons[i], out[cons[i].nic.name]))
  }

  ghost predicate IndexAdopted(connections: Connections, out: map<string, Nic>, adopted: Connections) {
    && (forall mid | mid in connections :: AllNamed(connections[mid], out))
    && adopted == map mid | mid in connections :: AdoptedConnections(connections[mid], out)
  }

  /** The port map is translated twice, once for the nics and once for the connections. */
  ghost predicate Adopted(twin: Config, forNics: map<string, Nic>, forIndex: map<string, Nic>, d: Config) {
    && ListsSorted(d.nics, AdoptedNics(twin.nics, forNics), Name)
    && IndexAdopted(twin.connections, forIndex, d.connections)
  }

  function ConnectedNames(connections: Connections): set<string> {
    set mid, con | mid in connections && con in connections[mid] :: con.nic.name
  }

  predicate Adoptable(twin: Config, twinVendor: Vendor, nics: seq<Nic>, vendor: Vendor) {
    && CanTranslate(nics, vendor, twinVendor)
    && ByKey(twin.nics, Name).Keys + ConnectedNames(twin.connections) <= TargetNames(nics, vendor, twinVendor)
  }

  method AdoptNics(twin: Switch, sw: Switch) returns (r: Result<seq<Nic>, SwitchError>, ghost out: map<string, Nic>)
    ensures r.Ok? <==>
              && CanTranslate(sw.nics, sw.vendor, twin.vendor)
              && ByKey(twin.nics, Name).Keys <= TargetNames(sw.nics, sw.vendor, twin.vendor)
    ensures r.Ok? ==>
              && Translation(sw.nics, sw.vendor, twin.vendor, out)
              && ListsSorted(r.value, AdoptedNics(twin.nics, out), Name)
  {
    out := map[];
    var t := TranslateNicMap(sw.nics, sw.vendor, twin.vendor);
    if t.Err? {
      return Err(t.error), out;
    }
    var newNics := t.value;
    out := newNics;
    TranslationNames(sw.nics, sw.vendor, twin.vendor, out);
    hide TargetNames, CanTranslate, Translation, ByKey;
    var twinNics := MapByKey(twin.nics, Name);
    var missing: seq<string> := [];
    var todo := twinNics.Keys;
    while todo != {}
      invariant todo <= twinNics.Keys
      invariant missing == [] <==> twinNics.Keys - todo <= newNics.Keys
      decreases todo
    {
      var name :| name in todo;
      if name !in newNics {
        missing := missing + [name];
      }
      todo := todo - {name};
    }
    if missing != [] {
      return Err(MissingNics(missing)), out;
    }
    var tagged := map t | t in newNics :: if t in twinNics then newNics[t].(vrf := twinNics[t].vrf) else newNics[t];
    var adopted, order := Collect(tagged);
    r := Ok(Sort(adopted, Name));
  }

  /** The inner loop: the connections of one machine. */
  method AdoptConnectionsOf(cons: seq<Connection>, newNics: map<string, Nic>)
    returns (newCons: seq<Connection>, missing: seq<string>)
    ensures missing == [] <==> AllNamed(cons, newNics)
    ensures missing == [] ==> newCons == AdoptedConnections(cons, newNics)
  {
    newCons, missing := [], [];
    for i := 0 to |cons|
      invariant missing == [] <==> AllNamed(cons[..i], newNics)
      invariant missing == [] ==> newCons == AdoptedConnections(cons[..i], newNics)
    {
      var con := cons[i];
      assert cons[..i + 1] == cons[..i] + [con];
      if con.nic.name in newNics {
        newCons := newCons + [AdoptedConnection(con, newNics[con.nic.name])];
      } else {
        assert cons[..i + 1][i].nic.name !in newNics;
        missing := missing + [con.nic.name];
      }
    }
    assert cons[..|cons|] == cons;
  }

  method AdoptMachineConnections(twin: Switch, sw: Switch)
    returns (r: Result<Connections, SwitchError>, ghost out: map<string, Nic>)
    ensures r.Ok? <==>
              && CanTranslate(sw.nics, sw.vendor, twin.vendor)
              && ConnectedNames(twin.connections) <= TargetNames(sw.nics, sw.vendor, twin.vendor)
    ensures r.Ok? ==> Translation(sw.nics, sw.vendor, twin.vendor, out) && IndexAdopted(twin.connections, out, r.value)
  {
    hide Translation, CanTranslate, TargetNames, ConnectedNames, AllNamed;
    out := map[];
    var t := TranslateNicMap(sw.nics, sw.vendor, twin.vendor);
    if t.Err? {
      return Err(t.error), out;
    }
    var newNics := t.value;
    out := newNics;
    TranslationNames(sw.nics, sw.vendor, twin.vendor, out);
    var adopted: Connections := map[];
    var missing: seq<string> := [];
    var connections := twin.connections;
    var todo := connections.Keys;
    while todo != {}
      invariant todo <= connections.Keys
      invariant missing == [] <==>
                forall mid | mid in connections && mid !in todo :: AllNamed(connections[mid], newNics)
      invariant missing == [] ==>
                adopted == map mid | mid in connections && mid !in todo :: AdoptedConnections(connections[mid], newNics)
      decreases todo
    {
      var mid :| mid in todo;
      var newCons, missingHere := AdoptConnectionsOf(connections[mid], newNics);
      missing := missing + missingHere;
      adopted := adopted[mid := newCons];
      todo := todo - {mid};
    }
    NamedEverywhere(connections, newNics);
    r := if missing != [] then Err(MissingNics(missing)) else Ok(adopted);
  }

  lemma NamedEverywhere(connections: Connections, out: map<string, Nic>)
    ensures ConnectedNames(connections) <= out.Keys <==>
            forall mid | mid in connections :: AllNamed(connections[mid], out)
  {
    if ConnectedNames(connections) <= out.Keys {
      forall mid | mid in connections ensures AllNamed(connections[mid], out) {
        forall i | 0 <= i < |connections[mid]| ensures connections[mid][i].nic.name in out {
          assert connections[mid][i] in connections[mid];
          assert connections[mid][i].nic.name in ConnectedNames(connections);
        }
      }
    }
  }

  method AdoptConfiguration(existing: Switch, sw: Switch)
    returns (r: Result<(), SwitchError>, ghost forNics: map<string, Nic>, ghost forIndex: map<string, Nic>)
    requires existing != sw
    modifies sw`nics, sw`connections, sw`operational
    ensures r.Ok? <==> Adoptable(existing.Value(), existing.vendor, old(sw.nics), sw.vendor)
    ensures r.Ok? ==>
              && Translation(old(sw.nics), sw.vendor, existing.vendor, forNics)
              && Translation(old(sw.nics), sw.vendor, existing.vendor, forIndex)
              && Adopted(existing.Value(), forNics, forIndex, sw.Value()) && sw.operational
    ensures r.Err? ==> sw.Value() == old(sw.Value()) && sw.operational == old(sw.operational)
  {
    hide ListsSorted, AdoptedNics, IndexAdopted, Translation, CanTranslate, TargetNames, ConnectedNames, ByKey;
    forIndex := map[];
    var newNics;
    newNics, forNics := AdoptNics(existing, sw);
    if newNics.Err? {
      return Err(newNics.error), forNics, forIndex;
    }
    var newConnections;
    newConnections, forIndex := AdoptMachineConnections(existing, sw);
    if newConnections.Err? {
      return Err(newConnections.error), forNics, forIndex;
    }
    sw.connections := newConnections.value;
    sw.nics := newNics.value;
    sw.operational := true;
    r := Ok(());
  }

  // ---------- when the adopted index is consistent ----------

  /** No two ports of the new switch take the new name of a connected port. */
  ghost predicate Unambiguous(nics: seq<Nic>, source: Vendor, target: Vendor, names: set<string>) {
    var ports := ByKey(nics, Name).Keys;
    forall p, q | p in ports && q in ports && TargetName(p, ports, source, target) in names
                  && TargetName(p, ports, source, target) == TargetName(q, ports, source, target) :: p == q
  }

  ghost predicate Identified(nics: seq<Nic>) {
    forall n | n in nics :: n.identifier != ""
  }

  lemma AdoptedNicsAreDistinct(twin: Config, nics: seq<Nic>, source: Vendor, target: Vendor, out: map<string, Nic>,
                               adopted: seq<Nic>)
    requires NoDuplicates(nics) && Translation(nics, source, target, out)
    requires ListsSorted(adopted, AdoptedNics(twin.nics, out), Name)
    ensures NoDuplicates(adopted) && |adopted| == |out|
  {
    hide TargetName, ByKey, Translation;
    var m := AdoptedNics(twin.nics, out);
    forall t, u | t in m && u in m && t != u
      ensures Name(m[t]) != Name(m[u]) && Identifier(m[t]) != Identifier(m[u])
    {
      EntryOf(nics, source, target, out, t);
      EntryOf(nics, source, target, out, u);
      DifferentNics(nics, Name, out[t], out[u]);
      DifferentNics(nics, Identifier, out[t], out[u]);
    }
    ListedIsDistinct(adopted, m, Name, Name);
    ListedIsDistinct(adopted, m, Name, Identifier);
    assert m.Keys == out.Keys;
  }

  /** A port is listed after the adoption if and only if the translation of the nics kept it. */
  lemma AdoptedPort(twin: Config, out: map<string, Nic>, adopted: seq<Nic>, name: string, identifier: string)
    requires ListsSorted(adopted, AdoptedNics(twin.nics, out), Name)
    ensures Has(adopted, name, identifier) <==>
            exists t | t in out :: out[t].name == name && out[t].identifier == identifier
  {
    var m := AdoptedNics(twin.nics, out);
    if t :| t in out && out[t].name == name && out[t].identifier == identifier {
      ListedValues(adopted, m, Name, m[t]);
    }
    if n :| n in adopted && n.name == name && n.identifier == identifier {
      ListedValues(adopted, m, Name, n);
      var t :| t in m && m[t] == n;
      assert out[t].name == name && out[t].identifier == identifier;
    }
  }

  lemma AdoptedIndexEntry(connections: Connections, out: map<string, Nic>, adopted: Connections, mid: string,
                          con: Connection)
    returns (t: string)
    requires IndexAdopted(connections, out, adopted) && mid in adopted && con in adopted[mid]
    ensures t in ConnectedNames(connections) && t in out
    ensures con.nic.name == out[t].name && con.nic.identifier == out[t].identifier
  {
    var i :| 0 <= i < |adopted[mid]| && adopted[mid][i] == con;
    t := connections[mid][i].nic.name;
    assert connections[mid][i] in connections[mid];
  }

  lemma UnambiguousAdoptionIsConsistent(twin: Config, nics: seq<Nic>, source: Vendor, target: Vendor,
                                        forNics: map<string, Nic>, forIndex: map<string, Nic>, d: Config)
    requires NoDuplicates(nics) && Identified(nics)
    requires Unambiguous(nics, source, target, ConnectedNames(twin.connections))
    requires Translation(nics, source, target, forNics) && Translation(nics, source, target, forIndex)
    requires Adopted(twin, forNics, forIndex, d)
    ensures Consistent(d)
    ensures forall t | t in ConnectedNames(twin.connections) ::
            t in forIndex && t in forNics && forNics[t] == forIndex[t]
  {
    AdoptedNicsAreDistinct(twin, nics, source, target, forNics, d.nics);
    TranslationNames(nics, source, target, forNics);
    TranslationNames(nics, source, target, forIndex);
    NamedEverywhere(twin.connections, forIndex);
    forall t | t in ConnectedNames(twin.connections) ensures forNics[t] == forIndex[t] && forIndex[t] in nics {
      EntryOf(nics, source, target, forNics, t);
      EntryOf(nics, source, target, forIndex, t);
      hide TargetName;
      if forNics[t] != forIndex[t] {
        DifferentNics(nics, Name, forNics[t], forIndex[t]);
      }
    }
    forall mid, con | mid in d.connections && con in d.connections[mid]
      ensures con.nic.identifier != "" && Has(d.nics, con.nic.name, con.nic.identifier)
    {
      var t := AdoptedIndexEntry(twin.connections, forIndex, d.connections, mid, con);
      AdoptedPort(twin, forNics, d.nics, con.nic.name, con.nic.identifier);
    }
  }

  lemma {:induction false} SomeOrder(keys: set<string>) returns (order: seq<string>)
    ensures IsOrder(order, keys)
  {
    order := [];
    if keys != {} {
      var k :| k in keys;
      var rest := SomeOrder(keys - {k});
      order := [k] + rest;
      assert forall i | 0 <= i < |rest| :: rest[i] in keys - {k};
    }
  }

  lemma SomeTranslation(nics: seq<Nic>, source: Vendor, target: Vendor) returns (out: map<string, Nic>)
    requires CanTranslate(nics, source, target)
    ensures Translation(nics, source, target, out)
  {
    hide NewName;
    var m := ByKey(nics, Name);
    if source == target {
      out := m;
    } else {
      var names := set p | p in m.Keys :: NewName(p, m.Keys, source, target);
      out := map t | t in names :: var p :| p in m && NewName(p, m.Keys, source, target) == t; m[p];
    }
  }

  /** The map order may pick either of two ports with the same new name. */
  lemma EitherPort(nics: seq<Nic>, source: Vendor, target: Vendor, out: map<string, Nic>, p: string)
    returns (picked: map<string, Nic>)
    requires Translation(nics, source, target, out) && source != target && p in ByKey(nics, Name)
    ensures Translation(nics, source, target, picked)
    ensures var t := TargetName(p, ByKey(nics, Name).Keys, source, target);
            t in picked && picked[t] == ByKey(nics, Name)[p]
  {
    hide NewName, Translatable, ByKey;
    var m := ByKey(nics, Name);
    var t := NewName(p, m.Keys, source, target);
    picked := out[t := m[p]];
  }

  lemma SomeAdoption(twin: Config, forNics: map<string, Nic>, forIndex: map<string, Nic>) returns (d: Config)
    requires ConnectedNames(twin.connections) <= forIndex.Keys
    ensures Adopted(twin, forNics, forIndex, d)
  {
    NamedEverywhere(twin.connections, forIndex);
    var m := AdoptedNics(twin.nics, forNics);
    var order := SomeOrder(m.Keys);
    d := Config(Sort(InTheOrder(order, m), Name),
                map mid | mid in twin.connections :: AdoptedConnections(twin.connections[mid], forIndex));
  }

  lemma TwoPorts(nics: seq<Nic>, source: Vendor, target: Vendor, names: set<string>) returns (p: string, q: string)
    requires CanTranslate(nics, source, target) && !Unambiguous(nics, source, target, names)
    ensures var ports := ByKey(nics, Name).Keys;
            && p in ports && q in ports && p != q && source != target
            && TargetName(p, ports, source, target) == TargetName(q, ports, source, target)
            && TargetName(p, ports, source, target) in names
  {
    hide NewName, ByKey, CanTranslate;
    var ports := ByKey(nics, Name).Keys;
    p, q :| p in ports && q in ports && p != q && TargetName(p, ports, source, target) in names
            && TargetName(p, ports, source, target) == TargetName(q, ports, source, target);
  }

  lemma AmbiguousAdoptionCanDangle(twin: Config, nics: seq<Nic>, source: Vendor, target: Vendor)
    returns (forNics: map<string, Nic>, forIndex: map<string, Nic>, d: Config)
    requires NoDuplicates(nics) && Adoptable(twin, target, nics, source)
    requires !Unambiguous(nics, source, target, ConnectedNames(twin.connections))
    ensures Translation(nics, source, target, forNics) && Translation(nics, source, target, forIndex)
    ensures Adopted(twin, forNics, forIndex, d) && !Consistent(d)
  {
    var p, q := TwoPorts(nics, source, target, ConnectedNames(twin.connections));
    hide Translation, CanTranslate, TargetName, TargetNames, ByKey, Adopted, Consistent, ConnectedNames, Unambiguous;
    var out := SomeTranslation(nics, source, target);
    forNics := EitherPort(nics, source, target, out, q);
    forIndex := EitherPort(nics, source, target, out, p);
    TranslationNames(nics, source, target, forIndex);
    d := SomeAdoption(twin, forNics, forIndex);
    ByKeyFinds(nics, Name, q);
    DroppedPortDangles(twin, nics, source, target, forNics, forIndex, d,
      TargetName(p, ByKey(nics, Name).Keys, source, target), p);
  }

  lemma DroppedPortDangles(twin: Config, nics: seq<Nic>, source: Vendor, target: Vendor,
                           forNics: map<string, Nic>, forIndex: map<string, Nic>, d: Config, t: string, p: string)
    requires Translation(nics, source, target, forNics) && Adopted(twin, forNics, forIndex, d)
    requires t in ConnectedNames(twin.connections) && p in ByKey(nics, Name)
             && TargetName(p, ByKey(nics, Name).Keys, source, target) == t
    requires t in forIndex && forIndex[t] == ByKey(nics, Name)[p]
    requires t in forNics && forNics[t].name != p
    ensures !Consistent(d)
  {
    ByKeyFinds(nics, Name, p);
    var mid, con :| mid in twin.connections && con in twin.connections[mid] && con.nic.name == t;
    var i :| 0 <= i < |twin.connections[mid]| && twin.connections[mid][i] == con;
    var adopted := d.connections[mid][i];
    assert adopted in d.connections[mid] && adopted.nic.name == p;
    if Has(d.nics, p, adopted.nic.identifier) {
      AdoptedPort(twin, forNics, d.nics, p, adopted.nic.identifier);
      var u :| u in forNics && forNics[u].name == p;
      EntryOf(nics, source, target, forNics, u);
      assert false;
    }
  }

  /**
   Every run of the adoption leaves an index without dangling connections if and only if no two
   ports of the new switch translate to the name of a connected port.
   */
  lemma AdoptionIsConsistentExactly(twin: Config, nics: seq<Nic>, source: Vendor, target: Vendor)
    requires NoDuplicates(nics) && Identified(nics) && Adoptable(twin, target, nics, source)
    ensures Unambiguous(nics, source, target, ConnectedNames(twin.connections)) <==>
            forall forNics, forIndex, d | Translation(nics, source, target, forNics)
              && Translation(nics, source, target, forIndex)
                                          && Adopted(twin, forNics, forIndex, d) :: Consistent(d)
  {
    if Unambiguous(nics, source, target, ConnectedNames(twin.connections)) {
      forall forNics, forIndex, d | Translation(nics, source, target, forNics)
        && Translation(nics, source, target, forIndex)
                                    && Adopted(twin, forNics, forIndex, d)
        ensures Consistent(d)
      {
        UnambiguousAdoptionIsConsistent(twin, nics, source, target, forNics, forIndex, d);
      }
    } else {
      var forNics, forIndex, d := AmbiguousAdoptionCanDangle(twin, nics, source, target);
    }
  }

  lemma DistinctLinesAreUnambiguous(nics: seq<Nic>, source: Vendor, target: Vendor, names: set<string>)
    requires CanTranslate(nics, source, target)
    requires source == target || DistinctLines(ByKey(nics, Name).Keys, source)
    ensures Unambiguous(nics, source, target, names)
  {
    var ports := ByKey(nics, Name).Keys;
    if source != target {
      hide NewName;
      forall p, q | p in ports && q in ports && NewName(p, ports, source, target) == NewName(q, ports, source, target)
        ensures p == q
      {
        PrintedLinesDiffer(p, q, ports, source, target);
        assert PortNameToLine(p, source).Ok?;
      }
    }
  }

  /** Cumulus ports "swp1" and "swp1s0" both become "Ethernet0", which no check on creation excludes. */
  lemma PlainAndBrokenOutCollide(a: Nic, b: Nic)
    requires a.name == "swp1" && b.name == "swp1s0" && a.identifier != b.identifier
    ensures NoDuplicates([a, b]) && CanTranslate([a, b], Cumulus, Sonic)
    ensures !Unambiguous([a, b], Cumulus, Sonic, {"Ethernet0"})
  {
    hide CumulusPortNameToLine, SonicPort, ByKey;
    var nics, ports := [a, b], ByKey([a, b], Name).Keys;
    assert a in nics && b in nics;
    ByKeyFinds(nics, Name, a.name);
    ByKeyFinds(nics, Name, b.name);
    forall p ensures p in ports ==> p == "swp1" || p == "swp1s0" {
      ByKeyFinds(nics, Name, p);
    }
    PlainAndBrokenOutShareALine();
    assert TargetName("swp1", ports, Cumulus, Sonic) == TargetName("swp1s0", ports, Cumulus, Sonic) == "Ethernet0";
    assert "swp1" != "swp1s0" by { assert |"swp1"| != |"swp1s0"|; }
  }
}
