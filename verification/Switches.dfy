/**
 A switch, its ports and the index of the machines connected to them: every operation keeps the
 index free of connections to ports the switch does not have.
 */
module Switches {
  import opened Wrappers
  import opened Ordering
  import PortNames

  datatype Nic = Nic(mac: string, name: string, identifier: string, vrf: string, hostname: string, neighbors: seq<Nic>)

  datatype Connection = Connection(nic: Nic, machineId: string)

  type Connections = map<string, seq<Connection>>

  datatype SwitchError =
    | OnlyInTheIndex
    | MissingNics(names: seq<string>)
    | BadPortName(error: PortNames.PortError)

  /** What of a switch the operations below read and write. */
  datatype Config = Config(nics: seq<Nic>, connections: Connections)

  function Name(n: Nic): string {
    n.name
  }

  function Identifier(n: Nic): string {
    n.identifier
  }

  // ---------- nic maps ----------

  /** MapByIdentifier and MapByName: nics without the key are skipped, the last of equal keys wins. */
  function ByKey(nics: seq<Nic>, key: Nic -> string): map<string, Nic> {
    if nics == [] then map[]
    else
      var n := nics[|nics| - 1];
      var m := ByKey(nics[..|nics| - 1], key);
      if key(n) == "" then m else m[key(n) := n]
  }

  method MapByKey(nics: seq<Nic>, key: Nic -> string) returns (m: map<string, Nic>)
    ensures m == ByKey(nics, key)
  {
    m := map[];
    for i := 0 to |nics|
      invariant m == ByKey(nics[..i], key)
    {
      assert nics[..i + 1][..i] == nics[..i];
      if key(nics[i]) != "" {
        m := m[key(nics[i]) := nics[i]];
      }
    }
    assert nics[..|nics|] == nics;
  }

  lemma {:induction false} ByKeyFinds(nics: seq<Nic>, key: Nic -> string, k: string)
    ensures k in ByKey(nics, key) ==> k != "" && ByKey(nics, key)[k] in nics && key(ByKey(nics, key)[k]) == k
    ensures k != "" && (exists n | n in nics :: key(n) == k) ==> k in ByKey(nics, key)
  {
    if nics != [] {
      ByKeyFinds(nics[..|nics| - 1], key, k);
      assert nics == nics[..|nics| - 1] + [nics[|nics| - 1]];
    }
  }

  lemma ByKeyOfDistinct(nics: seq<Nic>, key: Nic -> string, n: Nic)
    requires DistinctBy(nics, key) && n in nics && key(n) != ""
    ensures key(n) in ByKey(nics, key) && ByKey(nics, key)[key(n)] == n
  {
    ByKeyFinds(nics, key, key(n));
    var m := ByKey(nics, key)[key(n)];
    if m != n {
      DifferentNics(nics, key, m, n);
    }
  }

  lemma DifferentNics(nics: seq<Nic>, key: Nic -> string, n: Nic, m: Nic)
    requires DistinctBy(nics, key) && n in nics && m in nics && n != m
    ensures key(n) != key(m)
  {
    var i :| 0 <= i < |nics| && nics[i] == n;
    var j :| 0 <= j < |nics| && nics[j] == m;
  }

  function FilterByHostname(nics: seq<Nic>, hostname: string): seq<Nic> {
    if hostname == "" || nics == [] then nics
    else (if nics[0].hostname == hostname then [nics[0]] else []) + FilterByHostname(nics[1..], hostname)
  }

  lemma {:induction false} FilteredMembers(nics: seq<Nic>, hostname: string, n: Nic)
    ensures n in FilterByHostname(nics, hostname) <==> n in nics && (hostname == "" || n.hostname == hostname)
  {
    if hostname != "" && nics != [] {
      FilteredMembers(nics[1..], hostname, n);
    }
  }

  // ---------- consistency of the index ----------

  predicate NoDuplicates(nics: seq<Nic>) {
    DistinctBy(nics, Identifier) && DistinctBy(nics, Name)
  }

  predicate Has(nics: seq<Nic>, name: string, identifier: string) {
    exists n | n in nics :: n.name == name && n.identifier == identifier
  }

  /** Every connection names a port of the switch by both its name and its identifier. */
  predicate Grounded(c: Config) {
    forall mid, con | mid in c.connections && con in c.connections[mid] ::
      con.nic.identifier != "" && Has(c.nics, con.nic.name, con.nic.identifier)
  }

  predicate Consistent(c: Config) {
    NoDuplicates(c.nics) && Grounded(c)
  }

  predicate HasConnections(connections: Connections) {
    exists mid | mid in connections :: connections[mid] != []
  }

  predicate NicIsConnected(identifier: string, connections: Connections) {
    exists mid | mid in connections :: exists con | con in connections[mid] :: con.nic.identifier == identifier
  }

  // ---------- validated update ----------

  predicate Removed(id: string, oldNics: map<string, Nic>, newNics: map<string, Nic>, connections: Connections) {
    id in oldNics && NicIsConnected(id, connections) && id !in newNics
  }

  predicate Renamed(id: string, oldNics: map<string, Nic>, newNics: map<string, Nic>, connections: Connections) {
    id in oldNics && NicIsConnected(id, connections) && id in newNics && newNics[id].name != oldNics[id].name
  }

  method ValidateConnectedNics(oldNics: seq<Nic>, newNics: seq<Nic>, connections: Connections)
    returns (removed: set<string>, renamed: set<string>)
    ensures var o, n := ByKey(oldNics, Identifier), ByKey(newNics, Identifier);
            && (forall id :: id in removed <==> Removed(id, o, n, connections))
            && (forall id :: id in renamed <==> Renamed(id, o, n, connections))
  {
    var byId := MapByKey(oldNics, Identifier);
    var newById := MapByKey(newNics, Identifier);
    removed, renamed := {}, {};
    var todo := byId.Keys;
    while todo != {}
      invariant todo <= byId.Keys
      invariant forall id :: id in removed <==> id !in todo && Removed(id, byId, newById, connections)
      invariant forall id :: id in renamed <==> id !in todo && Renamed(id, byId, newById, connections)
      decreases todo
    {
      var id :| id in todo;
      todo := todo - {id};
      if !NicIsConnected(id, connections) {
        continue;
      }
      if id !in newById {
        removed := removed + {id};
        continue;
      }
      if newById[id].name != byId[id].name {
        renamed := renamed + {id};
      }
    }
  }

  predicate ConnectedKept(oldNics: seq<Nic>, newNics: seq<Nic>, connections: Connections) {
    var o, n := ByKey(oldNics, Identifier), ByKey(newNics, Identifier);
    forall id | id in o :: !Removed(id, o, n, connections) && !Renamed(id, o, n, connections)
  }

  lemma PortById(nics: seq<Nic>, name: string, identifier: string)
    requires NoDuplicates(nics) && identifier != ""
    ensures Has(nics, name, identifier) <==>
            var m := ByKey(nics, Identifier); identifier in m && m[identifier].name == name
  {
    ByKeyFinds(nics, Identifier, identifier);
    if n :| n in nics && n.name == name && n.identifier == identifier {
      ByKeyOfDistinct(nics, Identifier, n);
    }
  }

  /** The validator refuses exactly the port lists that would leave a connection dangling. */
  lemma ValidatorIsExact(c: Config, nics: seq<Nic>)
    requires Consistent(c) && NoDuplicates(nics)
    ensures ConnectedKept(c.nics, nics, c.connections) <==> Grounded(c.(nics := nics))
  {
    var o, n := ByKey(c.nics, Identifier), ByKey(nics, Identifier);
    forall mid, con | mid in c.connections && con in c.connections[mid]
      ensures con.nic.identifier in o && NicIsConnected(con.nic.identifier, c.connections)
      ensures o[con.nic.identifier].name == con.nic.name
      ensures Has(nics, con.nic.name, con.nic.identifier) <==>
              con.nic.identifier in n && n[con.nic.identifier].name == con.nic.name
    {
      PortById(c.nics, con.nic.name, con.nic.identifier);
      PortById(nics, con.nic.name, con.nic.identifier);
    }
    hide ByKey, Has;
  }

  /** The ports of a request; nil entries are skipped. */
  function Given(req: seq<Option<Nic>>): seq<Nic> {
    if req == [] then []
    else (if req[0].Some? then [req[0].value] else []) + Given(req[1..])
  }

  /** validateUpdate: without any port given, the connected ports are not looked at. */
  predicate Accepts(c: Config, req: Option<seq<Option<Nic>>>) {
    var given := if req.Some? then Given(req.value) else [];
    NoDuplicates(given) && (given != [] ==> ConnectedKept(c.nics, given, c.connections))
  }

  function Updated(c: Config, req: Option<seq<Option<Nic>>>): Config {
    if req.Some? then c.(nics := Given(req.value)) else c
  }

  function WithNewNames(oldNics: seq<Nic>, newNics: seq<Nic>): map<string, Nic> {
    var o, n := ByKey(oldNics, Identifier), ByKey(newNics, Identifier);
    map id | id in n :: if id in o then o[id].(name := n[id].name) else n[id]
  }

  ghost predicate RegisterUpdated(c: Config, req: seq<Option<Nic>>, d: Config) {
    && d.connections == c.connections
    && (if req == [] then d.nics == c.nics
        else ListsSorted(d.nics, WithNewNames(c.nics, Given(req)), Identifier))
  }

  lemma UngroundedWithoutNics(c: Config)
    requires Grounded(c)
    ensures Grounded(c.(nics := [])) <==> !HasConnections(c.connections)
  {
    if mid :| mid in c.connections && c.connections[mid] != [] {
      var con := c.connections[mid][0];
      assert con in c.(nics := []).connections[mid] && !Has([], con.nic.name, con.nic.identifier);
    }
  }

  /**
   An accepted update keeps the index grounded, with one exception: a request that brings a list
   but no port skips the check of the connected ports and then drops them all.
   */
  lemma UpdateKeepsConsistencyExactly(c: Config, req: Option<seq<Option<Nic>>>)
    requires Consistent(c) && Accepts(c, req)
    ensures Consistent(Updated(c, req)) <==>
            (req.None? || Given(req.value) != [] || !HasConnections(c.connections))
  {
    if req.Some? {
      if Given(req.value) == [] {
        UngroundedWithoutNics(c);
      } else {
        ValidatorIsExact(c, Given(req.value));
      }
    }
  }

  /** On a switch with one connected port, the empty list is accepted and drops it. */
  lemma EmptyListDropsThePort(port: Nic, mid: string)
    requires port.identifier != ""
    ensures var c := Config([port], map[mid := [Connection(port, mid)]]);
            && Consistent(c) && Accepts(c, Some([])) && Updated(c, Some([])).nics == []
            && !Consistent(Updated(c, Some([]))) && Accepts(c, Some([None])) && !Consistent(Updated(c, Some([None])))
  {
    var c := Config([port], map[mid := [Connection(port, mid)]]);
    assert port in c.nics && c.connections[mid][0] == Connection(port, mid);
    assert Has(c.nics, port.name, port.identifier) && HasConnections(c.connections);
    var nothing: seq<Option<Nic>> := [None];
    assert nothing[1..] == [] && Given(nothing) == [];
    UpdateKeepsConsistencyExactly(c, Some([]));
    UpdateKeepsConsistencyExactly(c, Some([None]));
  }

  lemma RenamedNics(oldNics: seq<Nic>, newNics: seq<Nic>, nics: seq<Nic>)
    requires NoDuplicates(oldNics) && NoDuplicates(newNics)
    requires ListsSorted(nics, WithNewNames(oldNics, newNics), Identifier)
    ensures NoDuplicates(nics) && SortedBy(nics, Identifier)
    ensures forall name, id | id != "" :: Has(nics, name, id) <==> Has(newNics, name, id)
  {
    var m, n := WithNewNames(oldNics, newNics), ByKey(newNics, Identifier);
    forall id
      ensures id in m ==> && Identifier(m[id]) == id && id != "" && Name(m[id]) == n[id].name
                          && n[id] in newNics && n[id].identifier == id
    {
      ByKeyFinds(newNics, Identifier, id);
      ByKeyFinds(oldNics, Identifier, id);
    }
    forall k, l | k in m && l in m && k != l ensures Name(m[k]) != Name(m[l]) {
      DifferentNics(newNics, Name, n[k], n[l]);
    }
    ListedIsDistinct(nics, m, Identifier, Identifier);
    ListedIsDistinct(nics, m, Identifier, Name);
    forall name, id | id != "" ensures Has(nics, name, id) <==> Has(newNics, name, id) {
      PortById(newNics, name, id);
      PortById(nics, name, id);
      ByKeyFinds(nics, Identifier, id);
      if id in m {
        ListedValues(nics, m, Identifier, m[id]);
        assert Has(nics, n[id].name, id);
      }
      if x :| x in nics && x.name == name && x.identifier == id {
        ListedValues(nics, m, Identifier, x);
      }
    }
  }

  lemma RegisterKeepsConsistencyExactly(c: Config, req: seq<Option<Nic>>, d: Config)
    requires Consistent(c) && Accepts(c, Some(req)) && RegisterUpdated(c, req, d)
    ensures Consistent(d) <==> (req == [] || Given(req) != [] || !HasConnections(c.connections))
  {
    if req != [] {
      var given := Given(req);
      RenamedNics(c.nics, given, d.nics);
      assert Grounded(d) <==> Grounded(c.(nics := given));
      if given == [] {
        UngroundedWithoutNics(c);
      } else {
        ValidatorIsExact(c, given);
      }
    }
  }

  predicate IsPort(nics: seq<Nic>, identifier: string) {
    exists n | n in nics :: n.identifier == identifier
  }

  /** A port of the old list under the name it is given now. */
  predicate KeptAs(c: Config, given: seq<Nic>, x: Nic) {
    exists n, g | n in c.nics && g in given :: n.identifier == g.identifier && x == n.(name := g.name)
  }

  lemma GivenPortIsThere(c: Config, req: seq<Option<Nic>>, d: Config, g: Nic)
    requires NoDuplicates(c.nics) && NoDuplicates(Given(req)) && req != [] && RegisterUpdated(c, req, d)
    requires g in Given(req) && g.identifier != ""
    ensures forall n | n in c.nics && n.identifier == g.identifier :: n.(name := g.name) in d.nics
    ensures !IsPort(c.nics, g.identifier) ==> g in d.nics
  {
    var m := WithNewNames(c.nics, Given(req));
    ByKeyFinds(c.nics, Identifier, g.identifier);
    ByKeyOfDistinct(Given(req), Identifier, g);
    ListedValues(d.nics, m, Identifier, m[g.identifier]);
    forall n | n in c.nics && n.identifier == g.identifier ensures n.(name := g.name) in d.nics {
      ByKeyOfDistinct(c.nics, Identifier, n);
    }
  }

  lemma NoOtherPortIsThere(c: Config, req: seq<Option<Nic>>, d: Config, x: Nic)
    requires NoDuplicates(c.nics) && NoDuplicates(Given(req)) && req != [] && RegisterUpdated(c, req, d)
    requires x in d.nics
    ensures x.identifier != ""
    ensures KeptAs(c, Given(req), x) || (x in Given(req) && !IsPort(c.nics, x.identifier))
  {
    var m := WithNewNames(c.nics, Given(req));
    ListedValues(d.nics, m, Identifier, x);
    var id :| id in m && m[id] == x;
    ByKeyFinds(c.nics, Identifier, id);
    ByKeyFinds(Given(req), Identifier, id);
  }

  /**
   After a registration that brought a list, a known port keeps everything but its name, a new port is there
   as it was given, and there are no others; ports without an identifier are dropped.
   */
  lemma RegisteredPortsExactly(c: Config, req: seq<Option<Nic>>, d: Config)
    requires NoDuplicates(c.nics) && NoDuplicates(Given(req)) && req != [] && RegisterUpdated(c, req, d)
    ensures forall n, g | n in c.nics && g in Given(req) && n.identifier == g.identifier != "" ::
              n.(name := g.name) in d.nics
    ensures forall g | g in Given(req) && g.identifier != "" && !IsPort(c.nics, g.identifier) :: g in d.nics
    ensures forall x | x in d.nics ::
              x.identifier != "" && (KeptAs(c, Given(req), x) || (x in Given(req) && !IsPort(c.nics, x.identifier)))
    ensures NoDuplicates(d.nics) && SortedBy(d.nics, Identifier)
  {
    RenamedNics(c.nics, Given(req), d.nics);
    hide RegisterUpdated, NoDuplicates, Given, IsPort, KeptAs;
    forall g | g in Given(req) && g.identifier != ""
      ensures forall n | n in c.nics && n.identifier == g.identifier :: n.(name := g.name) in d.nics
      ensures !IsPort(c.nics, g.identifier) ==> g in d.nics
    {
      GivenPortIsThere(c, req, d, g);
    }
    forall x | x in d.nics
      ensures x.identifier != "" && (KeptAs(c, Given(req), x) || (x in Given(req) && !IsPort(c.nics, x.identifier)))
    {
      NoOtherPortIsThere(c, req, d, x);
    }
  }

  // ---------- connecting a machine ----------

  predicate Reports(machineNic: Nic, switchId: string, n: Nic) {
    n.identifier in ByKey(FilterByHostname(machineNic.neighbors, switchId), Identifier)
  }

  /** The ports among the given ones that a machine nic reports as its neighbors. */
  function Seen(machineNic: Nic, switchId: string, nics: seq<Nic>, mid: string): seq<Connection> {
    if nics == [] then []
    else
      var n := nics[|nics| - 1];
      Seen(machineNic, switchId, nics[..|nics| - 1], mid) +
      if Reports(machineNic, switchId, n) then [Connection(n, mid)] else []
  }

  function Physical(machineNics: seq<Nic>, switchId: string, nics: seq<Nic>, mid: string): seq<Connection> {
    if machineNics == [] then []
    else
      Physical(machineNics[..|machineNics| - 1], switchId, nics, mid) +
      Seen(machineNics[|machineNics| - 1], switchId, nics, mid)
  }

  method GetPhysicalMachineConnections(mid: string, machineNics: seq<Nic>, switchId: string, nics: seq<Nic>)
    returns (connections: seq<Connection>)
    ensures connections == Physical(machineNics, switchId, nics, mid)
  {
    connections := [];
    for i := 0 to |machineNics|
      invariant connections == Physical(machineNics[..i], switchId, nics, mid)
    {
      var neighbors := MapByKey(FilterByHostname(machineNics[i].neighbors, switchId), Identifier);
      for j := 0 to |nics|
        invariant connections == Physical(machineNics[..i], switchId, nics, mid) +
                  Seen(machineNics[i], switchId, nics[..j], mid)
      {
        assert nics[..j + 1][..j] == nics[..j];
        if nics[j].identifier in neighbors {
          connections := connections + [Connection(nics[j], mid)];
        }
      }
      assert nics[..|nics|] == nics;
      assert machineNics[..i + 1][..i] == machineNics[..i];
    }
    assert machineNics[..|machineNics|] == machineNics;
  }

  lemma {:induction false} SeenExactly(machineNic: Nic, switchId: string, nics: seq<Nic>, mid: string, con: Connection)
    ensures con in Seen(machineNic, switchId, nics, mid) <==>
            con.machineId == mid && con.nic in nics && Reports(machineNic, switchId, con.nic)
  {
    hide Reports;
    if nics != [] {
      SeenExactly(machineNic, switchId, nics[..|nics| - 1], mid, con);
      assert nics == nics[..|nics| - 1] + [nics[|nics| - 1]];
    }
  }

  lemma ReportsExactly(machineNic: Nic, switchId: string, n: Nic)
    ensures Reports(machineNic, switchId, n) <==>
            && n.identifier != ""
            && exists b | b in machineNic.neighbors ::
              b.identifier == n.identifier && (switchId == "" || b.hostname == switchId)
  {
    var filtered := FilterByHostname(machineNic.neighbors, switchId);
    ByKeyFinds(filtered, Identifier, n.identifier);
    forall b ensures b in filtered <==> b in machineNic.neighbors && (switchId == "" || b.hostname == switchId) {
      FilteredMembers(machineNic.neighbors, switchId, b);
    }
    if b :| b in machineNic.neighbors && b.identifier == n.identifier && (switchId == "" || b.hostname == switchId) {
      assert b in filtered && Identifier(b) == n.identifier;
    }
  }

  /** A physical connection: a port of the switch that some nic of the machine has as a neighbor there. */
  lemma {:induction false} PhysicalExactly(machineNics: seq<Nic>, switchId: string, nics: seq<Nic>, mid: string,
                                           con: Connection)
    ensures con in Physical(machineNics, switchId, nics, mid) <==>
            && con.machineId == mid && con.nic in nics && con.nic.identifier != ""
            && exists m | m in machineNics :: exists b | b in m.neighbors ::
              b.identifier == con.nic.identifier && (switchId == "" || b.hostname == switchId)
  {
    hide Reports;
    if machineNics != [] {
      var last := machineNics[|machineNics| - 1];
      PhysicalExactly(machineNics[..|machineNics| - 1], switchId, nics, mid, con);
      SeenExactly(last, switchId, nics, mid, con);
      ReportsExactly(last, switchId, con.nic);
      assert machineNics == machineNics[..|machineNics| - 1] + [last];
    }
  }

  function Connected(switchId: string, c: Config, mid: string, machineNics: seq<Nic>): Result<Config, SwitchError> {
    var physical := Physical(machineNics, switchId, c.nics, mid);
    if physical != [] then Ok(c.(connections := c.connections[mid := physical]))
    else if mid in c.connections then Err(OnlyInTheIndex)
    else Ok(c)
  }

  lemma ConnectKeepsConsistency(switchId: string, c: Config, mid: string, machineNics: seq<Nic>)
    requires Consistent(c) && Connected(switchId, c, mid, machineNics).Ok?
    ensures Consistent(Connected(switchId, c, mid, machineNics).value)
  {
    hide Physical;
    var d := Connected(switchId, c, mid, machineNics).value;
    forall con | con in Physical(machineNics, switchId, c.nics, mid)
      ensures con.nic.identifier != "" && Has(c.nics, con.nic.name, con.nic.identifier)
    {
      PhysicalExactly(machineNics, switchId, c.nics, mid, con);
    }
  }

  /** Some nic of the machine has the port as its neighbor on this switch. */
  predicate SeesPort(switchId: string, machineNics: seq<Nic>, port: Nic) {
    port.identifier != "" && exists m | m in machineNics :: exists b | b in m.neighbors ::
      b.identifier == port.identifier && (switchId == "" || b.hostname == switchId)
  }

  /**
   Connecting a machine replaces all its connections by the ports it sees now, and leaves the ports and all
   other machines alone; without any such port it is refused iff the machine has been connected before.
   */
  lemma ConnectingReplacesConnections(switchId: string, c: Config, mid: string, machineNics: seq<Nic>)
    ensures var r := Connected(switchId, c, mid, machineNics);
            var sees := exists port | port in c.nics :: SeesPort(switchId, machineNics, port);
            && (r.Err? <==> !sees && mid in c.connections)
            && (!sees && r.Ok? ==> r.value == c)
            && (r.Ok? ==>
                  && r.value.nics == c.nics
                  && (forall other | other != mid ::
                        && (other in r.value.connections <==> other in c.connections)
                        && (other in c.connections ==> r.value.connections[other] == c.connections[other])))
            && (r.Ok? && sees ==>
                  && mid in r.value.connections
                  && forall con :: con in r.value.connections[mid] <==>
                       con.machineId == mid && con.nic in c.nics && SeesPort(switchId, machineNics, con.nic))
  {
    var physical := Physical(machineNics, switchId, c.nics, mid);
    forall con ensures con in physical <==>
        con.machineId == mid && con.nic in c.nics && SeesPort(switchId, machineNics, con.nic)
    {
      PhysicalExactly(machineNics, switchId, c.nics, mid, con);
    }
    hide Physical, SeesPort;
    if port :| port in c.nics && SeesPort(switchId, machineNics, port) {
      assert Connection(port, mid) in physical;
    }
    if physical != [] {
      assert physical[0] in physical;
    }
  }

  // ---------- the VRF of a machine ----------

  function Affected(connections: Connections, mid: string): set<string> {
    if mid in connections then set con | con in connections[mid] :: con.nic.identifier else {}
  }

  function Tagged(n: Nic, affected: set<string>, vrf: string): Nic {
    if n.identifier in affected then n.(vrf := vrf) else n
  }

  function Retagged(nics: seq<Nic>, affected: set<string>, vrf: string): map<string, Nic> {
    var m := ByKey(nics, Identifier);
    map id | id in m :: Tagged(m[id], affected, vrf)
  }

  ghost predicate VrfSet(c: Config, mid: string, vrf: string, d: Config) {
    && d.connections == c.connections
    && (if Affected(c.connections, mid) == {} then d.nics == c.nics
        else ListsSorted(d.nics, Retagged(c.nics, Affected(c.connections, mid), vrf), Identifier))
  }

  lemma RetaggedEntry(nics: seq<Nic>, affected: set<string>, vrf: string, n: Nic)
    requires NoDuplicates(nics)
    ensures var m := Retagged(nics, affected, vrf);
            (n in nics && n.identifier != "") <==>
            (n.identifier in m && n in nics && m[n.identifier] == Tagged(n, affected, vrf))
  {
    ByKeyFinds(nics, Identifier, n.identifier);
    if n in nics && n.identifier != "" {
      ByKeyOfDistinct(nics, Identifier, n);
    }
  }

  lemma RetaggedKeys(nics: seq<Nic>, affected: set<string>, vrf: string, id: string)
    requires NoDuplicates(nics)
    ensures var m := Retagged(nics, affected, vrf);
            id in m ==> && m[id].identifier == id && id != ""
                        && exists n | n in nics ::
                             n.identifier == id && n.name == m[id].name
                               && m[id] == if id in affected then n.(vrf := vrf) else n
  {
    ByKeyFinds(nics, Identifier, id);
  }

  lemma RetaggedIsDistinct(c: Config, mid: string, vrf: string, d: Config)
    requires Consistent(c) && VrfSet(c, mid, vrf, d)
    ensures NoDuplicates(d.nics) && (d.nics != c.nics ==> SortedBy(d.nics, Identifier))
  {
    var affected := Affected(c.connections, mid);
    if affected != {} {
      var m := Retagged(c.nics, affected, vrf);
      forall k, l | k in m && l in m && k != l
        ensures Identifier(m[k]) != Identifier(m[l]) && Name(m[k]) != Name(m[l])
      {
        RetaggedKeys(c.nics, affected, vrf, k);
        RetaggedKeys(c.nics, affected, vrf, l);
        var x :| x in c.nics && x.identifier == k && x.name == m[k].name;
        var y :| y in c.nics && y.identifier == l && y.name == m[l].name;
        DifferentNics(c.nics, Name, x, y);
      }
      ListedIsDistinct(d.nics, m, Identifier, Identifier);
      ListedIsDistinct(d.nics, m, Identifier, Name);
    }
  }

  lemma TaggedIsThere(c: Config, mid: string, vrf: string, d: Config, n: Nic)
    requires Consistent(c) && VrfSet(c, mid, vrf, d) && n in c.nics
    requires n.identifier != "" || Affected(c.connections, mid) == {}
    ensures Tagged(n, Affected(c.connections, mid), vrf) in d.nics
  {
    var affected := Affected(c.connections, mid);
    if affected != {} {
      RetaggedEntry(c.nics, affected, vrf, n);
      ListedValues(d.nics, Retagged(c.nics, affected, vrf), Identifier, Tagged(n, affected, vrf));
    }
  }

  lemma NothingElseIsThere(c: Config, mid: string, vrf: string, d: Config, x: Nic) returns (n: Nic)
    requires Consistent(c) && VrfSet(c, mid, vrf, d) && x in d.nics
    ensures x.identifier != "" || Affected(c.connections, mid) == {}
    ensures n in c.nics && x == Tagged(n, Affected(c.connections, mid), vrf)
  {
    var affected := Affected(c.connections, mid);
    n := x;
    if affected != {} {
      var m := Retagged(c.nics, affected, vrf);
      ListedValues(d.nics, m, Identifier, x);
      var id :| id in m && m[id] == x;
      RetaggedKeys(c.nics, affected, vrf, id);
      n :| n in c.nics && x == Tagged(n, affected, vrf);
    }
  }

  /**
   Setting the VRF of a connected machine changes the VRF of exactly the ports it is connected to;
   no port appears, and none disappears but one without an identifier.
   */
  lemma SetVrfExactly(c: Config, mid: string, vrf: string, d: Config)
    requires Consistent(c) && VrfSet(c, mid, vrf, d)
    ensures var affected := Affected(c.connections, mid);
            && (forall n | n in c.nics && (n.identifier != "" || affected == {}) :: Tagged(n, affected, vrf) in d.nics)
            && (forall x | x in d.nics ::
                  (x.identifier != "" || affected == {}) && exists n | n in c.nics :: x == Tagged(n, affected, vrf))
  {
    hide VrfSet, Affected, Consistent, Tagged;
    var affected := Affected(c.connections, mid);
    forall n | n in c.nics && (n.identifier != "" || affected == {}) ensures Tagged(n, affected, vrf) in d.nics {
      TaggedIsThere(c, mid, vrf, d, n);
    }
    forall x | x in d.nics
      ensures (x.identifier != "" || affected == {}) && exists n | n in c.nics :: x == Tagged(n, affected, vrf)
    {
      var n := NothingElseIsThere(c, mid, vrf, d, x);
    }
  }

  predicate ConnectedTo(c: Config, mid: string, identifier: string) {
    mid in c.connections && exists con | con in c.connections[mid] :: con.nic.identifier == identifier
  }

  /** The ports with a connection of this machine carry the VRF and are otherwise as before, like all other ports. */
  lemma VrfIsOnTheMachinesPorts(c: Config, mid: string, vrf: string, d: Config)
    requires Consistent(c) && VrfSet(c, mid, vrf, d)
    ensures d.connections == c.connections
    ensures forall n | n in c.nics && n.identifier != "" ::
              (if ConnectedTo(c, mid, n.identifier) then n.(vrf := vrf) else n) in d.nics
    ensures forall x | x in d.nics ::
              exists n | n in c.nics :: x == if ConnectedTo(c, mid, n.identifier) then n.(vrf := vrf) else n
  {
    SetVrfExactly(c, mid, vrf, d);
    hide Consistent;
    var affected := Affected(c.connections, mid);
    forall n | n in c.nics
      ensures Tagged(n, affected, vrf) == if ConnectedTo(c, mid, n.identifier) then n.(vrf := vrf) else n
    {
    }
    hide VrfSet, Affected, ConnectedTo, Tagged;
  }

  lemma SetVrfKeepsConsistency(c: Config, mid: string, vrf: string, d: Config)
    requires Consistent(c) && VrfSet(c, mid, vrf, d)
    ensures Consistent(d)
  {
    RetaggedIsDistinct(c, mid, vrf, d);
    forall m, con | m in d.connections && con in d.connections[m]
      ensures con.nic.identifier != "" && Has(d.nics, con.nic.name, con.nic.identifier)
    {
      assert Has(c.nics, con.nic.name, con.nic.identifier);
      var n :| n in c.nics && n.name == con.nic.name && n.identifier == con.nic.identifier;
      TaggedIsThere(c, mid, vrf, d, n);
    }
  }

  // ---------- reading the index ----------

  /** The machine of a connection and the port it is shown with. */
  type Shown = (string, Nic)

  function MachineOf(e: Shown): string {
    e.0
  }

  function PortOf(e: Shown): string {
    e.1.name
  }

  function Names(nics: seq<Nic>): set<string> {
    set n | n in nics :: n.name
  }

  function FirstNamed(nics: seq<Nic>, name: string): Option<Nic> {
    if nics == [] then None
    else if nics[0].name == name then Some(nics[0])
    else FirstNamed(nics[1..], name)
  }

  lemma {:induction false} FirstNamedExactly(nics: seq<Nic>, name: string)
    ensures FirstNamed(nics, name).Some? <==> name in Names(nics)
    ensures FirstNamed(nics, name).Some? ==>
            FirstNamed(nics, name).value in nics && FirstNamed(nics, name).value.name == name
  {
    if nics != [] && nics[0].name != name {
      FirstNamedExactly(nics[1..], name);
    }
  }

  function ShownOf(cons: seq<Connection>, nics: seq<Nic>): seq<Shown> {
    if cons == [] then []
    else
      var con := cons[|cons| - 1];
      var n := FirstNamed(nics, con.nic.name);
      ShownOf(cons[..|cons| - 1], nics) + if n.None? then [] else [(con.machineId, n.value)]
  }

  function ShownIn(order: seq<string>, connections: Connections, nics: seq<Nic>): seq<Shown>
    requires forall mid | mid in order :: mid in connections
  {
    if order == [] then []
    else ShownIn(order[..|order| - 1], connections, nics) + ShownOf(connections[order[|order| - 1]], nics)
  }

  /** All connections with their ports, machine by machine in some order, then sorted by port and by machine. */
  ghost predicate IsShown(s: seq<Shown>, connections: Connections, nics: seq<Nic>) {
    exists order: seq<string> :: IsOrder(order, connections.Keys)
      && s == Sort(Sort(ShownIn(order, connections, nics), PortOf), MachineOf)
  }

  method ConvertConnectionsOf(cons: seq<Connection>, nics: seq<Nic>) returns (out: seq<Shown>, missing: seq<string>)
    ensures out == ShownOf(cons, nics)
    ensures missing == [] <==> forall con | con in cons :: con.nic.name in Names(nics)
  {
    out, missing := [], [];
    for i := 0 to |cons|
      invariant out == ShownOf(cons[..i], nics)
      invariant missing == [] <==> forall con | con in cons[..i] :: con.nic.name in Names(nics)
    {
      assert cons[..i + 1] == cons[..i] + [cons[i]];
      FirstNamedExactly(nics, cons[i].nic.name);
      var n := FirstNamed(nics, cons[i].nic.name);
      if n.None? {
        missing := missing + [cons[i].nic.name];
      } else {
        out := out + [(cons[i].machineId, n.value)];
      }
    }
    assert cons[..|cons|] == cons;
  }

  /** convertMachineConnections: each connection is shown with the port of the same name, each once. */
  method ConvertMachineConnections(connections: Connections, nics: seq<Nic>)
    returns (r: Result<seq<Shown>, SwitchError>)
    ensures r.Err? <==> exists mid, con | mid in connections && con in connections[mid] :: con.nic.name !in Names(nics)
    ensures r.Ok? ==> IsShown(r.value, connections, nics)
  {
    var out: seq<Shown> := [];
    var missing: seq<string> := [];
    ghost var order: seq<string> := [];
    var todo := connections.Keys;
    while todo != {}
      invariant todo <= connections.Keys && IsOrder(order, connections.Keys - todo)
      invariant out == ShownIn(order, connections, nics)
      invariant missing != [] <==> exists mid, con | mid in connections && mid !in todo && con in connections[mid] ::
                    con.nic.name !in Names(nics)
      decreases todo
    {
      var mid :| mid in todo;
      var shown, missingHere := ConvertConnectionsOf(connections[mid], nics);
      assert (order + [mid])[..|order|] == order;
      out, missing, order, todo := out + shown, missing + missingHere, order + [mid], todo - {mid};
    }
    r := if missing != [] then Err(MissingNics(missing)) else Ok(Sort(Sort(out, PortOf), MachineOf));
  }

  lemma {:induction false} ShownOfMember(cons: seq<Connection>, nics: seq<Nic>, e: Shown)
    ensures e in ShownOf(cons, nics) <==>
            exists con | con in cons :: e.0 == con.machineId && FirstNamed(nics, con.nic.name) == Some(e.1)
  {
    hide FirstNamed;
    if cons != [] {
      ShownOfMember(cons[..|cons| - 1], nics, e);
      assert cons == cons[..|cons| - 1] + [cons[|cons| - 1]];
    }
  }

  lemma {:induction false} ShownInMember(order: seq<string>, connections: Connections, nics: seq<Nic>, e: Shown)
    requires forall mid | mid in order :: mid in connections
    ensures e in ShownIn(order, connections, nics) <==>
            exists mid | mid in order :: e in ShownOf(connections[mid], nics)
  {
    hide ShownOf;
    if order != [] {
      ShownInMember(order[..|order| - 1], connections, nics, e);
      assert order == order[..|order| - 1] + [order[|order| - 1]];
    }
  }

  /** Exactly the connections are shown, by machine and for each machine by port. */
  lemma ShownExactly(s: seq<Shown>, connections: Connections, nics: seq<Nic>)
    requires IsShown(s, connections, nics)
    ensures SortedBy(s, MachineOf) && SortedWithin(s, MachineOf, PortOf)
    ensures forall e :: e in s <==> exists mid, con | mid in connections && con in connections[mid] ::
              e.0 == con.machineId && FirstNamed(nics, con.nic.name) == Some(e.1)
  {
    hide FirstNamed, ShownIn, ShownOf;
    var order: seq<string> :| IsOrder(order, connections.Keys)
      && s == Sort(Sort(ShownIn(order, connections, nics), PortOf), MachineOf);
    var all := ShownIn(order, connections, nics);
    var byPort := Sort(all, PortOf);
    SortIsSorted(all, PortOf);
    SortIsSorted(byPort, MachineOf);
    SortIsStable(byPort, MachineOf, PortOf);
    forall e ensures e in s <==> exists mid, con | mid in connections && con in connections[mid] ::
              e.0 == con.machineId && FirstNamed(nics, con.nic.name) == Some(e.1)
    {
      SortMembers(all, PortOf, e);
      SortMembers(byPort, MachineOf, e);
      ShownInMember(order, connections, nics, e);
      forall mid | mid in connections
        ensures e in ShownOf(connections[mid], nics) <==>
                exists con | con in connections[mid] ::
                  e.0 == con.machineId && FirstNamed(nics, con.nic.name) == Some(e.1)
      {
        ShownOfMember(connections[mid], nics, e);
      }
    }
  }

  predicate At(connections: Connections, mid: string, i: int) {
    mid in connections && 0 <= i < |connections[mid]|
  }

  ghost predicate Placed(connections: Connections, res: map<string, Connection>, places: map<string, (string, int)>,
                         name: string)
    requires name in res
  {
    && name in places && At(connections, places[name].0, places[name].1)
    && res[name] == connections[places[name].0][places[name].1] && res[name].nic.name == name
  }

  /** All connections before position k of a machine, and of the machines done, are indexed where they stand. */
  ghost predicate Indexed(connections: Connections, res: map<string, Connection>, places: map<string, (string, int)>,
                          todo: set<string>, mid: string, k: int) {
    && places.Keys == res.Keys
    && (forall name | name in res ::
          && Placed(connections, res, places, name) && places[name].0 !in todo
          && (places[name].0 == mid ==> places[name].1 < k))
    && (forall m, i | At(connections, m, i) && m !in todo && (m == mid ==> i < k) ::
          var name := connections[m][i].nic.name; name in places && places[name] == (m, i))
  }

  ghost predicate MachinesIndexed(connections: Connections, res: map<string, Connection>,
                                  places: map<string, (string, int)>, todo: set<string>) {
    && places.Keys == res.Keys
    && (forall name | name in res :: Placed(connections, res, places, name) && places[name].0 !in todo)
    && (forall m, i | At(connections, m, i) && m !in todo ::
          var name := connections[m][i].nic.name; name in places && places[name] == (m, i))
  }

  lemma IndexNextMachine(connections: Connections, res: map<string, Connection>, places: map<string, (string, int)>,
                         todo: set<string>, mid: string)
    requires mid in todo && MachinesIndexed(connections, res, places, todo)
    ensures Indexed(connections, res, places, todo - {mid}, mid, 0)
  {
  }

  lemma IndexOneMore(connections: Connections, res: map<string, Connection>, places: map<string, (string, int)>,
                     todo: set<string>, mid: string, k: nat)
    requires Indexed(connections, res, places, todo, mid, k) && At(connections, mid, k) && mid !in todo
    requires connections[mid][k].nic.name !in res
    ensures var con := connections[mid][k];
            Indexed(connections, res[con.nic.name := con], places[con.nic.name := (mid, k)], todo, mid, k + 1)
  {
  }

  /** By port name, each connection is found again - at the one place it stands at - unless two share a port. */
  method ByNicName(connections: Connections)
    returns (r: Result<map<string, Connection>, string>, ghost places: map<string, (string, int)>)
    ensures r.Ok? ==> forall mid, i | At(connections, mid, i) ::
                        var con := connections[mid][i];
                        con.nic.name in r.value && r.value[con.nic.name] == con
                        && con.nic.name in places && places[con.nic.name] == (mid, i)
    ensures r.Ok? ==>
              forall name | name in r.value ::
                exists mid, i | At(connections, mid, i) :: connections[mid][i].nic.name == name
    ensures r.Err? ==>
              exists mid, i, other, j |
                At(connections, mid, i) && At(connections, other, j) && (mid, i) != (other, j) ::
                connections[mid][i].nic.name == r.error == connections[other][j].nic.name
  {
    var res: map<string, Connection> := map[];
    places := map[];
    var todo := connections.Keys;
    while todo != {}
      invariant todo <= connections.Keys && MachinesIndexed(connections, res, places, todo)
      decreases todo
    {
      var mid :| mid in todo;
      IndexNextMachine(connections, res, places, todo, mid);
      todo := todo - {mid};
      var cons := connections[mid];
      for k := 0 to |cons|
        invariant Indexed(connections, res, places, todo, mid, k)
      {
        var name := cons[k].nic.name;
        if name in res {
          assert Placed(connections, res, places, name) && At(connections, mid, k);
          return Err(name), places;
        }
        IndexOneMore(connections, res, places, todo, mid, k);
        res := res[name := cons[k]];
        places := places[name := (mid, k)];
      }
    }
    r := Ok(res);
  }

  /** On a consistent switch no connection is reported as missing its port. */
  lemma NothingIsMissing(c: Config)
    requires Consistent(c)
    ensures forall mid, con | mid in c.connections && con in c.connections[mid] :: con.nic.name in Names(c.nics)
  {
    forall mid, con | mid in c.connections && con in c.connections[mid] ensures con.nic.name in Names(c.nics) {
      assert Has(c.nics, con.nic.name, con.nic.identifier);
    }
  }

  // ---------- the switch as an object ----------

  class Switch {
    const id: string
    const rack: string
    const vendor: PortNames.Vendor
    var nics: seq<Nic>
    var connections: Connections
    var operational: bool

    constructor (id: string, rack: string, vendor: PortNames.Vendor, nics: seq<Nic>)
      ensures this.id == id && this.rack == rack && this.vendor == vendor
      ensures Value() == Config(nics, map[]) && operational
    {
      this.id, this.rack, this.vendor, this.nics := id, rack, vendor, nics;
      connections, operational := map[], true;
    }

    function Value(): Config
      reads this
    {
      Config(nics, connections)
    }

    method Update(req: Option<seq<Option<Nic>>>) returns (accepted: bool)
      modifies this`nics
      ensures accepted == old(Accepts(Value(), req))
      ensures Value() == if accepted then old(Updated(Value(), req)) else old(Value())
    {
      accepted := Validate(req);
      if accepted && req.Some? {
        nics := Given(req.value);
      }
    }

    method Validate(req: Option<seq<Option<Nic>>>) returns (accepted: bool)
      ensures accepted == Accepts(Value(), req)
    {
      var given := if req.Some? then Given(req.value) else [];
      accepted := NoDuplicates(given);
      if given != [] {
        var removed, renamed := ValidateConnectedNics(nics, given, connections);
        ghost var o, n := ByKey(nics, Identifier), ByKey(given, Identifier);
        if id :| id in removed + renamed {
          assert Removed(id, o, n, connections) || Renamed(id, o, n, connections);
          assert !ConnectedKept(nics, given, connections);
        }
        accepted := accepted && removed == {} && renamed == {};
      }
    }

    method UpdateOnRegister(req: seq<Option<Nic>>) returns (accepted: bool)
      modifies this`nics
      ensures accepted == old(Accepts(Value(), Some(req)))
      ensures if accepted then RegisterUpdated(old(Value()), req, Value()) else Value() == old(Value())
    {
      accepted := Validate(Some(req));
      if accepted && req != [] {
        var oldNics := MapByKey(nics, Identifier);
        var newNics := MapByKey(Given(req), Identifier);
        var named := map id | id in newNics ::
          if id in oldNics then oldNics[id].(name := newNics[id].name) else newNics[id];
        var updated, order := Collect(named);
        nics := Sort(updated, Identifier);
      }
    }

    method ConnectMachine(mid: string, machineNics: seq<Nic>) returns (r: Result<nat, SwitchError>)
      modifies this`connections
      ensures var c := old(Connected(id, Value(), mid, machineNics));
              if c.Ok? then r == Ok(|Physical(machineNics, id, nics, mid)|) && Value() == c.value
              else r == Err(c.error) && Value() == old(Value())
    {
      var physical := GetPhysicalMachineConnections(mid, machineNics, id, nics);
      if |physical| < 1 {
        if mid in connections {
          return Err(OnlyInTheIndex);
        }
        return Ok(0);
      }
      connections := connections - {mid};
      connections := connections[mid := physical];
      r := Ok(|physical|);
    }

    method SetVrfOfMachine(mid: string, vrf: string)
      modifies this`nics
      ensures VrfSet(old(Value()), mid, vrf, Value())
    {
      var affected: set<string> := {};
      if mid in connections {
        var cons := connections[mid];
        for i := 0 to |cons|
          invariant affected == set con | con in cons[..i] :: con.nic.identifier
        {
          assert cons[..i + 1] == cons[..i] + [cons[i]];
          affected := affected + {cons[i].nic.identifier};
        }
        assert cons[..|cons|] == cons;
      }
      if affected == {} {
        return;
      }
      var byId := MapByKey(nics, Identifier);
      var tagged := map k | k in byId :: if k in affected then byId[k].(vrf := vrf) else byId[k];
      assert tagged == Retagged(nics, affected, vrf) by {
        forall k | k in byId ensures byId[k].identifier == k {
          ByKeyFinds(nics, Identifier, k);
        }
      }
      var retagged, order := Collect(tagged);
      nics := Sort(retagged, Identifier);
    }
  }
}
