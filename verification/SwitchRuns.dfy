/** Whole runs of one switch: which requests can ever leave a connection without its port. */
module SwitchRuns {
  import opened Wrappers
  import opened PortNames
  import opened Switches
  import opened Adoption

  datatype Op =
    | Update(req: Option<seq<Option<Nic>>>)
    | UpdateOnRegister(nics: seq<Option<Nic>>)
    | Connect(mid: string, machineNics: seq<Nic>)
    | Forget(mid: string)
    | SetVrf(mid: string, vrf: string)
    | Adopt(twin: Config, twinVendor: Vendor)

  /** A refused operation leaves the switch as it was. */
  ghost predicate Step(id: string, vendor: Vendor, c: Config, op: Op, d: Config) {
    match op
    case Update(req) => d == if Accepts(c, req) then Updated(c, req) else c
    case UpdateOnRegister(nics) => if Accepts(c, Some(nics)) then RegisterUpdated(c, nics, d) else d == c
    case Connect(mid, machineNics) => d ==
      if Connected(id, c, mid, machineNics).Ok? then Connected(id, c, mid, machineNics).value else c
    case Forget(mid) => d == c.(connections := c.connections - {mid})
    case SetVrf(mid, vrf) => VrfSet(c, mid, vrf, d)
    case Adopt(twin, twinVendor) =>
      if Adoptable(twin, twinVendor, c.nics, vendor) then
        exists forNics, forIndex ::
          Translation(c.nics, vendor, twinVendor, forNics) && Translation(c.nics, vendor, twinVendor, forIndex)
                                    && Adopted(twin, forNics, forIndex, d)
      else d == c
  }

  /** What the callers have to see to: a list of ports holds a port, an adopting switch has no colliding ports. */
  ghost predicate Sound(vendor: Vendor, c: Config, op: Op) {
    match op
    case Update(req) => req.None? || Given(req.value) != [] || !HasConnections(c.connections)
    case UpdateOnRegister(nics) => nics == [] || Given(nics) != [] || !HasConnections(c.connections)
    case Adopt(twin, twinVendor) => Identified(c.nics)
      && Unambiguous(c.nics, vendor, twinVendor, ConnectedNames(twin.connections))
    case _ => true
  }

  lemma StepKeepsConsistency(id: string, vendor: Vendor, c: Config, op: Op, d: Config)
    requires Consistent(c) && Step(id, vendor, c, op, d) && Sound(vendor, c, op)
    ensures Consistent(d)
  {
    match op
    case Update(req) =>
      if Accepts(c, req) { UpdateKeepsConsistencyExactly(c, req); }
    case UpdateOnRegister(nics) =>
      if Accepts(c, Some(nics)) { RegisterKeepsConsistencyExactly(c, nics, d); }
    case Connect(mid, machineNics) =>
      if Connected(id, c, mid, machineNics).Ok? { ConnectKeepsConsistency(id, c, mid, machineNics); }
    case Forget(mid) =>
    case SetVrf(mid, vrf) => SetVrfKeepsConsistency(c, mid, vrf, d);
    case Adopt(twin, twinVendor) =>
      if Adoptable(twin, twinVendor, c.nics, vendor) {
        var forNics, forIndex :| Translation(c.nics, vendor, twinVendor, forNics)
          && Translation(c.nics, vendor, twinVendor, forIndex)
                                 && Adopted(twin, forNics, forIndex, d);
        UnambiguousAdoptionIsConsistent(twin, c.nics, vendor, twinVendor, forNics, forIndex, d);
      }
  }

  ghost predicate Run(id: string, vendor: Vendor, states: seq<Config>, ops: seq<Op>) {
    && |states| == |ops| + 1
    && forall i | 0 <= i < |ops| ::
      Step(id, vendor, states[i], ops[i], states[i + 1]) && Sound(vendor, states[i], ops[i])
  }

  /** From a consistent switch no run ever shows a connection whose port is missing. */
  lemma {:induction false} RunsNeverDangle(id: string, vendor: Vendor, states: seq<Config>, ops: seq<Op>, i: nat)
    requires Run(id, vendor, states, ops) && Consistent(states[0]) && i < |states|
    ensures Consistent(states[i])
    ensures forall mid, con | mid in states[i].connections && con in states[i].connections[mid] ::
              con.nic.name in Names(states[i].nics)
  {
    if i > 0 {
      RunsNeverDangle(id, vendor, states, ops, i - 1);
      StepKeepsConsistency(id, vendor, states[i - 1], ops[i - 1], states[i]);
    }
    NothingIsMissing(states[i]);
  }
}
