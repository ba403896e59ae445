# A verified model of metal-apiserver's core

metal-apiserver manages bare-metal machines: it matches their hardware to sizes, tracks how they
are provisioned, knows at which switch ports they hang, hands them out to projects and decides what
an API token may do. This project models the parts of it that are algorithms or state machines and
proves what they promise, for every input, every map order and every interleaving.

Code that changes things step by step is a method or a class here (containers, records, tables,
switches, the mutex table, the size catalogue), with a loop wherever the source has one; its contract ties the
new state to a function of the old one, and the theorems are lemmas about these functions. A Go map
is traversed as `while todo != {} { var k :| k in todo; ... }`, so results hold for every order.
The results of `filepath.Match`, `path.Join`, `strings.Fields`, the tables of service permissions,
the memberships of a user and the faulty machines are parameters.

| modules | what is proved about |
|---|---|
| `Sizes`, `SizeCatalogue` | when hardware matches a size, when two sizes can both match, and what the overlap guard guarantees over any run of catalogue requests |
| `PortNames`, `Switches`, `Adoption`, `SwitchRuns`, `Migration`, `Reregistration` | port names of two vendors, the connection index over whole runs, the adoption of a configuration, the migration of a switch, and when index and machines agree afterwards |
| `ProvisioningEvents`, `Fsm`, `FsmRuns` | the transition table, runs of events with and without the bounded log, and the recovery of a machine |
| `Storage`, `Allocation`, `SharedMutex` | interleavings of clients with optimistic updates, and of mutex holders |
| `Reservations`, `Capacity`, `RackSpreading` | admission, capacity reports, and fairness across racks |
| `TokenPermissions`, `TokenRequests`, `Compaction` | effective permissions of a token, accepted requests, and compacted permission lists |
| `FilesystemLayouts` | the layers of an accepted disk layout |
| `Ordering`, `Wrappers` | string order, sorting, map orders; option and result types |

## What turned out false, and when it holds

- The overlap guard does not keep the catalogue unambiguous in general. A size that accepts zero
  graphics cards and one that does not mention them pass the guard and match the same hardware
  (`OptionalTypeIsAmbiguous`); so do two identifiers that admit a common model
  (`DifferentIdentifiersAreAmbiguous`), and even two identical sizes, if two of their constraints are
  about different models of one type (`IdenticalSizesAreAmbiguous`, exactly `CopyIsAcceptedExactly`).
  For all sizes, compatible ones collide, and those that collide satisfy a weaker condition
  (`CollisionExactly`), so a catalogue is unambiguous if no pair satisfies the weaker one and only if
  no pair is compatible (`ReachableCatalogueIsUnambiguous`). The two conditions are the same, and
  exact, unless a size has several identifiers for a type that another size constrains too; for such
  a size the guard is void (`TwoIdentifiersNeverOverlap`, `GuardIsVoid`). An overlap always means
  common hardware, if there is hardware for each of the two sizes at all (`OverlapMeansCollision`).
- A validated switch update can drop connected ports: a request that brings a list without a single
  port skips the check of the connected ports (`EmptyListDropsThePort`).
  `UpdateKeepsConsistencyExactly` and `RegisterKeepsConsistencyExactly` show that this is the only way.
- Adopting a configuration translates the port map twice, each time in another map order. If two
  ports translate to the same name (`swp1` and `swp1s0` both become `Ethernet0`), the index can end
  up with a port that the port list has lost. `AdoptionIsConsistentExactly` shows when it cannot.
- A migration recognises the neighbors to rewrite by port name and hardware address only. A neighbor
  on another switch with the same name and address is overwritten, so neighbors elsewhere stay
  exactly if they share these with no connection (`NeighborsAreUntouchedExactly`). Together with the
  two translations this decides whether index and machines agree afterwards
  (`MigrationAgreesExactly`); `OtherLeafIsOverwritten` is a machine at two leaves where they do not.
- The clamped sum of the reservation check depends on the order of the reservations exactly when
  some are overdrawn and others unused (`OrderMattersExactly`). It never exceeds what is unused, but
  may fall short of it (`ClampedVersusUnused`); admission and the capacity report then disagree
  (`AdmissionAgreesWithReport`).
- The mutex excludes others exactly as long as its holder's document is valid (`ExclusionExactly`):
  any holder that overstays can be joined (`ExpiredKeyIsTaken`), and its late unlock lets in yet
  another while the second is in time (`LateUnlockAdmitsAnother`), because unlock deletes by key.
- An accepted token request can widen the scope of the current token: the check lets every wildcard
  pass. It does so exactly on methods where the request holds a wildcard and the current token does
  not (`ScopeIsKeptExactly`); methods of projects and tenants never are among them without an admin
  role (`AcceptedRequestDoesNotWidenScope`), methods of machines can be (`UnscopedWildcardIsAccepted`).
- A round trip of port names through the other vendor is the identity only on names in canonical
  form (`RoundTripExactly`).
- A partition of variable size is documented to need the highest number. The code looks only at the
  partition whose number is the count of partitions (`VariableDiskIsAcceptedExactly`). So several may
  be variable (`SeveralVariablePartitionsAreAccepted`), and with a number zero the highest can have a
  fixed size (`NumberZeroHidesAFixedLast`). `HighestIsVariableExactly` says which accepted disks keep
  the rule; all that are numbered from one do (`LastPartitionIsVariable`).

## Model

| member | source | states |
|---|---|---|
| Sizes.CapacityOf | pkg/db/metal/size.go:306-332 | the capacity of the parts an identifier admits, summed in 64 bits, and exactly those parts |
| Sizes.ExhaustiveMatch | pkg/db/metal/size.go:289-304 | accepts iff every part is admitted by some constraint whose own capacity is in range |
| Sizes.Matches | pkg/db/metal/size.go:244-260 | a constraint matches iff the capacity of its type lies within its range |
| Sizes.MatchesSize | pkg/db/metal/size.go:190-209 | a size matches iff all constraints do and no part of any type is left uncovered |
| Sizes.MatchesAllTypes | pkg/db/metal/size.go:264-279 | no type of hardware has a part that no constraint of that type covers |
| Sizes.SizeFromHardware | pkg/db/metal/size.go:190-220 | the one matching size, or not found, or the number of matches |
| Sizes.PairsOverlap | pkg/db/metal/size.go:115-121 | two groups overlap iff every pair of their constraints does |
| Sizes.GroupsOverlap | pkg/db/metal/size.go:95-141 | one direction of the comparison, in any order of the types |
| Sizes.Overlap | pkg/db/metal/size.go:95-141 | two sizes overlap iff one is unconstrained, or they constrain the same types and all pairs of constraints of a type overlap |
| Sizes.Overlaps | pkg/db/metal/size.go:83-93 | finds a size of another id that overlaps iff there is one |
| Sizes.OneDeviceMore | pkg/db/metal/size.go:226-240 | a further cpu adds its cores and not its threads, a disk its size, a graphics card one, if its model or name matches; nothing else counts |
| Sizes.UnconstrainedSizeIsInTheWay | pkg/db/metal/size.go:95-99 | a size without constraints overlaps every other one, so it blocks any size of another id, although no hardware matches it |
| Sizes.OverlapIsSymmetric | pkg/db/metal/size.go:95-141 | the order of the two sizes does not matter |
| Sizes.CollisionMeansMayCollide | pkg/db/metal/size.go:190-332 | hardware that matches two sizes, whatever they constrain, makes the ranges of constraints that count the same parts meet, and lets each constraint that needs something be met by a model the other size covers |
| Sizes.MatchingSizesOverlap | pkg/db/metal/size.go:83-220 | any two sizes that match the same hardware overlap iff they constrain the same types with equal identifiers |
| Sizes.WitnessMatches | pkg/db/metal/size.go:244-332 | hardware built from the largest minimum of each shared type and a common model matches both compatible sizes, with core counts that fit 32 bits |
| Sizes.CollisionExactly | pkg/db/metal/size.go:95-332 | for any two sizes, being compatible implies common hardware, which implies the weaker condition; without several identifiers in one size for a shared type the two are the same, so that some hardware matches both iff they are compatible |
| Sizes.OverlapMeansCollision | pkg/db/metal/size.go:95-162 | two overlapping sizes, whatever they constrain, have common hardware iff there is hardware for each of them |
| Sizes.GuardIsExact | pkg/db/metal/size.go:95-162 | of the sizes it lets pass all compatible ones collide, and all that collide differ in a type or an identifier; without several identifiers in one size for a shared type being compatible is all it takes |
| Sizes.TwoIdentifiersNeverOverlap | pkg/db/metal/size.go:95-162 | a size with two identifiers for one type overlaps no constrained size |
| SizeCatalogue.ValidateSizeConstraints | pkg/repository/size-validation.go:105-139 | accepts iff every constraint is valid and at most one is about memory and one about cores |
| SizeCatalogue.Catalogue.Validate | pkg/repository/size-validation.go:141-158 | accepts iff the constraints are valid and no size of another id overlaps |
| SizeCatalogue.Catalogue.CreateSize | pkg/repository/size-validation.go:15-35 | a size is added iff it is valid, overlaps nothing and is new; otherwise nothing changes |
| SizeCatalogue.Catalogue.UpdateSize | pkg/repository/size-validation.go:37-66 | the constraints of an existing size change iff the guard accepts them; the error tells which |
| SizeCatalogue.Catalogue.DeleteSize | pkg/repository/size.go:95-102 | removes the size of that id and nothing else |
| SizeCatalogue.ReachableIsClean | pkg/repository/size-validation.go:141-158 | after every run of requests ids are unique, constraints valid and no two sizes overlap |
| SizeCatalogue.OnlyDifferentSizesMatch | pkg/db/metal/size.go:83-220 | after every run of requests two sizes that match the same hardware differ in a type or an identifier |
| SizeCatalogue.ReachableCatalogueIsUnambiguous | pkg/db/metal/size.go:190-220 | after every run of requests hardware matches one size at most if no pair satisfies the weaker condition, and only if no pair is compatible; an iff where no size has several identifiers for a type another one constrains |
| SizeCatalogue.GuardIsVoid | pkg/repository/size-validation.go:141-158 | a size with two identifiers for one type is accepted among constrained sizes iff its own constraints are valid |
| SizeCatalogue.OptionalTypeIsAmbiguous | pkg/db/metal/size.go:95-141 | two accepted sizes, one with an optional type, that both match one hardware |
| SizeCatalogue.DifferentIdentifiersAreAmbiguous | pkg/db/metal/size.go:144-162 | two accepted sizes with different identifiers that both match one hardware |
| SizeCatalogue.CopyIsAcceptedExactly | pkg/repository/size-validation.go:141-158 | the same constraints are accepted twice iff two of one type have different identifiers or disjoint ranges |
| SizeCatalogue.IdenticalSizesAreAmbiguous | pkg/db/metal/size.go:95-141 | two accepted sizes with the same constraints that both match one hardware |
| PortNames.AtoiUndoesItoa | pkg/db/metal/switch.go:305-376 | parsing a printed line number gives it back |
| PortNames.SonicParsesPrinted | pkg/db/metal/switch.go:305-376 | every printed SONiC name parses to its line |
| PortNames.SonicLinesAreNotNegative | pkg/db/metal/switch.go:305-326 | no SONiC name parses to a negative line |
| PortNames.CumulusParsesPrinted | pkg/db/metal/switch.go:328-393 | every printed Cumulus name parses to its line, whatever the other lines of the switch are |
| PortNames.PlainAndBrokenOutShareALine | pkg/db/metal/switch.go:328-372 | a port and its first breakout parse to the same line |
| PortNames.NegativeLineIsNotReprinted | pkg/db/metal/switch.go:328-393 | a name whose line overflowed is printed back differently |
| PortNames.TranslatePorts | pkg/db/metal/switch.go:211-239 | the same map for the same vendor, else a map keyed by the new names whose entries come from ports of that name, or an error if some name does not translate |
| PortNames.TranslationLosesNothing | pkg/db/metal/switch.go:211-239 | with distinct lines every port is found under its new name and no two share one |
| PortNames.TranslationKeepsSize | pkg/db/metal/switch.go:211-239 | with distinct lines the translated map has as many ports |
| PortNames.RoundTripExactly | pkg/db/metal/switch.go:211-393 | to the other vendor and back is the identity iff every name is the one this vendor prints for its line in this port set |
| PortNames.CanonicalComesBack | pkg/db/metal/switch.go:263-303 | on such names the way back never fails |
| Switches.MapByKey | pkg/db/metal/nic.go:45-65 | both nic maps: nics without the key are skipped and the last of equal keys stays |
| Switches.FilteredMembers | pkg/db/metal/nic.go:67-74 | the nics of a host, or all of them for an empty host name |
| Switches.ByNicName | pkg/db/metal/switch.go:148-159 | every connection is found under its port name, or two connections share that port |
| Switches.ValidateConnectedNics | pkg/repository/switch-validation.go:117-153 | exactly the connected ports that would disappear, and exactly those that would be renamed |
| Switches.ValidatorIsExact | pkg/repository/switch-validation.go:117-153 | a port list without duplicates passes iff no connection would lose its port |
| Switches.Switch.Validate | pkg/repository/switch-validation.go:43-87 | the verdict on an update request |
| Switches.Switch.Update | pkg/repository/switch.go:611-635 | an accepted request replaces the port list, anything else changes nothing |
| Switches.Switch.UpdateOnRegister | pkg/repository/switch.go:875-895 | an accepted registration leaves the ports of the request, known ones as they were but for the name, sorted by identifier |
| Switches.UpdateKeepsConsistencyExactly | pkg/repository/switch-validation.go:43-87 | an accepted update keeps every connection on a port of the switch unless its list holds no port and machines are connected |
| Switches.EmptyListDropsThePort | pkg/repository/switch-validation.go:76-80 | a switch with one connected port and the two requests, empty and with a nil entry, that drop it |
| Switches.RegisterKeepsConsistencyExactly | pkg/repository/switch.go:1102-1126 | the same for a registration |
| Switches.RegisteredPortsExactly | pkg/repository/switch.go:1102-1126 | a known port keeps its VRF and everything else but its name, a new port is there as given, there are no others, and they are sorted by identifier |
| Switches.GetPhysicalMachineConnections | pkg/db/metal/switch.go:396-411 | the list of ports the nics of a machine report, nic by nic and port by port |
| Switches.PhysicalExactly | pkg/db/metal/switch.go:396-411 | a connection is physical iff its port is one of the switch that some nic of the machine reports there by identifier |
| Switches.Switch.ConnectMachine | pkg/db/metal/switch.go:161-174 | replaces the connections of that machine by the physical ones; refuses if there are none but the index has some |
| Switches.ConnectKeepsConsistency | pkg/db/metal/switch.go:161-174 | connecting a machine never adds a connection without a port |
| Switches.ConnectingReplacesConnections | pkg/db/metal/switch.go:161-174 | the ports the machine sees now replace all its connections, ports and other machines stay; refused iff it sees none but has been connected |
| Switches.Switch.SetVrfOfMachine | pkg/db/metal/switch.go:176-199 | the ports afterwards, for any map order, and nothing else changed |
| Switches.SetVrfExactly | pkg/db/metal/switch.go:176-199 | exactly the ports the machine is connected to carry the VRF; none appears, and none disappears but one without identifier |
| Switches.VrfIsOnTheMachinesPorts | pkg/db/metal/switch.go:176-199 | a port carries the VRF iff one of the connections of this machine has its identifier, and is otherwise as before |
| Switches.SetVrfKeepsConsistency | pkg/db/metal/switch.go:176-199 | setting a VRF keeps every connection on its port |
| Switches.ConvertMachineConnections | pkg/repository/switch.go:1058-1100 | fails iff some connection has no port of its name, else lists every connection once with that port, sorted by port and then, stably, by machine |
| Switches.ShownExactly | pkg/repository/switch.go:1058-1100 | the list holds exactly the connections, by machine and for each machine by port |
| Switches.NothingIsMissing | pkg/repository/switch.go:1058-1086 | on a consistent switch the conversion reports no missing port |
| Adoption.TranslateNicMap | pkg/db/metal/switch.go:211-239 | the translated nic map of a switch, or an error iff some port name does not translate |
| Adoption.AdoptNics | pkg/repository/switch.go:1425-1459 | succeeds iff every old port has a counterpart; the ports are those of one translation, sorted, with the old VRFs |
| Adoption.AdoptMachineConnections | pkg/repository/switch.go:1461-1495 | succeeds iff every connected port has a counterpart; the index is the old one on the ports of one translation |
| Adoption.AdoptConfiguration | pkg/repository/switch.go:1407-1423 | succeeds iff both parts do, otherwise the new switch is untouched |
| Adoption.UnambiguousAdoptionIsConsistent | pkg/repository/switch.go:1407-1495 | if no two ports take the name of a connected port, every adopted connection names an adopted port |
| Adoption.AmbiguousAdoptionCanDangle | pkg/repository/switch.go:1407-1495 | if two do, some map orders leave a connection without its port |
| Adoption.AdoptionIsConsistentExactly | pkg/repository/switch.go:1407-1495 | the adopted index is consistent for every map order iff no two ports take the name of a connected port |
| Adoption.DistinctLinesAreUnambiguous | pkg/db/metal/switch.go:263-291 | distinct lines rule such ports out |
| Adoption.PlainAndBrokenOutCollide | pkg/repository/switch-validation.go:97-115 | a switch with two such ports passes the duplicate check |
| SwitchRuns.StepKeepsConsistency | pkg/repository/switch-validation.go:97-161 | each operation keeps every connection on a port of the switch |
| SwitchRuns.RunsNeverDangle | pkg/repository/switch.go:1058-1086 | over any run of updates, registrations, connects, VRF changes and adoptions no connection ever misses its port |
| Migration.AdjustMachineNics | pkg/repository/switch.go:1534-1557 | each connected neighbor is replaced by its new port, or an error iff one has no new port |
| Migration.AdjustMachineConnections | pkg/repository/switch.go:1512-1532 | all connected machines and no others are rewritten, in any order, or some machine is unknown or not movable |
| Migration.AdoptedIsMovable | pkg/repository/switch.go:1497-1532 | after the adoption the third translation succeeds and knows every connected port |
| Migration.Migrate | pkg/repository/switch.go:100-148 | succeeds iff ids are given, racks agree, the new switch has no connections, every old and connected port has a counterpart and all connected machines are known; then the adopted switch, the rewritten machines and an old switch without connections |
| Migration.ConnectionCountsAreKept | pkg/repository/switch.go:1461-1495 | every machine keeps as many connections as it had, in order |
| Migration.PortsCarryTheVrf | pkg/repository/switch.go:1425-1459 | each port of the new switch is one it had, with the VRF of the old port of its translated name if there is one |
| Migration.EveryPortHasItsCounterpart | pkg/repository/switch.go:1436-1451 | each old port has a counterpart that carries its VRF |
| Migration.NeighborsAreUntouchedExactly | pkg/repository/switch.go:1534-1566 | after a migration a neighbor on any switch but the new one is the same iff it shares name and address with no connection of its machine, and so is everything else of a machine nic |
| Migration.PortsStay | pkg/repository/switch.go:1425-1510 | the ports the adoption keeps translate to the names they had before, even where others were dropped |
| Reregistration.MapsAgree | pkg/repository/switch.go:1497-1510 | for connected names without a collision, the port map for the machines leads to the port the index was adopted with |
| Reregistration.PhysicalAgrees | pkg/repository/switch.go:1534-1566 | without stray neighbors, what the rewritten machine nics report on the new switch is what they reported on the old one, moved port by port |
| Reregistration.PhysicalGrows | pkg/repository/switch.go:1534-1566 | in any case they report no less, and as much only without stray neighbors |
| Reregistration.MachineAgrees | pkg/db/metal/switch.go:396-411 | after a migration the physical connections of a machine on the new switch are, as a multiset of name, identifier and hardware address, the adopted ones iff it has no stray neighbor |
| Reregistration.MigrationAgreesExactly | pkg/repository/switch.go:1407-1566 | they are for all machines in every run iff no two ports of the new switch take the name of a connected port and there are no stray neighbors |
| Reregistration.OtherLeafIsOverwritten | pkg/repository/switch.go:1559-1566 | a machine at two leaves of equal port names, whose neighbor on the leaf that stays is overwritten and whose index disagrees after a migration |
| ProvisioningEvents.Container.TrimEvents | pkg/db/metal/provisioning-event.go:91-95 | keeps the newest events and everything else |
| ProvisioningEvents.Container.Validate | pkg/db/metal/provisioning-event.go:97-119 | accepts iff the log is ordered by time and not newer than its last event time |
| ProvisioningEvents.TrimmedIsChronological | pkg/db/metal/provisioning-event.go:91-119 | trimming keeps a valid log valid |
| Fsm.UpdateTimeAndLiveliness | pkg/fsm/states/states.go:86-89 | the whole container after noting an event |
| Fsm.AppendEventToContainer | pkg/fsm/states/states.go:81-84 | the whole container after storing an event |
| Fsm.EnterState | pkg/fsm/states/phoned-home.go:23-38 | the whole container after entering any of the states, or an error and no change |
| Fsm.HandleProvisioningEvent | pkg/fsm/fsm.go:20-71 | a new container holds the outcome for the rebuilt state, the given one is not touched |
| Fsm.TransitionTable | pkg/fsm/events.go:13-149 | the table, where a later row overrides an earlier one, sends each event in each state exactly there |
| FsmRuns.DestinationIsStateOf | pkg/fsm/fsm.go:82-90 | the state rebuilt from a stored event is the one named like it |
| FsmRuns.HandleIsStep | pkg/fsm/fsm.go:39-68 | exactly the known events are handled, none with an error, and the machine never falls back to the initial state |
| FsmRuns.StoredOrKept | pkg/fsm/fsm.go:51-90 | an event is stored in front or not at all, Alive never; the next rebuilt state is the old one or the destination of the event |
| FsmRuns.VerdictDecidesStep | pkg/fsm/states/crashed.go:23-27 | which event in which state sets or clears the crash loop |
| FsmRuns.EventIsNotedUnlessIgnored | pkg/fsm/states/states.go:81-99 | nothing changes for a phoned home event that is buffered or within five minutes of the reclaim; any other event leaves the machine alive with the time of the event, and is stored unless the newest one says the same |
| FsmRuns.LastErrorIsCrashOrUnexpected | pkg/fsm/fsm.go:51-66 | the last error becomes the event on a crash, the marked event on an unexpected one, and stays otherwise |
| FsmRuns.MarkIsInFront | pkg/fsm/fsm.go:51-66 | the mark stands in front of the message and changes nothing else |
| FsmRuns.ReclaimFailsExactly | pkg/fsm/states/phoned-home.go:23-38 | the flag is set exactly by a phoned home event in the reclaim that is more than five minutes late, and cleared exactly by entering or staying in PXE booting and preparing, unless the event is swallowed |
| FsmRuns.CrashLoopIsLastVerdict | pkg/fsm/states/planned-reboot.go:23-26 | after any run the crash loop is what the last deciding event said |
| FsmRuns.TrimmedRunRefinesRun | pkg/db/metal/provisioning-event.go:91-95 | a run on a bounded log has the same scalar fields, the same state and the newest events of the unbounded run |
| FsmRuns.StepStaysHealthy | pkg/db/metal/provisioning-event.go:97-119 | an event in time order keeps the log valid, its time growing and free of Alive |
| FsmRuns.EventService.SendEvent | pkg/repository/machine.go:115-145 | the container of that machine is replaced by the handled, validated and trimmed one, or nothing is |
| FsmRuns.ServiceRunRefinesUnboundedRun | pkg/repository/machine.go:115-145 | every run of known events in time order succeeds and stores what the unbounded run holds, cut to the first hundred events |
| FsmRuns.LastEventTimeNeverDecreases | pkg/repository/machine.go:115-145 | the stored time never goes back along such a run |
| FsmRuns.InstallationStabilises | pkg/fsm/events.go:13-149 | from any container one installation ends in PhonedHome with both flags cleared, and keeps the last error if it started where PXE booting is expected |
| Storage.Table.Create | pkg/db/generic/storage.go:34-69 | inserts a new row with generation zero and a fresh time, or reports a conflict |
| Storage.Table.Get | pkg/db/generic/storage.go:154-177 | a fresh copy of the row, or not found |
| Storage.Table.Update | pkg/db/generic/storage.go:183-210 | replaces the row iff it still has the time the copy was read with; the copy is stamped either way |
| Allocation.RunKeepsInv | pkg/db/generic/storage.go:183-210 | in every interleaving each held copy stems from the version its time names, or can no longer be written |
| Allocation.UpdateReplacesItsBasis | pkg/db/generic/storage.go:183-210 | a successful update replaces the very version it was computed from and raises its generation by one |
| Allocation.WriteLeaves | pkg/repository/machine.go:1607-1615 | field by field what each kind of write leaves: allocating and releasing clear the preallocation, the waiting flag and edits change only their own fields |
| Allocation.ReleasedMachineIsFoundAgain | pkg/repository/machine.go:1770-1796 | a released machine that is waiting and available is won by the next undisturbed search |
| Allocation.RowsAfter | pkg/db/generic/storage.go:34-69 | only a successful write changes a stored machine; a created one has a newer time than all others and generation zero |
| Allocation.EveryActionIsAnAllocationStep | pkg/repository/machine-create.go:232-247 | an allocation is only ever written over none, and only cleared by a release that names it |
| Allocation.AllocationLastsUntilItsRelease | pkg/repository/machine.go:1770-1796 | an allocation stays until a release of this very allocation or the deletion of the machine |
| Allocation.GenerationCountsUpdates | pkg/db/generic/storage.go:183-210 | the generation counts the successful updates since any earlier moment |
| Allocation.VersionIsWonOnce | pkg/db/generic/storage.go:183-210 | no version of a machine is replaced twice |
| Allocation.SearchesWinApart | pkg/repository/machine-create.go:332-411 | between two searches that win the same machine it was handed out, given back or deleted, even if the mutex failed |
| Allocation.Perform | pkg/repository/machine-create.go:232-247 | fetch, check and write as one client does it, with the outcome of each step |
| Allocation.UndisturbedClientPerforms | pkg/repository/machine-create.go:232-247 | without interference the three steps succeed and have that effect |
| SharedMutex.MutexTable.Insert | pkg/db/generic/shared_mutex.go:97-173 | a document is inserted iff its key is free |
| SharedMutex.MutexTable.Unlock | pkg/db/generic/shared_mutex.go:175-180 | the document of the key is deleted, whoever owns it |
| SharedMutex.MutexTable.DeleteExpired | pkg/db/generic/shared_mutex.go:191-214 | exactly the expired documents are deleted |
| SharedMutex.RunKeepsOwned | pkg/db/generic/shared_mutex.go:97-214 | while holders leave in time, every holder's document is there and its own |
| SharedMutex.MutualExclusion | pkg/db/generic/shared_mutex.go:97-214 | in every interleaving in which holders leave in time a key has one holder at most |
| SharedMutex.ExpiredKeyIsTaken | pkg/db/generic/shared_mutex.go:97-214 | after any run, once the document of a key has expired any process can take the key, whoever holds it |
| SharedMutex.ExclusionExactly | pkg/db/generic/shared_mutex.go:97-214 | a holder that stays until some limit can be joined by another process iff the limit lies beyond the expiration of its document |
| SharedMutex.OverstayAdmitsTwo | pkg/db/generic/shared_mutex.go:191-214 | an example of a holder that overstays and shares its key |
| SharedMutex.LateUnlockAdmitsAnother | pkg/db/generic/shared_mutex.go:175-180 | after any run with two holders, the unlock of one lets in a third beside the other |
| SharedMutex.LateUnlockAdmitsTwo | pkg/db/generic/shared_mutex.go:175-180 | in that example both remaining holders are in time |
| RackSpreading.GroupByRack | pkg/repository/machine-rack-spreading.go:45-53 | the machines of each rack, in order |
| RackSpreading.GroupByTags | pkg/repository/machine-rack-spreading.go:107-118 | the machines of each tag, once for every time they carry it |
| RackSpreading.FilterGroups | pkg/repository/machine-rack-spreading.go:65-76 | the groups of the given keys |
| RackSpreading.GetMachines | pkg/repository/machine-rack-spreading.go:55-63 | all grouped machines in some order of the groups |
| RackSpreading.ElectRacks | pkg/repository/machine-rack-spreading.go:79-105 | exactly the available racks of least occupancy, each once |
| RackSpreading.Intersect | pkg/repository/machine-rack-spreading.go:129-139 | the common elements |
| RackSpreading.SpreadAcrossRacks | pkg/repository/machine-rack-spreading.go:22-41 | exactly the available machines in the racks least occupied by tags and by project, or by tags alone if these have nothing in common; none only if there are none |
| RackSpreading.CandidatesExactly | pkg/repository/machine-rack-spreading.go:22-41 | a machine is a candidate, as often as it is available, iff no rack has fewer machines with the tags and, if one of those racks also has the fewest of the project, its rack has |
| RackSpreading.TagHitsArePositions | pkg/repository/machine-rack-spreading.go:107-118 | a machine counts once for each of its tags that is wanted |
| RackSpreading.ChosenIsOccupied | pkg/repository/machine-rack-spreading.go:22-41 | the chosen racks hold available machines |
| RackSpreading.UntaggedChoosesLeastByProject | pkg/repository/machine-rack-spreading.go:22-41 | without tags the racks least used by the project are chosen |
| RackSpreading.PickKeepsBalance | pkg/repository/machine-rack-spreading.go:12-41 | one untagged allocation keeps the racks within one machine of each other |
| RackSpreading.AllocationsStayBalanced | pkg/repository/machine-rack-spreading.go:12-41 | so does any number of them, whatever is drawn, while every rack has machines available |
| Reservations.CheckSizeReservations | pkg/repository/size-reservation.go:218-239 | accepts iff the project has an unused reservation or the clamped sum of all slack is below the number available |
| Reservations.SmallCases | pkg/repository/size-reservation.go:218-239 | without machines an own reservation must be left, without reservations a machine is enough, and one foreign reservation holds back what it leaves unused |
| Reservations.ClampedIsLargestSuffixSum | pkg/repository/size-reservation.go:218-239 | the clamped sum is the largest sum over a suffix of the reservations |
| Reservations.ClampedVersusUnused | pkg/repository/size-reservation.go:218-239 | it never exceeds what is unused, and equals it iff no unused reservation is followed by an overdrawn one |
| Reservations.OrderMattersExactly | pkg/repository/size-reservation.go:218-239 | it is the same for every order of the reservations iff they are not partly unused and partly overdrawn |
| Capacity.CountMachines | pkg/repository/partition.go:328-393 | each line counts the machines of its partition and size, figure by figure |
| Capacity.OneMachineMore | pkg/repository/partition.go:328-393 | what a further machine adds to the figures of its line, spelled out, while other lines stay |
| Capacity.Capacity | pkg/repository/partition.go:320-439 | a line for every partition and size with machines, with reservations applied |
| Capacity.ReportAddsUp | pkg/repository/partition.go:364-428 | every line adds up by allocation and by last event, uses no more than is reserved, and its free machines are what others leave |
| Capacity.OneReservationMore | pkg/repository/partition.go:396-428 | what a further reservation changes: it is used by the machines of its project there, and the rest is taken from the free machines of other projects |
| Capacity.OwnReservationsLeaveFreeAlone | pkg/repository/partition.go:417-419 | a project sees as many free machines as it would without its own reservations, used or not |
| Capacity.AdmissionAgreesWithReport | pkg/repository/size-reservation.go:218-239 | without an own unused reservation, check and report agree for every number of machines iff no unused reservation is followed by an overdrawn one |
| Capacity.NobodyOverReservation | pkg/repository/partition.go:396-428 | if nobody is over a reservation, a project is admitted iff it has an unused one or the report shows a free machine |
| TokenPermissions.GetTokenPermissions | pkg/request/tokenpermissions.go:44-222 | the subjects a token reaches with each method, in any map order, and the token as the evaluation leaves it |
| TokenPermissions.GrantToken | pkg/request/tokenpermissions.go:75-150 | all grants of a token: by admin, infra and machine role, permission, tenant and project |
| TokenPermissions.ReduceWildcards | pkg/request/tokenpermissions.go:152-176 | a wildcard becomes the subjects of the user's own memberships |
| TokenPermissions.FilterSubjects | pkg/request/tokenpermissions.go:178-201 | only members, the wildcard and the empty subject are left |
| TokenPermissions.Authorize | pkg/request/authorize.go:80-117 | permits iff the method is known and reached with the wildcard or with this subject |
| TokenPermissions.SubjectsStayWithinMemberships | pkg/request/tokenpermissions.go:152-201 | a token without admin role reaches only the user's projects and tenants and the empty subject |
| TokenPermissions.GrantedIsMonotone | pkg/request/tokenpermissions.go:98-150 | more roles and permissions never grant less |
| TokenPermissions.PermitsIsMonotone | pkg/request/tokenpermissions.go:44-222 | an api token with more roles and permissions permits everything it did before |
| TokenPermissions.AnonymousReachesPublicMethods | pkg/request/tokenpermissions.go:50-57 | without a token exactly the known public methods are permitted, on any subject |
| TokenPermissions.UserTokenIsItsMemberships | pkg/request/tokenpermissions.go:64-73 | a user token permits the public and self methods and what the memberships permit, whatever roles and permissions it carries |
| TokenPermissions.EditorReachesEverything | pkg/request/tokenpermissions.go:76-95 | an admin editor permits exactly the known methods, an unspecified admin role nothing |
| TokenPermissions.ViewerExactly | pkg/request/tokenpermissions.go:86-90 | an admin viewer permits the viewer methods and all other wildcards everywhere, and single subjects where the user is a member |
| TokenPermissions.ProjectOrTenantMethodExactly | pkg/request/tokenpermissions.go:98-201 | an api token without admin role reaches a project or tenant iff the user is a member and the token names it, or names all and the membership includes the method |
| TokenPermissions.OtherMethodExactly | pkg/request/tokenpermissions.go:98-150 | on other methods it reaches the subjects it names, and all of them with a wildcard |
| TokenPermissions.MembersUseTheirRoles | pkg/request/tokenpermissions.go:126-150 | a member permits the methods of its role on its project or tenant |
| TokenRequests.ValidateTokenRequest | pkg/repository/token-validation.go:198-323 | accepts iff all requested roles and permissions are within the reach of the current token |
| TokenRequests.OwnScopeIsAcceptable | pkg/repository/token-validation.go:198-323 | an api token without admin role may request what it has |
| TokenRequests.AcceptedRolesAreHeld | pkg/repository/token-validation.go:198-283 | an accepted request names known methods, specified roles, and only subjects the current token has roles for, unless it has one for every subject |
| TokenRequests.ScopeIsKeptExactly | pkg/repository/token-validation.go:284-323 | on any method an accepted token permits only what the current one permits iff it holds no wildcard there or the current one does too |
| TokenRequests.WildcardOfRequest | pkg/request/tokenpermissions.go:98-201 | without an admin role a request holds a wildcard on a method iff the method is of neither projects nor tenants and the infra role, a permission or a role for every subject includes it |
| TokenRequests.RequestKeepsScopeExactly | pkg/repository/token-validation.go:284-323 | the same condition read off the request |
| TokenRequests.AcceptedRequestDoesNotWidenScope | pkg/repository/token-validation.go:198-323 | on project and tenant methods the current token permits whatever an accepted token without admin role does |
| TokenRequests.UnscopedWildcardIsAccepted | pkg/repository/token-validation.go:284-323 | on a method of neither, a token that reaches some subject may request, and gets, all of them |
| TokenRequests.MachineWidensItsScope | pkg/repository/token-validation.go:284-323 | for example a token for one machine a token for every machine |
| Compaction.SortUniq | pkg/repository/token.go:603-606 | the strictly sorted list of the same methods |
| Compaction.CompactPermissions | pkg/repository/token.go:475-601 | one entry per visibility and subject, in order of appearance, with strictly sorted methods and nothing added or lost |
| Compaction.FlattenPermissions | pkg/repository/token.go:429-473 | entry by entry the permission with its subject |
| Compaction.EntriesGrantTheirSubject | pkg/repository/token.go:429-473 | an entry grants its methods on its own machine, project or tenant, or on the empty subject |
| Compaction.CompactionKeepsGrants | pkg/repository/token.go:429-601 | compacted permissions grant the same subjects and methods |
| Compaction.CompactionIsUniqueAndIdempotent | pkg/repository/token.go:475-607 | the result is determined by the input, and compacting it again changes nothing |
| FilesystemLayouts.ValidateDisk | pkg/db/metal/filesystem.go:418-446 | accepts iff numbers are within the count and distinct, types supported, and, with a variable partition, no partition of fixed size has the count as its number |
| FilesystemLayouts.ValidateDisks | pkg/db/metal/filesystem.go:175-190 | the disks are valid and provide themselves and their partitions |
| FilesystemLayouts.PartitionNameExactly | pkg/db/metal/filesystem.go:175-190 | of one disk with one partition a filesystem can lie on the disk or on the partition under its one name |
| FilesystemLayouts.NvmePartitionsHaveAP | pkg/db/metal/filesystem.go:182-188 | that name has a "p" in front of the number on nvme devices and on no other |
| FilesystemLayouts.ValidateRaids | pkg/db/metal/filesystem.go:195-209 | every array is built from what earlier entries provide |
| FilesystemLayouts.ValidateGroups | pkg/db/metal/filesystem.go:211-220 | every volume group is, and the number of its devices is known |
| FilesystemLayouts.ValidateVolumeSizes | pkg/db/metal/filesystem.go:450-461 | only the last logical volume is variable |
| FilesystemLayouts.ValidateVolumes | pkg/db/metal/filesystem.go:226-240 | every volume lies on a known group, a mirrored or striped one on a group of two or more devices |
| FilesystemLayouts.ValidateFilesystems | pkg/db/metal/filesystem.go:243-260 | every filesystem lies on what is provided, except in memory, with a supported format and options |
| FilesystemLayouts.Validate | pkg/db/metal/filesystem.go:167-268 | accepts iff every layer uses only what lower layers provide and every entry is sound |
| FilesystemLayouts.AcceptedLayoutIsGrounded | pkg/db/metal/filesystem.go:167-268 | in an accepted layout every chain of devices is finite and ends at disks, partitions or empty member lists |
| FilesystemLayouts.MirroredVolumesHaveTwoDevices | pkg/db/metal/filesystem.go:227-240 | mirrored and striped volumes sit on groups of two devices at least, if group names are distinct |
| FilesystemLayouts.PartitionNumbersAreComplete | pkg/db/metal/filesystem.go:418-446 | partitions numbered from one use every number up to their count |
| FilesystemLayouts.VariableDiskIsAcceptedExactly | pkg/db/metal/filesystem.go:418-446 | with numbers that fit and differ, a disk with a variable partition is accepted iff no partition has the count as its number or a variable one has |
| FilesystemLayouts.HighestIsVariableExactly | pkg/db/metal/filesystem.go:146-155 | an accepted disk with a variable partition has one with the highest number iff its last number is used or the one before is variable |
| FilesystemLayouts.NumberZeroHidesAFixedLast | pkg/db/metal/filesystem.go:418-446 | an accepted disk, numbered from zero, whose highest number has a fixed size |
| FilesystemLayouts.LastPartitionIsVariable | pkg/db/metal/filesystem.go:418-446 | of partitions numbered from one, if any is variable then the one with the highest number is |
| FilesystemLayouts.SeveralVariablePartitionsAreAccepted | pkg/db/metal/filesystem.go:418-446 | of two partitions, numbered one and two, the first variable, the disk is accepted iff the second is variable as well |

## Left out

- HTTP and connect services, interceptors, the command line, OIDC, auditing, health checks, headscale
  and redis clients: input and output around the modelled logic.
- go-ipam prefix allocation, semver constraints and address set compaction: their hard part lies in
  libraries. `FilesystemLayoutConstraints.validate` is a boolean in the layout, `hasCollisions` and
  image selection are not part of this model.
- Conversions between protobuf and internal types, query builders and enum mappings; a failing
  conversion of a request is not modelled.
- `rollback` after a failed machine creation: it clears whatever allocation the machine carries, so
  nothing is claimed for runs that contain it.
- `releaseAsnTask` and the release of a VRF with its network: no conservation of the pools is claimed.
- Liveness of mutex waiters: a release between a failed insert and the change feed may be missed, and
  only the acquire timeout follows.
- `replace` and `findTwinSwitch`: how a twin is found; what it hands over is `AdoptConfiguration`.
- `ConnectMachineWithSwitches`: its check of corresponding ports looks at the ports of any machine;
  only the connection of one machine with one switch is modelled.
- The state and BGP fields of switch nics, and a port's desired status.
- The container that machine registration seeds with an Alive event: runs start from the container
  `SendEvent` creates.
- The randomly drawn machine of `selectMachine`: it can be any candidate.
- Sizes.CollisionExactly: for sizes with several identifiers for a type both constrain it gives a
  necessary and a sufficient condition, not one that is both. Whether hardware fits them is a transport
  problem - amounts per group of models with bounds on overlapping sums - that has no condition
  simpler than solving it.
- Sizes.GuardIsExact: the same, and so for SizeCatalogue.ReachableCatalogueIsUnambiguous.
- Capacity.Capacity: counts are modelled on values, so a line is replaced rather than incremented in
  place; the lists of faulty and other machines and the order of lines are not part of it. The
  project filter of the request is an optional project.
- Capacity.AdmissionAgreesWithReport: speaks of the allocatable machines as candidates; the search
  itself passes all waiting candidates to the check, before it drops those whose events are not alive.
- TokenPermissions.GetTokenPermissions: tokens are values; the returned token shows what the code
  leaves in the caller's object.
- Storage.Table.Update: every write gets a fresh time, as one atomic step, and generations do not
  wrap at 64 bits.
- Allocation.Perform: an allocation is its uuid; of the other fields only those the searches look at
  are distinguished. Writes that take no timestamp into account (`Upsert`) do not occur on machines.
- SizeCatalogue.Catalogue.CreateSize: validation and write are one step; two concurrent creates can
  still pass the guard together.
- SizeCatalogue.Catalogue.DeleteSize: the check that nothing refers to the size any more comes before it
  and is not part of the model; a run may delete any size.
- Migration.Migrate: one migration without concurrent writers; the optimistic checks of its updates
  are those of `Storage`. After an error some machines may already be rewritten.
- FilesystemLayouts.ValidateDisk: a partition number above the number of partitions makes the code
  index outside its slice; here that is an error outcome of its own.
- Error messages, logging and the wording of violations; errors are told apart by kind only.
