/**
 Filesystem layouts: disks with partitions, raid arrays, volume groups, logical volumes and filesystems on
 top of each other. Path joining and the splitting at white space are parameters, and so is the outcome of
 the size and image constraints.
 */
module FilesystemLayouts {
  import opened Wrappers
  import PortNames

  datatype Library = Library(join: (string, string) -> string, fields: string -> nat)

  datatype Partition = Partition(number: nat, size: nat, gptType: Option<string>)
  datatype Disk = Disk(device: string, partitions: seq<Partition>)
  datatype Raid = Raid(arrayName: string, devices: seq<string>, level: string)
  datatype VolumeGroup = VolumeGroup(name: string, devices: seq<string>)
  datatype LvmType = Linear | Striped | Raid1 | OtherLvmType(name: string)
  datatype LogicalVolume = LogicalVolume(name: string, volumeGroup: string, size: nat, lvmType: LvmType)
  datatype Filesystem = Filesystem(device: string, format: string, createOptions: seq<string>)
  datatype Layout = Layout(filesystems: seq<Filesystem>, disks: seq<Disk>, raids: seq<Raid>,
                           volumeGroups: seq<VolumeGroup>, logicalVolumes: seq<LogicalVolume>, constraintsValid: bool)

  const TMPFS := "tmpfs"
  const FORMATS := {"vfat", "ext3", "ext4", "swap", TMPFS, "none"}
  const GPT_TYPES := {"ef00", "8300", "8e00", "fd00"}
  const RAID_LEVELS := {"0", "1"}

  datatype LayoutError =
    | IndexOutOfRange  // the Go runtime panics
    | NumberTwice | GptTypeUnsupported | VariableNotLast | DeviceMissing | RaidLevelUnsupported
    | VolumeGroupMissing | TooFewDevices | FormatUnsupported | OptionNotSplit | ConstraintsInvalid

  predicate SupportedFormat(format: string) {
    format in FORMATS
  }

  predicate SupportedGptType(gptType: string) {
    gptType in GPT_TYPES
  }

  predicate SupportedRaidLevel(level: string) {
    level in RAID_LEVELS
  }

  // ---------- disks ----------

  /** The size under a partition number, zero if there is none. */
  function SizeOf(partitions: seq<Partition>, number: nat): nat {
    if partitions == [] then 0
    else if partitions[|partitions| - 1].number == number then partitions[|partitions| - 1].size
    else SizeOf(partitions[..|partitions| - 1], number)
  }

  predicate Fits(p: Partition, n: nat) {
    p.number <= n && (p.gptType.Some? ==> SupportedGptType(p.gptType.value))
  }

  predicate DistinctNumbers(partitions: seq<Partition>) {
    forall i, j :: 0 <= i < j < |partitions| ==> partitions[i].number != partitions[j].number
  }

  /** A partition of size zero takes the rest of the disk. */
  predicate HasVariable(partitions: seq<Partition>) {
    partitions != [] && (partitions[|partitions| - 1].size == 0 || HasVariable(partitions[..|partitions| - 1]))
  }

  predicate DiskValid(d: Disk) {
    && (forall k :: 0 <= k < |d.partitions| ==> Fits(d.partitions[k], |d.partitions|))
    && DistinctNumbers(d.partitions)
    && (HasVariable(d.partitions) ==> SizeOf(d.partitions, |d.partitions|) == 0)
  }

  function Numbers(partitions: seq<Partition>): set<nat> {
    set p | p in partitions :: p.number
  }

  lemma OnePartitionMore(partitions: seq<Partition>, i: nat)
    requires i < |partitions|
    ensures var done, p := partitions[..i], partitions[i];
            && Numbers(partitions[..i + 1]) == Numbers(done) + {p.number}
            && (DistinctNumbers(partitions[..i + 1]) <==> DistinctNumbers(done) && p.number !in Numbers(done))
            && (HasVariable(partitions[..i + 1]) <==> HasVariable(done) || p.size == 0)
            && (DistinctNumbers(partitions) ==> DistinctNumbers(partitions[..i + 1]))
  {
    var done, p := partitions[..i], partitions[i];
    assert partitions[..i + 1] == done + [p] && partitions[..i + 1][..i] == done;
    if p.number !in Numbers(done) {
      assert forall k :: 0 <= k < i ==> done[k] in done;
    } else {
      var q :| q in done && q.number == p.number;
    }
  }

  lemma SizeOneMore(partitions: seq<Partition>, i: nat, k: nat)
    requires i < |partitions|
    ensures SizeOf(partitions[..i + 1], k) ==
            if k == partitions[i].number then partitions[i].size else SizeOf(partitions[..i], k)
  {
    assert partitions[..i + 1][..i] == partitions[..i];
  }

  method ValidateDisk(d: Disk) returns (error: Option<LayoutError>)
    ensures error.None? <==> DiskValid(d)
  {
    hide Numbers, DistinctNumbers, HasVariable, SizeOf, SupportedGptType;
    var n := |d.partitions|;
    var partNumbers: set<nat> := {};
    var parts := new nat[n + 1](i => 0);
    var hasVariablePartition := false;
    NoPartitions(d.partitions);
    for i := 0 to n
      invariant partNumbers == Numbers(d.partitions[..i]) && DistinctNumbers(d.partitions[..i])
      invariant forall k :: 0 <= k <= n ==> parts[k] == SizeOf(d.partitions[..i], k)
      invariant hasVariablePartition <==> HasVariable(d.partitions[..i])
      invariant forall k :: 0 <= k < i ==> Fits(d.partitions[k], n)
    {
      var p := d.partitions[i];
      OnePartitionMore(d.partitions, i);
      if p.size == 0 {
        hasVariablePartition := true;
      }
      if p.number > n {
        assert !Fits(d.partitions[i], n);
        return Some(IndexOutOfRange);
      }
      parts[p.number] := p.size;
      forall k: nat | k <= n ensures parts[k] == SizeOf(d.partitions[..i + 1], k) {
        SizeOneMore(d.partitions, i, k);
      }
      if p.number in partNumbers {
        return Some(NumberTwice);
      }
      partNumbers := partNumbers + {p.number};
      if p.gptType.Some? && !SupportedGptType(p.gptType.value) {
        assert !Fits(d.partitions[i], n);
        return Some(GptTypeUnsupported);
      }
    }
    assert d.partitions[..n] == d.partitions;
    if hasVariablePartition && parts[n] != 0 {
      return Some(VariableNotLast);
    }
    error := None;
  }

  lemma NoPartitions(partitions: seq<Partition>)
    ensures Numbers(partitions[..0]) == {} && DistinctNumbers(partitions[..0]) && !HasVariable(partitions[..0])
    ensures forall k :: SizeOf(partitions[..0], k) == 0
  {
  }

  predicate NvmeDevice(device: string) {
    "/dev/nvme" <= device
  }

  function PartitionName(device: string, number: nat): string {
    device + (if NvmeDevice(device) then "p" else "") + PortNames.Itoa(number)
  }

  function DiskDevices(d: Disk): set<string> {
    {d.device} + set p | p in d.partitions :: PartitionName(d.device, p.number)
  }

  // ---------- layers ----------

  /** Something built: a block device, or a volume group to put volumes on. */
  datatype Resource = Device(name: string) | Group(name: string)

  /** One entry of a layout, with what it provides and what it is built from. */
  datatype Layer = Layer(gives: set<Resource>, uses: set<Resource>)

  function Devices(names: seq<string>): set<Resource> {
    set n | n in names :: Device(n)
  }

  function DiskLayer(d: Disk): Layer {
    Layer(set n | n in DiskDevices(d) :: Device(n), {})
  }

  function RaidLayer(r: Raid): Layer {
    Layer({Device(r.arrayName)}, Devices(r.devices))
  }

  function GroupLayer(g: VolumeGroup): Layer {
    Layer({Group(g.name)}, Devices(g.devices))
  }

  function VolumeLayer(lib: Library, v: LogicalVolume): Layer {
    Layer({Device(lib.join(v.volumeGroup, v.name))}, {Group(v.volumeGroup)})
  }

  function FilesystemLayer(fs: Filesystem): Layer {
    Layer({}, if fs.format == TMPFS then {} else {Device(fs.device)})
  }

  function Map<A, B>(s: seq<A>, f: A -> B): seq<B> {
    seq(|s|, i requires 0 <= i < |s| => f(s[i]))
  }

  lemma MapSize<A, B>(s: seq<A>, f: A -> B)
    ensures |Map(s, f)| == |s|
  {
  }

  lemma MapAt<A, B>(s: seq<A>, f: A -> B, i: nat)
    requires i < |s|
    ensures |Map(s, f)| == |s| && Map(s, f)[i] == f(s[i])
  {
  }

  /** The entries in the order in which they are checked. */
  function Stack(lib: Library, f: Layout): seq<Layer> {
    Map(f.disks, DiskLayer) + Map(f.raids, RaidLayer) + Map(f.volumeGroups, GroupLayer)
    + Map(f.logicalVolumes, v => VolumeLayer(lib, v)) + Map(f.filesystems, FilesystemLayer)
  }

  function Provided(stack: seq<Layer>): set<Resource> {
    if stack == [] then {} else Provided(stack[..|stack| - 1]) + stack[|stack| - 1].gives
  }

  /** Everything an entry is built from was provided by an earlier one. */
  ghost predicate Supported(stack: seq<Layer>) {
    forall k :: 0 <= k < |stack| ==> stack[k].uses <= Provided(stack[..k])
  }

  lemma SupportedOneMore(stack: seq<Layer>, layer: Layer)
    ensures Supported(stack + [layer]) <==> Supported(stack) && layer.uses <= Provided(stack)
    ensures Provided(stack + [layer]) == Provided(stack) + layer.gives
  {
    var more := stack + [layer];
    assert more[..|stack|] == stack;
    assert forall k :: 0 <= k < |stack| ==> more[k] == stack[k] && more[..k] == stack[..k];
    assert more[|stack|] == layer;
  }

  /** Laying one more of a list of layers onto a stack. */
  lemma LayOneMore(stack: seq<Layer>, layers: seq<Layer>, i: nat)
    requires i < |layers|
    ensures var done := stack + layers[..i];
            && (Supported(stack + layers[..i + 1]) <==> Supported(done) && layers[i].uses <= Provided(done))
            && Provided(stack + layers[..i + 1]) == Provided(done) + layers[i].gives
            && (Supported(stack + layers) ==> Supported(stack + layers[..i + 1]))
  {
    var done := stack + layers[..i];
    assert stack + layers[..i + 1] == done + [layers[i]];
    SupportedOneMore(done, layers[i]);
    SupportedPrefix(stack + layers[..i + 1], stack + layers);
  }

  /** A supported stack is supported up to every height. */
  lemma SupportedPrefix(prefix: seq<Layer>, stack: seq<Layer>)
    requires prefix <= stack
    ensures Supported(stack) ==> Supported(prefix)
  {
    assert forall k :: 0 <= k < |prefix| ==> prefix[k] == stack[k] && prefix[..k] == stack[..k];
  }

  // ---------- the rules besides the layers ----------

  /** The device count of the last volume group of that name; earlier ones are overwritten. */
  function GroupSize(groups: seq<VolumeGroup>, name: string): nat {
    if groups == [] then 0
    else if groups[|groups| - 1].name == name then |groups[|groups| - 1].devices|
    else GroupSize(groups[..|groups| - 1], name)
  }

  predicate Mirrored(v: LogicalVolume) {
    v.lvmType.Raid1? || v.lvmType.Striped?
  }

  /** Mirrored and striped volumes need a group of two devices or more. */
  predicate WideEnough(groups: seq<VolumeGroup>, v: LogicalVolume) {
    Mirrored(v) ==> GroupSize(groups, v.volumeGroup) >= 2
  }

  predicate VolumesSized(vs: seq<LogicalVolume>) {
    forall i :: 0 <= i < |vs| - 1 ==> vs[i].size != 0
  }

  predicate FilesystemSound(lib: Library, fs: Filesystem) {
    fs.format != TMPFS ==> SupportedFormat(fs.format) && forall o | o in fs.createOptions :: lib.fields(o) <= 1
  }

  predicate RaidLevelsSupported(raids: seq<Raid>) {
    forall k :: 0 <= k < |raids| ==> SupportedRaidLevel(raids[k].level)
  }

  predicate AllWideEnough(groups: seq<VolumeGroup>, vs: seq<LogicalVolume>) {
    forall k :: 0 <= k < |vs| ==> WideEnough(groups, vs[k])
  }

  predicate AllSound(lib: Library, fss: seq<Filesystem>) {
    forall k :: 0 <= k < |fss| ==> FilesystemSound(lib, fss[k])
  }

  ghost predicate Accepted(lib: Library, f: Layout) {
    && Supported(Stack(lib, f))
    && (forall k :: 0 <= k < |f.disks| ==> DiskValid(f.disks[k]))
    && RaidLevelsSupported(f.raids)
    && VolumesSized(f.logicalVolumes)
    && AllWideEnough(f.volumeGroups, f.logicalVolumes)
    && AllSound(lib, f.filesystems)
    && f.constraintsValid
  }

  // ---------- validation, layer by layer ----------

  method AllProvided(names: seq<string>, provided: set<string>) returns (ok: bool)
    ensures ok <==> forall n | n in names :: n in provided
  {
    for i := 0 to |names|
      invariant forall k :: 0 <= k < i ==> names[k] in provided
    {
      if names[i] !in provided {
        return false;
      }
    }
    ok := true;
  }

  /** The device names among the resources. */
  function Names(resources: set<Resource>): set<string> {
    set r | r in resources && r.Device? :: r.name
  }

  function GroupNames(resources: set<Resource>): set<string> {
    set r | r in resources && r.Group? :: r.name
  }

  lemma DevicesProvided(names: seq<string>, provided: set<Resource>)
    ensures Devices(names) <= provided <==> forall n | n in names :: n in Names(provided)
  {
    if forall n | n in names :: n in Names(provided) {
      forall r | r in Devices(names) ensures r in provided {
        assert r.name in Names(provided);
      }
    }
    if Devices(names) <= provided {
      forall n | n in names ensures n in Names(provided) {
        assert Device(n) in Devices(names);
      }
    }
  }

  lemma DiskGiven(resources: set<Resource>, d: Disk)
    ensures Names(resources + DiskLayer(d).gives) == Names(resources) + DiskDevices(d)
    ensures GroupNames(resources + DiskLayer(d).gives) == GroupNames(resources)
  {
    assert forall r | r in resources :: r in resources + DiskLayer(d).gives;
    forall n | n in DiskDevices(d) ensures n in Names(resources + DiskLayer(d).gives) {
      assert Device(n) in DiskLayer(d).gives;
    }
  }

  lemma NothingProvided()
    ensures Provided([]) == {} && Names({}) == {} && GroupNames({}) == {} && Supported([])
  {
  }

  method ValidateDisks(disks: seq<Disk>) returns (error: Option<LayoutError>, provided: set<string>)
    ensures error.None? <==> forall k :: 0 <= k < |disks| ==> DiskValid(disks[k])
    ensures error.None? ==> provided == Names(Provided(Map(disks, DiskLayer))) && Supported(Map(disks, DiskLayer))
    ensures error.None? ==> GroupNames(Provided(Map(disks, DiskLayer))) == {}
  {
    provided := {};
    ghost var layers := Map(disks, DiskLayer);
    MapSize(disks, DiskLayer);
    hide DiskDevices, Names, GroupNames, Provided, Supported, DiskValid, Map;
    NothingProvided();
    assert [] + layers[..0] == [];
    for i := 0 to |disks|
      invariant forall k :: 0 <= k < i ==> DiskValid(disks[k])
      invariant Supported([] + layers[..i])
      invariant provided == Names(Provided([] + layers[..i])) && GroupNames(Provided([] + layers[..i])) == {}
    {
      var invalid := ValidateDisk(disks[i]);
      if invalid.Some? {
        return invalid, provided;
      }
      MapAt(disks, DiskLayer, i);
      LayOneMore([], layers, i);
      DiskGiven(Provided([] + layers[..i]), disks[i]);
      provided := provided + DiskDevices(disks[i]);
    }
    assert [] + layers[..|disks|] == layers;
    error := None;
  }

  method ValidateRaid(ghost below: set<Resource>, before: set<string>, raid: Raid)
    returns (error: Option<LayoutError>, provided: set<string>)
    requires before == Names(below)
    ensures error.None? <==> RaidLayer(raid).uses <= below && SupportedRaidLevel(raid.level)
    ensures provided == Names(below + RaidLayer(raid).gives)
  {
    DevicesProvided(raid.devices, below);
    DeviceGiven(below, raid.arrayName);
    hide Names, Devices, SupportedRaidLevel;
    provided := before + {raid.arrayName};
    var ok := AllProvided(raid.devices, before);
    if !ok {
      return Some(DeviceMissing), provided;
    }
    error := if SupportedRaidLevel(raid.level) then None else Some(RaidLevelUnsupported);
  }

  method ValidateRaids(ghost stack: seq<Layer>, before: set<string>, raids: seq<Raid>)
    returns (error: Option<LayoutError>, provided: set<string>)
    requires Supported(stack) && before == Names(Provided(stack))
    ensures error.None? <==> Supported(stack + Map(raids, RaidLayer)) && RaidLevelsSupported(raids)
    ensures error.None? ==> provided == Names(Provided(stack + Map(raids, RaidLayer)))
  {
    provided := before;
    ghost var layers := Map(raids, RaidLayer);
    MapSize(raids, RaidLayer);
    hide Names, Provided, Supported, RaidLayer, Map, SupportedRaidLevel;
    assert stack + layers[..0] == stack;
    for i := 0 to |raids|
      invariant Supported(stack + layers[..i]) && provided == Names(Provided(stack + layers[..i]))
      invariant forall k :: 0 <= k < i ==> SupportedRaidLevel(raids[k].level)
    {
      MapAt(raids, RaidLayer, i);
      LayOneMore(stack, layers, i);
      error, provided := ValidateRaid(Provided(stack + layers[..i]), provided, raids[i]);
      if error.Some? {
        return;
      }
    }
    assert stack + layers[..|raids|] == stack + layers;
    error := None;
  }

  method ValidateGroups(ghost stack: seq<Layer>, provided: set<string>, groups: seq<VolumeGroup>)
    returns (error: Option<LayoutError>, vgdevices: map<string, nat>)
    requires Supported(stack) && provided == Names(Provided(stack)) && GroupNames(Provided(stack)) == {}
    ensures error.None? <==> Supported(stack + Map(groups, GroupLayer))
    ensures error.None? ==>
              && Names(Provided(stack + Map(groups, GroupLayer))) == provided
              && GroupNames(Provided(stack + Map(groups, GroupLayer))) == vgdevices.Keys
              && forall n | n in vgdevices :: vgdevices[n] == GroupSize(groups, n)
  {
    vgdevices := map[];
    ghost var layers := Map(groups, GroupLayer);
    MapSize(groups, GroupLayer);
    hide Names, GroupNames, Provided, Supported, Devices, Map;
    assert stack + layers[..0] == stack;
    for i := 0 to |groups|
      invariant Supported(stack + layers[..i]) && Names(Provided(stack + layers[..i])) == provided
      invariant GroupNames(Provided(stack + layers[..i])) == vgdevices.Keys
      invariant forall n | n in vgdevices :: vgdevices[n] == GroupSize(groups[..i], n)
    {
      MapAt(groups, GroupLayer, i);
      LayOneMore(stack, layers, i);
      assert layers[i] == GroupLayer(groups[i]);
      assert groups[..i + 1][..i] == groups[..i];
      DevicesProvided(groups[i].devices, Provided(stack + layers[..i]));
      GroupGiven(Provided(stack + layers[..i]), groups[i].name);
      var ok := AllProvided(groups[i].devices, provided);
      if !ok {
        return Some(DeviceMissing), vgdevices;
      }
      vgdevices := vgdevices[groups[i].name := |groups[i].devices|];
    }
    assert stack + layers[..|groups|] == stack + layers && groups[..|groups|] == groups;
    error := None;
  }

  lemma GroupGiven(resources: set<Resource>, name: string)
    ensures Names(resources + {Group(name)}) == Names(resources)
    ensures GroupNames(resources + {Group(name)}) == GroupNames(resources) + {name}
  {
    assert forall r | r in resources :: r in resources + {Group(name)};
    assert Group(name) in resources + {Group(name)};
  }

  lemma DeviceGiven(resources: set<Resource>, name: string)
    ensures Names(resources + {Device(name)}) == Names(resources) + {name}
    ensures GroupNames(resources + {Device(name)}) == GroupNames(resources)
  {
    assert forall r | r in resources :: r in resources + {Device(name)};
    assert Device(name) in resources + {Device(name)};
  }

  method ValidateVolumeSizes(vs: seq<LogicalVolume>) returns (ok: bool)
    ensures ok <==> VolumesSized(vs)
  {
    for i := 0 to |vs|
      invariant forall k :: 0 <= k < i && k < |vs| - 1 ==> vs[k].size != 0
    {
      if vs[i].size == 0 && i != |vs| - 1 {
        return false;
      }
    }
    ok := true;
  }

  method ValidateVolume(lib: Library, ghost below: set<Resource>, before: set<string>, groups: seq<VolumeGroup>,
                        vgdevices: map<string, nat>, v: LogicalVolume)
    returns (error: Option<LayoutError>, provided: set<string>)
    requires before == Names(below) && vgdevices.Keys == GroupNames(below)
    requires forall n | n in vgdevices :: vgdevices[n] == GroupSize(groups, n)
    ensures error.None? <==> VolumeLayer(lib, v).uses <= below && WideEnough(groups, v)
    ensures provided == Names(below + VolumeLayer(lib, v).gives)
    ensures GroupNames(below + VolumeLayer(lib, v).gives) == vgdevices.Keys
  {
    DeviceGiven(below, lib.join(v.volumeGroup, v.name));
    GroupIsProvided(below, v.volumeGroup);
    hide Names, GroupNames, GroupSize;
    provided := before + {lib.join(v.volumeGroup, v.name)};
    if v.volumeGroup !in vgdevices {
      return Some(VolumeGroupMissing), provided;
    }
    error := if Mirrored(v) && vgdevices[v.volumeGroup] < 2 then Some(TooFewDevices) else None;
  }

  method ValidateVolumes(lib: Library, ghost stack: seq<Layer>, before: set<string>, groups: seq<VolumeGroup>,
                         vgdevices: map<string, nat>, vs: seq<LogicalVolume>)
    returns (error: Option<LayoutError>, provided: set<string>)
    requires Supported(stack) && before == Names(Provided(stack)) && vgdevices.Keys == GroupNames(Provided(stack))
    requires forall n | n in vgdevices :: vgdevices[n] == GroupSize(groups, n)
    ensures error.None? <==> Supported(stack + Map(vs, v => VolumeLayer(lib, v))) && AllWideEnough(groups, vs)
    ensures error.None? ==> provided == Names(Provided(stack + Map(vs, v => VolumeLayer(lib, v))))
  {
    provided := before;
    ghost var layers := Map(vs, v => VolumeLayer(lib, v));
    MapSize(vs, v => VolumeLayer(lib, v));
    hide Names, GroupNames, Provided, Supported, VolumeLayer, WideEnough, Map;
    assert stack + layers[..0] == stack;
    for i := 0 to |vs|
      invariant Supported(stack + layers[..i]) && provided == Names(Provided(stack + layers[..i]))
      invariant vgdevices.Keys == GroupNames(Provided(stack + layers[..i]))
      invariant forall k :: 0 <= k < i ==> WideEnough(groups, vs[k])
    {
      MapAt(vs, v => VolumeLayer(lib, v), i);
      LayOneMore(stack, layers, i);
      error, provided := ValidateVolume(lib, Provided(stack + layers[..i]), provided, groups, vgdevices, vs[i]);
      if error.Some? {
        return;
      }
    }
    assert stack + layers[..|vs|] == stack + layers;
    error := None;
  }

  lemma GroupIsProvided(resources: set<Resource>, name: string)
    ensures name in GroupNames(resources) <==> Group(name) in resources
  {
  }

  lemma DeviceIsProvided(resources: set<Resource>, name: string)
    ensures name in Names(resources) <==> Device(name) in resources
  {
  }

  method ValidateOptions(lib: Library, options: seq<string>) returns (ok: bool)
    ensures ok <==> forall o | o in options :: lib.fields(o) <= 1
  {
    for i := 0 to |options|
      invariant forall k :: 0 <= k < i ==> lib.fields(options[k]) <= 1
    {
      if lib.fields(options[i]) > 1 {
        return false;
      }
    }
    ok := true;
  }

  method ValidateFilesystem(lib: Library, ghost below: set<Resource>, provided: set<string>, fs: Filesystem)
    returns (error: Option<LayoutError>)
    requires provided == Names(below)
    ensures error.None? <==> FilesystemLayer(fs).uses <= below && FilesystemSound(lib, fs)
  {
    DeviceIsProvided(below, fs.device);
    hide Names, SupportedFormat;
    error := None;
    if fs.format != TMPFS {
      if fs.device !in provided {
        return Some(DeviceMissing);
      }
      if !SupportedFormat(fs.format) {
        return Some(FormatUnsupported);
      }
      var ok := ValidateOptions(lib, fs.createOptions);
      if !ok {
        return Some(OptionNotSplit);
      }
    }
  }

  method ValidateFilesystems(lib: Library, ghost stack: seq<Layer>, provided: set<string>, fss: seq<Filesystem>)
    returns (error: Option<LayoutError>)
    requires Supported(stack) && provided == Names(Provided(stack))
    ensures error.None? <==> Supported(stack + Map(fss, FilesystemLayer)) && AllSound(lib, fss)
  {
    ghost var layers := Map(fss, FilesystemLayer);
    MapSize(fss, FilesystemLayer);
    hide Names, Provided, Supported, FilesystemSound, Map;
    assert stack + layers[..0] == stack;
    for i := 0 to |fss|
      invariant Supported(stack + layers[..i]) && Provided(stack + layers[..i]) == Provided(stack)
      invariant forall k :: 0 <= k < i ==> FilesystemSound(lib, fss[k])
    {
      MapAt(fss, FilesystemLayer, i);
      LayOneMore(stack, layers, i);
      error := ValidateFilesystem(lib, Provided(stack), provided, fss[i]);
      if error.Some? {
        return;
      }
    }
    assert stack + layers[..|fss|] == stack + layers;
    error := None;
  }

  method Validate(lib: Library, layout: Option<Layout>) returns (error: Option<LayoutError>)
    ensures error.None? <==> layout.None? || Accepted(lib, layout.value)
  {
    if layout.None? {
      return None;
    }
    var f := layout.value;
    ghost var disks := Map(f.disks, DiskLayer);
    ghost var raids := disks + Map(f.raids, RaidLayer);
    ghost var groups := raids + Map(f.volumeGroups, GroupLayer);
    ghost var volumes := groups + Map(f.logicalVolumes, v => VolumeLayer(lib, v));
    assert Stack(lib, f) == volumes + Map(f.filesystems, FilesystemLayer);
    LowerLayersSupported(lib, f);
    var provided, vgdevices;
    error, provided := ValidateDisks(f.disks);
    if error.Some? {
      return;
    }
    error, provided := ValidateRaids(disks, provided, f.raids);
    if error.Some? {
      return;
    }
    RaidsGiveNoGroups(disks, f.raids);
    error, vgdevices := ValidateGroups(raids, provided, f.volumeGroups);
    if error.Some? {
      return;
    }
    var sized := ValidateVolumeSizes(f.logicalVolumes);
    if !sized {
      return Some(VariableNotLast);
    }
    error, provided := ValidateVolumes(lib, groups, provided, f.volumeGroups, vgdevices, f.logicalVolumes);
    if error.Some? {
      return;
    }
    error := ValidateFilesystems(lib, volumes, provided, f.filesystems);
    if error.None? && !f.constraintsValid {
      error := Some(ConstraintsInvalid);
    }
  }

  lemma LowerLayersSupported(lib: Library, f: Layout)
    ensures Supported(Stack(lib, f)) ==>
              && Supported(Map(f.disks, DiskLayer) + Map(f.raids, RaidLayer))
              && Supported(Map(f.disks, DiskLayer) + Map(f.raids, RaidLayer) + Map(f.volumeGroups, GroupLayer))
              && Supported(Map(f.disks, DiskLayer) + Map(f.raids, RaidLayer) + Map(f.volumeGroups, GroupLayer)
                           + Map(f.logicalVolumes, v => VolumeLayer(lib, v)))
  {
    var raids := Map(f.disks, DiskLayer) + Map(f.raids, RaidLayer);
    var groups := raids + Map(f.volumeGroups, GroupLayer);
    var volumes := groups + Map(f.logicalVolumes, v => VolumeLayer(lib, v));
    SupportedPrefix(raids, Stack(lib, f));
    SupportedPrefix(groups, Stack(lib, f));
    SupportedPrefix(volumes, Stack(lib, f));
  }

  lemma {:induction false} RaidsGiveNoGroups(stack: seq<Layer>, raids: seq<Raid>)
    ensures GroupNames(Provided(stack + Map(raids, RaidLayer))) == GroupNames(Provided(stack))
  {
    if raids == [] {
      assert stack + Map(raids, RaidLayer) == stack;
    } else {
      var front, r := raids[..|raids| - 1], raids[|raids| - 1];
      RaidsGiveNoGroups(stack, front);
      assert stack + Map(raids, RaidLayer) == stack + Map(front, RaidLayer) + [RaidLayer(r)];
      SupportedOneMore(stack + Map(front, RaidLayer), RaidLayer(r));
      DeviceGiven(Provided(stack + Map(front, RaidLayer)), r.arrayName);
    }
  }

  // ---------- accepted layouts are well-founded ----------

  /** All the way down, everything the entry is built from rests on earlier entries. */
  ghost predicate Grounded(stack: seq<Layer>, k: nat)
    requires k < |stack|
  {
    forall r | r in stack[k].uses :: exists j: nat | j < k :: r in stack[j].gives && Grounded(stack, j)
  }

  lemma {:induction false} ProvidedByEarlier(stack: seq<Layer>, r: Resource)
    requires r in Provided(stack)
    ensures exists j: nat :: j < |stack| && r in stack[j].gives
  {
    var n := |stack| - 1;
    if r !in stack[n].gives {
      ProvidedByEarlier(stack[..n], r);
      var j: nat :| j < n && r in stack[..n][j].gives;
      assert r in stack[j].gives;
    }
  }

  lemma {:induction false} SupportedIsGrounded(stack: seq<Layer>, k: nat)
    requires Supported(stack) && k < |stack|
    ensures Grounded(stack, k)
  {
    forall r | r in stack[k].uses ensures exists j: nat | j < k :: r in stack[j].gives && Grounded(stack, j) {
      ProvidedByEarlier(stack[..k], r);
      var j: nat :| j < k && r in stack[..k][j].gives;
      SupportedIsGrounded(stack, j);
    }
  }

  /**
   In an accepted layout every raid array, volume group, logical volume and filesystem rests, through
   earlier entries only, on disks and their partitions or on empty member lists.
   */
  lemma AcceptedLayoutIsGrounded(lib: Library, f: Layout)
    requires Accepted(lib, f)
    ensures forall k: nat | k < |Stack(lib, f)| :: Grounded(Stack(lib, f), k)
    ensures forall k: nat | k < |f.disks| :: Stack(lib, f)[k] == DiskLayer(f.disks[k])
  {
    forall k: nat | k < |Stack(lib, f)| ensures Grounded(Stack(lib, f), k) {
      SupportedIsGrounded(Stack(lib, f), k);
    }
  }

  /** With distinct names, mirrored and striped volumes sit on groups of at least two devices. */
  lemma MirroredVolumesHaveTwoDevices(lib: Library, f: Layout, v: LogicalVolume, g: VolumeGroup)
    requires Accepted(lib, f) && v in f.logicalVolumes && Mirrored(v)
    requires g in f.volumeGroups && g.name == v.volumeGroup
    requires forall i, j :: 0 <= i < j < |f.volumeGroups| ==> f.volumeGroups[i].name != f.volumeGroups[j].name
    ensures |g.devices| >= 2
  {
    GroupSizeOf(f.volumeGroups, g);
    assert WideEnough(f.volumeGroups, v);
  }

  lemma {:induction false} GroupSizeOf(groups: seq<VolumeGroup>, g: VolumeGroup)
    requires g in groups
    requires forall i, j :: 0 <= i < j < |groups| ==> groups[i].name != groups[j].name
    ensures GroupSize(groups, g.name) == |g.devices|
  {
    var front := groups[..|groups| - 1];
    if g != groups[|groups| - 1] {
      var i :| 0 <= i < |groups| && groups[i] == g;
      assert front[i] == g;
      GroupSizeOf(front, g);
    }
  }

  // ---------- partition numbers ----------

  lemma {:induction false} SubsetIsSmaller(a: set<nat>, b: set<nat>)
    requires a <= b
    ensures |a| <= |b|
  {
    if a != {} {
      var x :| x in a;
      SubsetIsSmaller(a - {x}, b - {x});
    }
  }

  function UpTo(n: nat): (s: set<nat>)
    ensures forall k: nat :: k in s <==> 1 <= k <= n
  {
    if n == 0 then {} else UpTo(n - 1) + {n}
  }

  lemma {:induction false} UpToSize(n: nat)
    ensures |UpTo(n)| == n
  {
    if n > 0 {
      UpToSize(n - 1);
    }
  }

  lemma {:induction false} DistinctNumbersCount(partitions: seq<Partition>)
    requires DistinctNumbers(partitions)
    ensures |Numbers(partitions)| == |partitions|
  {
    if partitions != [] {
      var front, p := partitions[..|partitions| - 1], partitions[|partitions| - 1];
      DistinctNumbersCount(front);
      assert partitions == front + [p];
      assert Numbers(partitions) == Numbers(front) + {p.number};
    }
  }

  /** Partitions of a valid disk that are numbered from one use every number up to their count. */
  lemma PartitionNumbersAreComplete(d: Disk)
    requires DiskValid(d) && forall p | p in d.partitions :: p.number >= 1
    ensures Numbers(d.partitions) == UpTo(|d.partitions|)
  {
    var ns, all := Numbers(d.partitions), UpTo(|d.partitions|);
    DistinctNumbersCount(d.partitions);
    UpToSize(|d.partitions|);
    assert forall p | p in d.partitions :: Fits(p, |d.partitions|);
    assert ns <= all;
    if k :| k in all && k !in ns {
      SubsetIsSmaller(ns, all - {k});
    }
  }

  /** If any of them has a variable size then the last number has. */
  lemma LastPartitionIsVariable(d: Disk)
    requires DiskValid(d) && (forall p | p in d.partitions :: p.number >= 1)
    requires HasVariable(d.partitions)
    ensures exists p | p in d.partitions :: p.number == |d.partitions| && p.size == 0
  {
    PartitionNumbersAreComplete(d);
    assert |d.partitions| in UpTo(|d.partitions|);
    NumberIsVariable(d.partitions, |d.partitions|);
  }

  lemma {:induction false} SizeOfNumber(partitions: seq<Partition>, p: Partition)
    requires p in partitions
    requires DistinctNumbers(partitions)
    ensures SizeOf(partitions, p.number) == p.size
  {
    var front := partitions[..|partitions| - 1];
    if p != partitions[|partitions| - 1] {
      var i :| 0 <= i < |partitions| && partitions[i] == p;
      assert front[i] == p;
      SizeOfNumber(front, p);
    }
  }

  /** No partition has the number, or the one that has it is of variable size. */
  predicate VariableOrAbsent(partitions: seq<Partition>, number: nat) {
    forall p | p in partitions && p.number == number :: p.size == 0
  }

  lemma {:induction false} NotNumbered(partitions: seq<Partition>, number: nat)
    requires number !in Numbers(partitions)
    ensures SizeOf(partitions, number) == 0
  {
    if partitions != [] {
      var front := partitions[..|partitions| - 1];
      assert partitions == front + [partitions[|partitions| - 1]];
      assert partitions[|partitions| - 1] in partitions;
      NotNumbered(front, number);
    }
  }

  lemma NumberIsVariable(partitions: seq<Partition>, number: nat)
    requires DistinctNumbers(partitions)
    ensures SizeOf(partitions, number) == 0 <==> VariableOrAbsent(partitions, number)
    ensures number in Numbers(partitions) <==> exists p :: p in partitions && p.number == number
  {
    if number in Numbers(partitions) {
      var p :| p in partitions && p.number == number;
      SizeOfNumber(partitions, p);
      forall q | q in partitions && q.number == number ensures q == p {
        SameNumber(partitions, p, q);
      }
    } else {
      NotNumbered(partitions, number);
    }
  }

  lemma SameNumber(partitions: seq<Partition>, p: Partition, q: Partition)
    requires DistinctNumbers(partitions) && p in partitions && q in partitions && p.number == q.number
    ensures p == q
  {
    var i :| 0 <= i < |partitions| && partitions[i] == p;
    var j :| 0 <= j < |partitions| && partitions[j] == q;
  }

  /**
   With numbers that fit and differ, a disk with a variable partition is accepted exactly if the number
   that equals the number of partitions is not given, or is given to a variable one.
   */
  lemma VariableDiskIsAcceptedExactly(d: Disk)
    requires forall k :: 0 <= k < |d.partitions| ==> Fits(d.partitions[k], |d.partitions|)
    requires DistinctNumbers(d.partitions)
    ensures DiskValid(d) <==>
            || !HasVariable(d.partitions)
            || |d.partitions| !in Numbers(d.partitions)
            || exists p | p in d.partitions :: p.number == |d.partitions| && p.size == 0
  {
    NumberIsVariable(d.partitions, |d.partitions|);
    if |d.partitions| in Numbers(d.partitions) {
      var p :| p in d.partitions && p.number == |d.partitions|;
      if q :| q in d.partitions && q.number == |d.partitions| && q.size == 0 {
        SameNumber(d.partitions, p, q);
      }
    }
  }

  /** What the documentation asks of variable partitions: they come with the highest number. */
  predicate HighestIsVariable(partitions: seq<Partition>) {
    exists p | p in partitions :: p.size == 0 && forall q | q in partitions :: q.number <= p.number
  }

  lemma HighestNumber(d: Disk, n: nat)
    requires DiskValid(d) && n in Numbers(d.partitions) && forall q | q in d.partitions :: q.number <= n
    ensures HighestIsVariable(d.partitions) <==> VariableOrAbsent(d.partitions, n)
  {
    var p :| p in d.partitions && p.number == n;
    if HighestIsVariable(d.partitions) {
      var v :| v in d.partitions && v.size == 0 && forall q | q in d.partitions :: q.number <= v.number;
      forall q | q in d.partitions && q.number == n ensures q.size == 0 {
        SameNumber(d.partitions, q, v);
      }
    }
  }

  /** Distinct numbers from zero to n leave out one of them: if it is n, then n - 1 is used. */
  lemma NextToLastIsUsed(d: Disk)
    requires DiskValid(d) && d.partitions != [] && |d.partitions| !in Numbers(d.partitions)
    ensures |d.partitions| - 1 in Numbers(d.partitions)
    ensures forall q | q in d.partitions :: q.number <= |d.partitions| - 1
  {
    var n, ns := |d.partitions|, Numbers(d.partitions);
    DistinctNumbersCount(d.partitions);
    forall q | q in d.partitions ensures q.number <= n - 1 {
      assert Fits(q, n) && q.number in ns;
    }
    if n - 1 !in ns {
      assert forall k | k in ns :: k < n - 1;
      BelowSize(ns, n - 1);
    }
  }

  lemma {:induction false} BelowSize(numbers: set<nat>, n: nat)
    requires forall k | k in numbers :: k < n
    ensures |numbers| <= n
  {
    if n > 0 {
      BelowSize(numbers - {n - 1}, n - 1);
    } else {
      assert numbers == {};
    }
  }

  /**
   An accepted disk with a variable partition keeps the documented rule exactly if its last number is
   used, or else the one before it, which then is the highest, is variable.
   */
  lemma HighestIsVariableExactly(d: Disk)
    requires DiskValid(d) && HasVariable(d.partitions)
    ensures HighestIsVariable(d.partitions) <==>
            || |d.partitions| in Numbers(d.partitions)
            || VariableOrAbsent(d.partitions, |d.partitions| - 1)
  {
    var n := |d.partitions|;
    forall q | q in d.partitions ensures q.number <= n {
      assert Fits(q, n);
    }
    if n in Numbers(d.partitions) {
      NumberIsVariable(d.partitions, n);
      HighestNumber(d, n);
    } else {
      NextToLastIsUsed(d);
      HighestNumber(d, n - 1);
    }
  }

  /** Counting from zero gets round the check: the last number is never looked at. */
  lemma NumberZeroHidesAFixedLast(device: string, size: nat)
    requires size != 0
    ensures var d := Disk(device, [Partition(0, 0, None), Partition(1, size, None)]);
            DiskValid(d) && HasVariable(d.partitions) && !HighestIsVariable(d.partitions)
  {
    var partitions := [Partition(0, 0, None), Partition(1, size, None)];
    assert partitions[..1] == [Partition(0, 0, None)] && partitions[..1][..0] == [];
    assert HasVariable(partitions[..1]);
    assert SizeOf(partitions[..1][..0], 2) == 0 && SizeOf(partitions[..1], 2) == 0;
    assert SizeOf(partitions, 2) == 0;
    assert partitions[1] in partitions;
  }

  /** Several partitions may have a variable size. */
  lemma SeveralVariablePartitionsAreAccepted(device: string, size: nat)
    ensures DiskValid(Disk(device, [Partition(1, 0, None), Partition(2, size, None)])) <==> size == 0
  {
    var partitions := [Partition(1, 0, None), Partition(2, size, None)];
    assert partitions[..1] == [Partition(1, 0, None)] && partitions[..1][..0] == [];
    assert HasVariable(partitions[..1]);
    assert SizeOf(partitions, 2) == size;
  }

  // ---------- how partitions are named ----------

  function OneDisk(device: string, mounted: string): Layout {
    Layout([Filesystem(mounted, "ext4", [])], [Disk(device, [Partition(1, 0, None)])], [], [], [], true)
  }

  lemma OneDiskStack(lib: Library, device: string, mounted: string)
    ensures var f := OneDisk(device, mounted);
            Stack(lib, f) == [DiskLayer(f.disks[0])] + [FilesystemLayer(f.filesystems[0])]
  {
    hide DiskLayer, FilesystemLayer;
  }

  lemma TwoLayers(below: Layer, above: Layer)
    requires below.uses == {}
    ensures Supported([below] + [above]) <==> above.uses <= below.gives
  {
    SupportedOneMore([below], above);
    SupportedOneMore([], below);
    assert [] + [below] == [below];
    NothingProvided();
    hide Supported, Provided;
  }

  /** With one partition on one disk, a filesystem can lie on the disk or on the partition under its one name. */
  lemma PartitionNameExactly(lib: Library, device: string, mounted: string)
    ensures Accepted(lib, OneDisk(device, mounted)) <==>
            mounted == device || mounted == device + if "/dev/nvme" <= device then "p1" else "1"
  {
    hide Accepted, Stack, Supported, Provided, DiskDevices;
    var f := OneDisk(device, mounted);
    var d, fs := f.disks[0], f.filesystems[0];
    OneDiskIsSound(lib, device, mounted);
    OneDiskStack(lib, device, mounted);
    TwoLayers(DiskLayer(d), FilesystemLayer(fs));
    OnePartitionDevices(device);
    assert FilesystemLayer(fs).uses == {Device(mounted)};
    assert Device(mounted) in DiskLayer(d).gives <==> mounted in DiskDevices(d);
  }

  lemma OnePartitionDevices(device: string)
    ensures DiskDevices(Disk(device, [Partition(1, 0, None)])) ==
            {device, device + if "/dev/nvme" <= device then "p1" else "1"}
  {
    assert PortNames.Itoa(1) == "1";
    var d := Disk(device, [Partition(1, 0, None)]);
    assert d.partitions[0] in d.partitions;
    assert PartitionName(device, 1) == device + if "/dev/nvme" <= device then "p1" else "1";
  }

  lemma OneDiskIsSound(lib: Library, device: string, mounted: string)
    ensures var f := OneDisk(device, mounted); Accepted(lib, f) <==> Supported(Stack(lib, f))
  {
    hide Stack, Supported;
  }

  /** Only nvme devices have a "p" in front of the number of a partition. */
  lemma NvmePartitionsHaveAP(lib: Library)
    ensures Accepted(lib, OneDisk("/dev/sda", "/dev/sda1")) && !Accepted(lib, OneDisk("/dev/sda", "/dev/sdap1"))
    ensures Accepted(lib, OneDisk("/dev/nvme0n1", "/dev/nvme0n1p1"))
    ensures !Accepted(lib, OneDisk("/dev/nvme0n1", "/dev/nvme0n11"))
  {
    PartitionNameExactly(lib, "/dev/sda", "/dev/sda1");
    PartitionNameExactly(lib, "/dev/sda", "/dev/sdap1");
    PartitionNameExactly(lib, "/dev/nvme0n1", "/dev/nvme0n1p1");
    PartitionNameExactly(lib, "/dev/nvme0n1", "/dev/nvme0n11");
    hide Accepted;
  }
}
