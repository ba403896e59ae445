/**
 Machine sizes: which hardware a size matches, when two sizes overlap, and the size catalogue.
 Glob matching of identifiers is a parameter: glob(identifier, model), false when the pattern is
 malformed.
 */
module Sizes {
  import opened Wrappers

  const U64 := 0x1_0000_0000_0000_0000
  const U32 := 0x1_0000_0000

  type u64 = x: int | 0 <= x < U64
  type u32 = x: int | 0 <= x < U32

  type Glob = (string, string) -> bool

  datatype ConstraintType = Cores | Memory | Storage | Gpu

  datatype Constraint = Constraint(typ: ConstraintType, min: u64, max: u64, identifier: string)

  datatype Size = Size(id: string, constraints: seq<Constraint>)

  datatype Cpu = Cpu(vendor: string, model: string, cores: u32, threads: u32)
  datatype Disk = Disk(name: string, size: u64)
  datatype GpuCard = GpuCard(vendor: string, model: string)
  datatype Hardware = Hardware(memory: u64, disks: seq<Disk>, cpus: seq<Cpu>, gpus: seq<GpuCard>)

  /** A device seen through its counting function. */
  datatype Part = Part(model: string, count: u64)

  datatype SizeError = NotFound | Ambiguous(n: nat)

  function Parts(hw: Hardware, t: ConstraintType): seq<Part> {
    match t
    case Cores => seq(|hw.cpus|, i requires 0 <= i < |hw.cpus| => Part(hw.cpus[i].model, hw.cpus[i].cores))
    case Memory => [Part("", hw.memory)]
    case Storage => seq(|hw.disks|, i requires 0 <= i < |hw.disks| => Part(hw.disks[i].name, hw.disks[i].size))
    case Gpu => seq(|hw.gpus|, i requires 0 <= i < |hw.gpus| => Part(hw.gpus[i].model, 1))
  }

  predicate Admits(glob: Glob, identifier: string, model: string) {
    identifier == "" || glob(identifier, model)
  }

  /** The summed count of the admitted parts, wrapping at 64 bits. */
  function Total(glob: Glob, identifier: string, parts: seq<Part>): u64 {
    if parts == [] then 0
    else
      var p := parts[|parts| - 1];
      var sum := Total(glob, identifier, parts[..|parts| - 1]);
      if Admits(glob, identifier, p.model) then (sum + p.count) % U64 else sum
  }

  predicate InRange(c: Constraint, value: u64) {
    c.min <= value <= c.max
  }

  /** The value a constraint looks at; for memory the identifier is ignored. */
  function Capacity(glob: Glob, c: Constraint, hw: Hardware): u64 {
    if c.typ.Memory? then hw.memory else Total(glob, c.identifier, Parts(hw, c.typ))
  }

  predicate Met(glob: Glob, c: Constraint, hw: Hardware) {
    InRange(c, Capacity(glob, c, hw))
  }

  /** Every part is admitted by a constraint of the list that is itself in range. */
  predicate Covered(glob: Glob, cs: seq<Constraint>, parts: seq<Part>) {
    forall p | p in parts :: exists c | c in cs ::
      InRange(c, Total(glob, c.identifier, parts)) && Admits(glob, c.identifier, p.model)
  }

  function OfType(cs: seq<Constraint>, t: ConstraintType): seq<Constraint> {
    if cs == [] then []
    else
      var rest := OfType(cs[..|cs| - 1], t);
      var c := cs[|cs| - 1];
      if c.typ == t then rest + [c] else rest
  }

  lemma {:induction false} OfTypeHolds(cs: seq<Constraint>, t: ConstraintType)
    ensures forall c :: c in OfType(cs, t) <==> c in cs && c.typ == t
    ensures OfType(cs, t) == [] <==> !Constrains(cs, t)
  {
    if cs != [] {
      OfTypeHolds(cs[..|cs| - 1], t);
      assert cs == cs[..|cs| - 1] + [cs[|cs| - 1]];
      assert Constrains(cs, t) <==> Constrains(cs[..|cs| - 1], t) || cs[|cs| - 1].typ == t;
    }
  }

  predicate TypeCovered(glob: Glob, cs: seq<Constraint>, t: ConstraintType, hw: Hardware) {
    Covered(glob, OfType(cs, t), Parts(hw, t))
  }

  predicate SizeMatches(glob: Glob, s: Size, hw: Hardware) {
    && (forall c | c in s.constraints :: Met(glob, c, hw))
    && (forall t: ConstraintType :: TypeCovered(glob, s.constraints, t, hw))
  }

  // ---------- matching ----------

  method CapacityOf(glob: Glob, identifier: string, parts: seq<Part>) returns (sum: u64, matched: seq<Part>)
    ensures sum == Total(glob, identifier, parts)
    ensures forall p :: p in matched <==> p in parts && Admits(glob, identifier, p.model)
  {
    sum, matched := 0, [];
    for i := 0 to |parts|
      invariant sum == Total(glob, identifier, parts[..i])
      invariant forall p :: p in matched <==> p in parts[..i] && Admits(glob, identifier, p.model)
    {
      assert parts[..i + 1][..i] == parts[..i];
      assert parts[..i + 1] == parts[..i] + [parts[i]];
      if Admits(glob, identifier, parts[i].model) {
        sum := (sum + parts[i].count) % U64;
        matched := matched + [parts[i]];
      }
    }
    assert parts[..|parts|] == parts;
  }

  /** lo.Difference keeps the elements of the left list that are not in the right one. */
  function Without(left: seq<Part>, right: seq<Part>): (r: seq<Part>)
    ensures forall p :: p in r <==> p in left && p !in right
  {
    if left == [] then []
    else (if left[0] in right then [] else [left[0]]) + Without(left[1..], right)
  }

  method ExhaustiveMatch(glob: Glob, cs: seq<Constraint>, parts: seq<Part>) returns (ok: bool)
    ensures ok <==> Covered(glob, cs, parts)
  {
    var unmatched := parts;
    for i := 0 to |cs|
      invariant forall p :: p in unmatched <==>
                  p in parts && !exists c | c in cs[..i] ::
                    InRange(c, Total(glob, c.identifier, parts)) && Admits(glob, c.identifier, p.model)
    {
      assert cs[..i + 1] == cs[..i] + [cs[i]];
      var capacity, matched := CapacityOf(glob, cs[i].identifier, parts);
      if InRange(cs[i], capacity) {
        unmatched := Without(unmatched, matched);
      }
    }
    assert cs[..|cs|] == cs;
    ok := |unmatched| == 0;
    if !ok {
      assert unmatched[0] in unmatched;
    }
  }

  method Matches(glob: Glob, c: Constraint, hw: Hardware) returns (ok: bool)
    ensures ok <==> Met(glob, c, hw)
  {
    match c.typ {
      case Memory =>
        ok := InRange(c, hw.memory);
      case _ =>
        var capacity, _ := CapacityOf(glob, c.identifier, Parts(hw, c.typ));
        ok := InRange(c, capacity);
    }
  }

  method MatchesSize(glob: Glob, s: Size, hw: Hardware) returns (ok: bool)
    ensures ok <==> SizeMatches(glob, s, hw)
  {
    for i := 0 to |s.constraints|
      invariant forall j :: 0 <= j < i ==> Met(glob, s.constraints[j], hw)
    {
      var met := Matches(glob, s.constraints[i], hw);
      if !met {
        return false;
      }
    }
    ok := MatchesAllTypes(glob, s.constraints, hw);
  }

  method MatchesAllTypes(glob: Glob, cs: seq<Constraint>, hw: Hardware) returns (ok: bool)
    ensures ok <==> forall t: ConstraintType :: TypeCovered(glob, cs, t, hw)
  {
    var todo := {Cores, Memory, Storage, Gpu};
    while todo != {}
      invariant forall t: ConstraintType :: t in todo || TypeCovered(glob, cs, t, hw)
      decreases todo
    {
      var t :| t in todo;
      var covered := ExhaustiveMatch(glob, OfType(cs, t), Parts(hw, t));
      if !covered {
        assert !TypeCovered(glob, cs, t, hw);
        return false;
      }
      todo := todo - {t};
    }
    ok := true;
  }

  function Matching(glob: Glob, sizes: seq<Size>, hw: Hardware): seq<Size> {
    if sizes == [] then []
    else
      var rest := Matching(glob, sizes[..|sizes| - 1], hw);
      var s := sizes[|sizes| - 1];
      if SizeMatches(glob, s, hw) then rest + [s] else rest
  }

  method SizeFromHardware(glob: Glob, sizes: seq<Size>, hw: Hardware) returns (r: Result<Size, SizeError>)
    ensures var ms := Matching(glob, sizes, hw);
            r == if |ms| == 0 then Err(NotFound) else if |ms| == 1 then Ok(ms[0]) else Err(Ambiguous(|ms|))
  {
    var matched := [];
    for i := 0 to |sizes|
      invariant matched == Matching(glob, sizes[..i], hw)
    {
      assert sizes[..i + 1][..i] == sizes[..i];
      var ok := MatchesSize(glob, sizes[i], hw);
      if ok {
        matched := matched + [sizes[i]];
      }
    }
    assert sizes[..|sizes|] == sizes;
    if |matched| == 0 {
      r := Err(NotFound);
    } else if |matched| == 1 {
      r := Ok(matched[0]);
    } else {
      r := Err(Ambiguous(|matched|));
    }
  }

  // ---------- overlap ----------

  predicate ConstraintsOverlap(c: Constraint, d: Constraint) {
    c.typ == d.typ && c.identifier == d.identifier && c.min <= d.max && d.min <= c.max
  }

  predicate Constrains(cs: seq<Constraint>, t: ConstraintType) {
    exists c | c in cs :: c.typ == t
  }

  predicate Mentions(s: Size, t: ConstraintType) {
    Constrains(s.constraints, t)
  }

  /** Sizes without constraints overlap with everything; otherwise the same types and meeting ranges. */
  ghost predicate SizesOverlap(s: Size, so: Size) {
    || s.constraints == []
    || so.constraints == []
    || (&& (forall t: ConstraintType :: Mentions(s, t) <==> Mentions(so, t))
        && (forall c, d | c in s.constraints && d in so.constraints && c.typ == d.typ :: ConstraintsOverlap(c, d)))
  }

  /** lo.GroupBy on the constraint type. */
  function GroupByType(cs: seq<Constraint>): map<ConstraintType, seq<Constraint>> {
    map t | t in {Cores, Memory, Storage, Gpu} && OfType(cs, t) != [] :: OfType(cs, t)
  }

  method PairsOverlap(scs: seq<Constraint>, dcs: seq<Constraint>) returns (ok: bool)
    ensures ok <==> forall c, d | c in scs && d in dcs :: ConstraintsOverlap(d, c)
  {
    for i := 0 to |scs|
      invariant forall k, d | 0 <= k < i && d in dcs :: ConstraintsOverlap(d, scs[k])
    {
      for j := 0 to |dcs|
        invariant forall l | 0 <= l < j :: ConstraintsOverlap(dcs[l], scs[i])
      {
        if !ConstraintsOverlap(dcs[j], scs[i]) {
          return false;
        }
      }
    }
    ok := true;
  }

  ghost predicate TypeAgrees(src: seq<Constraint>, dest: seq<Constraint>, t: ConstraintType) {
    && Constrains(dest, t)
    && forall c, d | c in src && d in dest && c.typ == t && d.typ == t :: ConstraintsOverlap(d, c)
  }

  /** One direction of the comparison: the groups of `src` against those of `dest`, in any order. */
  method GroupsOverlap(src: seq<Constraint>, dest: seq<Constraint>) returns (ok: bool)
    ensures ok <==> forall t: ConstraintType | Constrains(src, t) :: TypeAgrees(src, dest, t)
  {
    var srcTypes, destTypes := GroupByType(src), GroupByType(dest);
    forall t: ConstraintType
      ensures t in srcTypes <==> Constrains(src, t)
      ensures t in destTypes <==> Constrains(dest, t)
    {
      OfTypeHolds(src, t);
      OfTypeHolds(dest, t);
    }
    hide OfType, ConstraintsOverlap, Constrains;
    var todo := srcTypes.Keys;
    while todo != {}
      invariant todo <= srcTypes.Keys
      invariant forall t: ConstraintType | t in srcTypes && t !in todo :: TypeAgrees(src, dest, t)
      decreases todo
    {
      var t :| t in todo;
      if t !in destTypes {
        return false;
      }
      var pairs := PairsOverlap(srcTypes[t], destTypes[t]);
      OfTypeHolds(src, t);
      OfTypeHolds(dest, t);
      if !pairs {
        return false;
      }
      todo := todo - {t};
    }
    ok := true;
  }

  lemma OverlapIsSymmetric(s: Size, so: Size)
    ensures SizesOverlap(s, so) <==> SizesOverlap(so, s)
  {
  }

  lemma OverlapAgreesInType(s: Size, so: Size, t: ConstraintType)
    requires s.constraints != [] && so.constraints != [] && SizesOverlap(s, so) && Mentions(s, t)
    ensures TypeAgrees(s.constraints, so.constraints, t)
  {
    assert Mentions(so, t);
  }

  lemma GroupsDecideOverlap(s: Size, so: Size)
    requires s.constraints != [] && so.constraints != []
    ensures SizesOverlap(s, so) <==>
            && (forall t: ConstraintType | Constrains(s.constraints, t) :: TypeAgrees(s.constraints, so.constraints, t))
            && (forall t: ConstraintType | Constrains(so.constraints, t) ::
                  TypeAgrees(so.constraints, s.constraints, t))
  {
    var a, b := s.constraints, so.constraints;
    if SizesOverlap(s, so) {
      OverlapIsSymmetric(s, so);
      forall t: ConstraintType | Constrains(a, t) ensures TypeAgrees(a, b, t) {
        OverlapAgreesInType(s, so, t);
      }
      forall t: ConstraintType | Constrains(b, t) ensures TypeAgrees(b, a, t) {
        OverlapAgreesInType(so, s, t);
      }
    } else if forall t: ConstraintType | Constrains(a, t) :: TypeAgrees(a, b, t) {
      forall c, d | c in a && d in b && c.typ == d.typ ensures ConstraintsOverlap(c, d) {
        assert Constrains(a, c.typ) && TypeAgrees(a, b, c.typ);
      }
      if forall t: ConstraintType | Constrains(b, t) :: TypeAgrees(b, a, t) {
        forall t: ConstraintType ensures Mentions(s, t) <==> Mentions(so, t) {
        }
        assert false;
      }
    }
  }

  method Overlap(s: Size, so: Size) returns (b: bool)
    ensures b <==> SizesOverlap(s, so)
  {
    if |so.constraints| == 0 || |s.constraints| == 0 {
      return true;
    }
    GroupsDecideOverlap(s, so);
    b := GroupsOverlap(s.constraints, so.constraints);
    if b {
      b := GroupsOverlap(so.constraints, s.constraints);
    }
  }

  /** Whether a stored size other than the one with the same id is in the way. */
  ghost predicate Blocked(s: Size, sizes: seq<Size>) {
    exists i :: 0 <= i < |sizes| && sizes[i].id != s.id && SizesOverlap(s, sizes[i])
  }

  method Overlaps(s: Size, sizes: seq<Size>) returns (r: Option<Size>)
    ensures r.Some? <==> Blocked(s, sizes)
    ensures r.Some? ==> r.value in sizes && r.value.id != s.id && SizesOverlap(s, r.value)
  {
    for i := 0 to |sizes|
      invariant forall j :: 0 <= j < i ==> sizes[j].id == s.id || !SizesOverlap(s, sizes[j])
    {
      if sizes[i].id != s.id {
        var b := Overlap(s, sizes[i]);
        if b {
          return Some(sizes[i]);
        }
      }
    }
    r := None;
  }

  // ---------- what is counted ----------

  /**
   A further cpu adds its cores, whatever its threads, a further disk its size and a further graphics card one,
   if the model or name matches the identifier; nothing else changes what a constraint looks at.
   */
  lemma OneDeviceMore(glob: Glob, c: Constraint, hw: Hardware, cpu: Cpu, disk: Disk, gpu: GpuCard)
    ensures Capacity(glob, c, hw.(cpus := hw.cpus + [cpu])) ==
            if c.typ.Cores? && (c.identifier == "" || glob(c.identifier, cpu.model))
            then (Capacity(glob, c, hw) + cpu.cores) % 0x1_0000_0000_0000_0000 else Capacity(glob, c, hw)
    ensures Capacity(glob, c, hw.(disks := hw.disks + [disk])) ==
            if c.typ.Storage? && (c.identifier == "" || glob(c.identifier, disk.name))
            then (Capacity(glob, c, hw) + disk.size) % 0x1_0000_0000_0000_0000 else Capacity(glob, c, hw)
    ensures Capacity(glob, c, hw.(gpus := hw.gpus + [gpu])) ==
            if c.typ.Gpu? && (c.identifier == "" || glob(c.identifier, gpu.model))
            then (Capacity(glob, c, hw) + 1) % 0x1_0000_0000_0000_0000 else Capacity(glob, c, hw)
    ensures Capacity(glob, c, Hardware(hw.memory, [], [], [])) == if c.typ.Memory? then hw.memory else 0
  {
    CpuCounts(glob, c, hw, cpu);
    DiskCounts(glob, c, hw, disk);
    GpuCounts(glob, c, hw, gpu);
    hide Capacity;
    NoDeviceCounts(glob, c, hw.memory);
  }

  lemma NoDeviceCounts(glob: Glob, c: Constraint, memory: u64)
    ensures Capacity(glob, c, Hardware(memory, [], [], [])) == if c.typ.Memory? then memory else 0
  {
  }

  lemma CpuCounts(glob: Glob, c: Constraint, hw: Hardware, cpu: Cpu)
    ensures Capacity(glob, c, hw.(cpus := hw.cpus + [cpu])) ==
            if c.typ.Cores? && Admits(glob, c.identifier, cpu.model)
            then (Capacity(glob, c, hw) + cpu.cores) % U64 else Capacity(glob, c, hw)
  {
    assert Parts(hw.(cpus := hw.cpus + [cpu]), Cores) == Parts(hw, Cores) + [Part(cpu.model, cpu.cores)];
    TotalOneMore(glob, c.identifier, Parts(hw, Cores), Part(cpu.model, cpu.cores));
    hide Total, Admits;
  }

  lemma DiskCounts(glob: Glob, c: Constraint, hw: Hardware, disk: Disk)
    ensures Capacity(glob, c, hw.(disks := hw.disks + [disk])) ==
            if c.typ.Storage? && Admits(glob, c.identifier, disk.name)
            then (Capacity(glob, c, hw) + disk.size) % U64 else Capacity(glob, c, hw)
  {
    assert Parts(hw.(disks := hw.disks + [disk]), Storage) == Parts(hw, Storage) + [Part(disk.name, disk.size)];
    TotalOneMore(glob, c.identifier, Parts(hw, Storage), Part(disk.name, disk.size));
    hide Total, Admits;
  }

  lemma GpuCounts(glob: Glob, c: Constraint, hw: Hardware, gpu: GpuCard)
    ensures Capacity(glob, c, hw.(gpus := hw.gpus + [gpu])) ==
            if c.typ.Gpu? && Admits(glob, c.identifier, gpu.model)
            then (Capacity(glob, c, hw) + 1) % U64 else Capacity(glob, c, hw)
  {
    assert Parts(hw.(gpus := hw.gpus + [gpu]), Gpu) == Parts(hw, Gpu) + [Part(gpu.model, 1)];
    TotalOneMore(glob, c.identifier, Parts(hw, Gpu), Part(gpu.model, 1));
    hide Total, Admits;
  }

  /** A size without constraints overlaps with every other one, although no hardware matches it. */
  lemma UnconstrainedSizeIsInTheWay(glob: Glob, s: Size, sizes: seq<Size>, hw: Hardware)
    requires s.constraints == []
    ensures forall so: Size :: SizesOverlap(s, so) && SizesOverlap(so, s)
    ensures Blocked(s, sizes) <==> exists i :: 0 <= i < |sizes| && sizes[i].id != s.id
    ensures !SizeMatches(glob, s, hw)
  {
    assert Part("", hw.memory) in Parts(hw, Memory);
    assert !TypeCovered(glob, s.constraints, Memory, hw);
    if i :| 0 <= i < |sizes| && sizes[i].id != s.id {
      assert SizesOverlap(s, sizes[i]);
    }
  }

  // ---------- which sizes collide ----------

  ghost predicate Collide(glob: Glob, s: Size, so: Size) {
    exists hw: Hardware :: SizeMatches(glob, s, hw) && SizeMatches(glob, so, hw)
  }

  /** Some hardware matches the size at all. */
  ghost predicate Matchable(glob: Glob, s: Size) {
    exists hw: Hardware :: SizeMatches(glob, s, hw)
  }

  predicate Shared(s: Size, so: Size, t: ConstraintType) {
    Mentions(s, t) && Mentions(so, t)
  }

  ghost predicate OneIdentifier(cs: seq<Constraint>, t: ConstraintType) {
    forall c, d | c in cs && d in cs && c.typ == d.typ == t :: c.identifier == d.identifier
  }

  /** Neither size distinguishes models within a type that both constrain. */
  ghost predicate Comparable(s: Size, so: Size) {
    forall t: ConstraintType | Shared(s, so, t) :: OneIdentifier(s.constraints, t) && OneIdentifier(so.constraints, t)
  }

  ghost predicate AdmittedByAll(glob: Glob, cs: seq<Constraint>, t: ConstraintType, model: string) {
    forall c | c in cs && c.typ == t :: Admits(glob, c.identifier, model)
  }

  ghost predicate NothingNeeded(cs: seq<Constraint>, t: ConstraintType) {
    forall c | c in cs && c.typ == t :: c.min == 0
  }

  ghost predicate AllRangesMeet(cs: seq<Constraint>, t: ConstraintType) {
    forall c, d | c in cs && d in cs && c.typ == d.typ == t :: c.min <= d.max
  }

  /** The ranges of a shared type meet, and whatever is needed of it can be of a model that all constraints admit. */
  ghost predicate TypeCompatible(glob: Glob, cs: seq<Constraint>, t: ConstraintType) {
    AllRangesMeet(cs, t) && (NothingNeeded(cs, t) || exists model :: AdmittedByAll(glob, cs, t, model))
  }

  /** Shared types are compatible, other types may be absent, and the memory, which has no model, is covered. */
  ghost predicate Compatible(glob: Glob, s: Size, so: Size) {
    var all := s.constraints + so.constraints;
    && Shared(s, so, Memory) && AdmittedByAll(glob, all, Memory, "")
    && forall t: ConstraintType :: if Shared(s, so, t) then TypeCompatible(glob, all, t) else NothingNeeded(all, t)
  }

  /** A model that some constraint of either size admits: all parts of hardware that matches both are of such models. */
  ghost predicate Coverable(glob: Glob, s: Size, so: Size, t: ConstraintType, model: string) {
    && (exists c | c in s.constraints :: c.typ == t && Admits(glob, c.identifier, model))
    && (exists d | d in so.constraints :: d.typ == t && Admits(glob, d.identifier, model))
  }

  /** Two constraints that count the same parts. Memory has no models, so there all constraints do. */
  ghost predicate CountAlike(glob: Glob, s: Size, so: Size, c: Constraint, d: Constraint) {
    && c.typ == d.typ
    && (c.typ.Memory? || forall model | Coverable(glob, s, so, c.typ, model) ::
          Admits(glob, c.identifier, model) <==> Admits(glob, d.identifier, model))
  }

  /**
   What two sizes that match the same hardware always satisfy: constraints that count the same parts
   have meeting ranges, and whatever one needs can be of a model that the other size covers as well.
   */
  ghost predicate MayCollide(glob: Glob, s: Size, so: Size) {
    var all := s.constraints + so.constraints;
    && Coverable(glob, s, so, Memory, "")
    && (forall c, d | c in all && d in all && CountAlike(glob, s, so, c, d) :: c.min <= d.max)
    && (forall c | c in all && c.min > 0 :: Fillable(glob, s, so, c))
  }

  ghost predicate Fillable(glob: Glob, s: Size, so: Size, c: Constraint) {
    c.typ.Memory? || exists model :: Coverable(glob, s, so, c.typ, model) && Admits(glob, c.identifier, model)
  }

  /** What the guard takes for a difference: a type in one size only, or two identifiers for one type. */
  ghost predicate LooksDifferent(s: Size, so: Size) {
    || (exists t: ConstraintType :: Mentions(s, t) != Mentions(so, t))
    || (exists c, d | c in s.constraints && d in so.constraints :: c.typ == d.typ && c.identifier != d.identifier)
  }

  lemma NothingCoversNothingOnly(glob: Glob, parts: seq<Part>)
    ensures Covered(glob, [], parts) <==> parts == []
  {
    if parts != [] {
      assert parts[0] in parts;
    }
  }

  lemma MemoryIsConstrained(glob: Glob, s: Size, hw: Hardware)
    requires SizeMatches(glob, s, hw)
    ensures Mentions(s, Memory)
  {
    OfTypeHolds(s.constraints, Memory);
    assert TypeCovered(glob, s.constraints, Memory, hw);
    NothingCoversNothingOnly(glob, Parts(hw, Memory));
  }

  /** With one identifier for a type it admits every part of that type. */
  lemma AllPartsAdmitted(glob: Glob, s: Size, hw: Hardware, c: Constraint, p: Part)
    requires SizeMatches(glob, s, hw) && c in s.constraints && OneIdentifier(s.constraints, c.typ)
    requires p in Parts(hw, c.typ)
    ensures Admits(glob, c.identifier, p.model)
  {
    OfTypeHolds(s.constraints, c.typ);
    assert TypeCovered(glob, s.constraints, c.typ, hw);
    hide Parts, OfType, Total;
    var d :| d in OfType(s.constraints, c.typ) && Admits(glob, d.identifier, p.model);
  }

  lemma {:induction false} TotalOfAll(glob: Glob, identifier: string, parts: seq<Part>)
    requires forall p | p in parts :: Admits(glob, identifier, p.model)
    ensures Total(glob, identifier, parts) == Total(glob, "", parts)
  {
    if parts != [] {
      assert parts[|parts| - 1] in parts;
      TotalOfAll(glob, identifier, parts[..|parts| - 1]);
    }
  }

  lemma CapacityIsWhole(glob: Glob, s: Size, hw: Hardware, c: Constraint)
    requires SizeMatches(glob, s, hw) && c in s.constraints && OneIdentifier(s.constraints, c.typ)
    ensures Capacity(glob, c, hw) == Total(glob, "", Parts(hw, c.typ))
  {
    MemoryTotal(glob, hw);
    forall p | p in Parts(hw, c.typ) ensures Admits(glob, c.identifier, p.model) {
      AllPartsAdmitted(glob, s, hw, c, p);
    }
    TotalOfAll(glob, c.identifier, Parts(hw, c.typ));
  }

  lemma SharedTypeIsCompatible(glob: Glob, s: Size, so: Size, hw: Hardware, t: ConstraintType)
    requires SizeMatches(glob, s, hw) && SizeMatches(glob, so, hw)
    requires OneIdentifier(s.constraints, t) && OneIdentifier(so.constraints, t)
    ensures TypeCompatible(glob, s.constraints + so.constraints, t)
    ensures forall p | p in Parts(hw, t) :: AdmittedByAll(glob, s.constraints + so.constraints, t, p.model)
  {
    var all, whole := s.constraints + so.constraints, Total(glob, "", Parts(hw, t));
    forall c | c in all && c.typ == t ensures InRange(c, whole) {
      var x := if c in s.constraints then s else so;
      CapacityIsWhole(glob, x, hw, c);
      assert Met(glob, c, hw);
    }
    forall p, c | p in Parts(hw, t) && c in all && c.typ == t ensures Admits(glob, c.identifier, p.model) {
      AllPartsAdmitted(glob, if c in s.constraints then s else so, hw, c, p);
    }
    hide Parts;
    if Parts(hw, t) != [] {
      assert AdmittedByAll(glob, all, t, Parts(hw, t)[0].model);
    }
  }

  lemma PartsAreCoverable(glob: Glob, s: Size, so: Size, hw: Hardware, t: ConstraintType, p: Part)
    requires SizeMatches(glob, s, hw) && SizeMatches(glob, so, hw) && p in Parts(hw, t)
    ensures Coverable(glob, s, so, t, p.model)
  {
    OfTypeHolds(s.constraints, t);
    OfTypeHolds(so.constraints, t);
    assert TypeCovered(glob, s.constraints, t, hw) && TypeCovered(glob, so.constraints, t, hw);
    hide Parts, OfType, Total;
    var c :| c in OfType(s.constraints, t) && Admits(glob, c.identifier, p.model);
    var d :| d in OfType(so.constraints, t) && Admits(glob, d.identifier, p.model);
  }

  lemma {:induction false} TotalOfSame(glob: Glob, a: string, b: string, parts: seq<Part>)
    requires forall p | p in parts :: Admits(glob, a, p.model) <==> Admits(glob, b, p.model)
    ensures Total(glob, a, parts) == Total(glob, b, parts)
  {
    if parts != [] {
      assert parts[|parts| - 1] in parts;
      TotalOfSame(glob, a, b, parts[..|parts| - 1]);
    }
  }

  lemma {:induction false} SomethingCounted(glob: Glob, identifier: string, parts: seq<Part>)
    requires Total(glob, identifier, parts) > 0
    ensures exists p | p in parts :: Admits(glob, identifier, p.model)
  {
    if !Admits(glob, identifier, parts[|parts| - 1].model) {
      SomethingCounted(glob, identifier, parts[..|parts| - 1]);
    } else {
      assert parts[|parts| - 1] in parts;
    }
  }

  lemma AlikeHaveOneCapacity(glob: Glob, s: Size, so: Size, hw: Hardware, c: Constraint, d: Constraint)
    requires SizeMatches(glob, s, hw) && SizeMatches(glob, so, hw) && CountAlike(glob, s, so, c, d)
    ensures Capacity(glob, c, hw) == Capacity(glob, d, hw)
  {
    if !c.typ.Memory? {
      forall p | p in Parts(hw, c.typ)
        ensures Admits(glob, c.identifier, p.model) <==> Admits(glob, d.identifier, p.model)
      {
        PartsAreCoverable(glob, s, so, hw, c.typ, p);
      }
      TotalOfSame(glob, c.identifier, d.identifier, Parts(hw, c.typ));
    }
  }

  lemma NeededIsFillable(glob: Glob, s: Size, so: Size, hw: Hardware, c: Constraint)
    requires SizeMatches(glob, s, hw) && SizeMatches(glob, so, hw) && Met(glob, c, hw) && c.min > 0
    ensures Fillable(glob, s, so, c)
  {
    if !c.typ.Memory? {
      SomethingCounted(glob, c.identifier, Parts(hw, c.typ));
      var p :| p in Parts(hw, c.typ) && Admits(glob, c.identifier, p.model);
      PartsAreCoverable(glob, s, so, hw, c.typ, p);
    }
  }

  /** Whatever two sizes constrain, hardware that matches both makes this condition true. */
  lemma CollisionMeansMayCollide(glob: Glob, s: Size, so: Size, hw: Hardware)
    requires SizeMatches(glob, s, hw) && SizeMatches(glob, so, hw)
    ensures MayCollide(glob, s, so)
  {
    var all := s.constraints + so.constraints;
    assert Part("", hw.memory) in Parts(hw, Memory);
    PartsAreCoverable(glob, s, so, hw, Memory, Part("", hw.memory));
    assert forall c | c in all :: Met(glob, c, hw);
    hide Parts, Total, Capacity, Coverable, CountAlike, Fillable, SizeMatches;
    forall c, d | c in all && d in all && CountAlike(glob, s, so, c, d) ensures c.min <= d.max {
      AlikeHaveOneCapacity(glob, s, so, hw, c, d);
      assert Met(glob, c, hw) && Met(glob, d, hw);
    }
    forall c | c in all && c.min > 0 ensures Fillable(glob, s, so, c) {
      NeededIsFillable(glob, s, so, hw, c);
    }
  }

  /** With one identifier per size it admits every coverable model. */
  lemma CoverableIsAdmitted(glob: Glob, s: Size, so: Size, t: ConstraintType, model: string)
    requires OneIdentifier(s.constraints, t) && OneIdentifier(so.constraints, t) && Coverable(glob, s, so, t, model)
    ensures AdmittedByAll(glob, s.constraints + so.constraints, t, model)
  {
  }

  lemma MayCollideInType(glob: Glob, s: Size, so: Size, t: ConstraintType)
    requires MayCollide(glob, s, so) && Shared(s, so, t)
    requires forall model | Coverable(glob, s, so, t, model) ::
               AdmittedByAll(glob, s.constraints + so.constraints, t, model)
    ensures TypeCompatible(glob, s.constraints + so.constraints, t)
  {
    hide Coverable, Admits;
    var all := s.constraints + so.constraints;
    forall c, d | c in all && d in all && c.typ == d.typ == t ensures c.min <= d.max {
      assert CountAlike(glob, s, so, c, d);
    }
    if !NothingNeeded(all, t) {
      var c :| c in all && c.typ == t && c.min != 0;
      assert Fillable(glob, s, so, c);
      if t.Memory? {
        assert AdmittedByAll(glob, all, t, "");
      } else {
        var model :| Coverable(glob, s, so, t, model) && Admits(glob, c.identifier, model);
        assert AdmittedByAll(glob, all, t, model);
      }
    }
  }

  /** For comparable sizes the condition is the one that makes them collide. */
  lemma MayCollideWhenComparable(glob: Glob, s: Size, so: Size)
    requires Comparable(s, so) && MayCollide(glob, s, so)
    ensures Compatible(glob, s, so)
  {
    var all := s.constraints + so.constraints;
    assert Shared(s, so, Memory);
    CoverableIsAdmitted(glob, s, so, Memory, "");
    forall t: ConstraintType
      ensures if Shared(s, so, t) then TypeCompatible(glob, all, t) else NothingNeeded(all, t)
    {
      if Shared(s, so, t) {
        forall model | Coverable(glob, s, so, t, model) ensures AdmittedByAll(glob, all, t, model) {
          CoverableIsAdmitted(glob, s, so, t, model);
        }
        MayCollideInType(glob, s, so, t);
      } else {
        forall c | c in all && c.typ == t ensures c.min == 0 {
          assert c.min > 0 ==> Fillable(glob, s, so, c);
        }
      }
    }
  }

  // ---------- hardware for two compatible sizes ----------

  function LargestMin(cs: seq<Constraint>, t: ConstraintType): u64 {
    if cs == [] then 0
    else
      var rest, c := LargestMin(cs[..|cs| - 1], t), cs[|cs| - 1];
      if c.typ == t && c.min > rest then c.min else rest
  }

  lemma {:induction false} LargestMinOf(cs: seq<Constraint>, t: ConstraintType)
    ensures forall c | c in cs && c.typ == t :: c.min <= LargestMin(cs, t)
    ensures LargestMin(cs, t) == 0 || exists c :: c in cs && c.typ == t && c.min == LargestMin(cs, t)
  {
    if cs != [] {
      LargestMinOf(cs[..|cs| - 1], t);
      assert cs == cs[..|cs| - 1] + [cs[|cs| - 1]];
    }
  }

  /** The larger lower bound of a type, or nothing at all when only one size constrains it. */
  function Needed(s: Size, so: Size, t: ConstraintType): u64 {
    if Shared(s, so, t) then LargestMin(s.constraints + so.constraints, t) else 0
  }

  ghost function ModelFor(glob: Glob, s: Size, so: Size, t: ConstraintType): string {
    if exists model :: AdmittedByAll(glob, s.constraints + so.constraints, t, model) then
      var model :| AdmittedByAll(glob, s.constraints + so.constraints, t, model); model
    else ""
  }

  /** As many processors as it takes, each within 32 bits. */
  function Cpus(model: string, cores: nat): seq<Cpu> {
    if cores == 0 then []
    else if cores < U32 then [Cpu("", model, cores, 0)]
    else Cpus(model, cores - (U32 - 1)) + [Cpu("", model, U32 - 1, 0)]
  }

  function Gpus(model: string, n: nat): seq<GpuCard> {
    if n == 0 then [] else Gpus(model, n - 1) + [GpuCard("", model)]
  }

  ghost function Witness(glob: Glob, s: Size, so: Size): Hardware {
    var storage := Needed(s, so, Storage);
    Hardware(
      Needed(s, so, Memory),
      if storage == 0 then [] else [Disk(ModelFor(glob, s, so, Storage), storage)],
      Cpus(ModelFor(glob, s, so, Cores), Needed(s, so, Cores)),
      Gpus(ModelFor(glob, s, so, Gpu), Needed(s, so, Gpu)))
  }

  /** All parts are of one model and they add up to n. */
  ghost predicate Uniform(glob: Glob, identifier: string, model: string, parts: seq<Part>, n: u64) {
    && (forall p | p in parts :: p.model == model)
    && (n == 0 ==> parts == [])
    && (Admits(glob, identifier, model) ==> Total(glob, identifier, parts) == n)
  }

  lemma TotalOneMore(glob: Glob, identifier: string, parts: seq<Part>, p: Part)
    ensures Total(glob, identifier, []) == 0
    ensures Total(glob, identifier, parts + [p]) ==
            var rest := Total(glob, identifier, parts);
            if Admits(glob, identifier, p.model) then (rest + p.count) % U64 else rest
  {
    assert (parts + [p])[..|parts|] == parts;
  }

  lemma {:induction false} CpusAddUp(glob: Glob, identifier: string, model: string, n: u64)
    ensures Uniform(glob, identifier, model, Parts(Hardware(0, [], Cpus(model, n), []), Cores), n)
  {
    hide Total, Admits;
    var parts := Parts(Hardware(0, [], Cpus(model, n), []), Cores);
    if n == 0 {
      assert parts == [];
      TotalOneMore(glob, identifier, [], Part(model, 0));
    } else if n < U32 {
      assert parts == [] + [Part(model, n)];
      TotalOneMore(glob, identifier, [], Part(model, n));
    } else {
      CpusAddUp(glob, identifier, model, n - (U32 - 1));
      var front := Parts(Hardware(0, [], Cpus(model, n - (U32 - 1)), []), Cores);
      assert parts == front + [Part(model, U32 - 1)];
      TotalOneMore(glob, identifier, front, Part(model, U32 - 1));
    }
  }

  lemma {:induction false} GpusAddUp(glob: Glob, identifier: string, model: string, n: u64)
    ensures Uniform(glob, identifier, model, Parts(Hardware(0, [], [], Gpus(model, n)), Gpu), n)
  {
    hide Total, Admits;
    var parts := Parts(Hardware(0, [], [], Gpus(model, n)), Gpu);
    if n == 0 {
      assert parts == [];
      TotalOneMore(glob, identifier, [], Part(model, 1));
    } else {
      GpusAddUp(glob, identifier, model, n - 1);
      var front := Parts(Hardware(0, [], [], Gpus(model, n - 1)), Gpu);
      assert parts == front + [Part(model, 1)];
      TotalOneMore(glob, identifier, front, Part(model, 1));
    }
  }

  lemma DiskAddsUp(glob: Glob, identifier: string, model: string, n: u64)
    ensures Uniform(glob, identifier, model,
                    Parts(Hardware(0, if n == 0 then [] else [Disk(model, n)], [], []), Storage), n)
  {
    var disks := if n == 0 then [] else [Disk(model, n)];
    var parts := Parts(Hardware(0, disks, [], []), Storage);
    if n > 0 {
      assert parts == [Part(model, n)];
      assert parts[..|parts| - 1] == [];
      assert Total(glob, identifier, []) == 0;
    }
  }

  lemma WitnessAddsUp(glob: Glob, s: Size, so: Size, t: ConstraintType, identifier: string)
    ensures t.Memory? || Uniform(glob, identifier, ModelFor(glob, s, so, t),
                                 Parts(Witness(glob, s, so), t), Needed(s, so, t))
    ensures t.Memory? ==> Witness(glob, s, so).memory == Needed(s, so, t)
  {
    var hw, model, n := Witness(glob, s, so), ModelFor(glob, s, so, t), Needed(s, so, t);
    match t
    case Cores =>
      CpusAddUp(glob, identifier, model, n);
      assert Parts(hw, t) == Parts(Hardware(0, [], Cpus(model, n), []), Cores);
    case Gpu =>
      GpusAddUp(glob, identifier, model, n);
      assert Parts(hw, t) == Parts(Hardware(0, [], [], Gpus(model, n)), Gpu);
    case Memory =>
    case Storage =>
      DiskAddsUp(glob, identifier, model, n);
      assert Parts(hw, t) == Parts(Hardware(0, hw.disks, [], []), Storage);
  }

  lemma NeededInRange(glob: Glob, s: Size, so: Size, c: Constraint)
    requires Compatible(glob, s, so) && c in s.constraints + so.constraints
    ensures InRange(c, Needed(s, so, c.typ))
    ensures Needed(s, so, c.typ) > 0 ==> Admits(glob, c.identifier, ModelFor(glob, s, so, c.typ))
  {
    var all := s.constraints + so.constraints;
    LargestMinOf(all, c.typ);
    assert if Shared(s, so, c.typ) then TypeCompatible(glob, all, c.typ) else NothingNeeded(all, c.typ);
  }

  lemma WitnessMeets(glob: Glob, s: Size, so: Size, c: Constraint)
    requires Compatible(glob, s, so) && c in s.constraints + so.constraints
    ensures Met(glob, c, Witness(glob, s, so))
    ensures InRange(c, Total(glob, c.identifier, Parts(Witness(glob, s, so), c.typ)))
    ensures forall p | p in Parts(Witness(glob, s, so), c.typ) :: Admits(glob, c.identifier, p.model)
  {
    var hw := Witness(glob, s, so);
    WitnessAddsUp(glob, s, so, c.typ, c.identifier);
    NeededInRange(glob, s, so, c);
    MemoryTotal(glob, hw);
    if c.typ.Memory? {
      TotalOfAll(glob, c.identifier, Parts(hw, Memory));
    }
  }

  lemma CoveredByOne(glob: Glob, cs: seq<Constraint>, parts: seq<Part>, c: Constraint)
    requires c in cs && InRange(c, Total(glob, c.identifier, parts))
    requires forall p | p in parts :: Admits(glob, c.identifier, p.model)
    ensures Covered(glob, cs, parts)
  {
  }

  lemma WitnessMatches(glob: Glob, s: Size, so: Size, x: Size)
    requires Compatible(glob, s, so) && (x == s || x == so)
    ensures SizeMatches(glob, x, Witness(glob, s, so))
  {
    var hw := Witness(glob, s, so);
    forall c | c in x.constraints ensures Met(glob, c, hw) {
      WitnessMeets(glob, s, so, c);
    }
    forall t: ConstraintType ensures TypeCovered(glob, x.constraints, t, hw) {
      if Mentions(x, t) {
        var c :| c in x.constraints && c.typ == t;
        WitnessMeets(glob, s, so, c);
        OfTypeHolds(x.constraints, t);
        CoveredByOne(glob, OfType(x.constraints, t), Parts(hw, t), c);
      } else {
        WitnessAddsUp(glob, s, so, t, "");
        assert Parts(hw, t) == [];
      }
    }
  }

  lemma MemoryTotal(glob: Glob, hw: Hardware)
    ensures Total(glob, "", Parts(hw, Memory)) == hw.memory
    ensures forall p | p in Parts(hw, Memory) :: p.model == ""
  {
    assert Parts(hw, Memory)[..0] == [];
  }

  /**
   Compatible sizes collide, and sizes that collide satisfy the weaker condition. Between the two lie
   only sizes that have several identifiers for a type both constrain.
   */
  lemma CollisionExactly(glob: Glob, s: Size, so: Size)
    ensures Compatible(glob, s, so) ==> Collide(glob, s, so)
    ensures Collide(glob, s, so) ==> MayCollide(glob, s, so)
    ensures Comparable(s, so) ==> (MayCollide(glob, s, so) ==> Compatible(glob, s, so))
  {
    if Compatible(glob, s, so) {
      WitnessMatches(glob, s, so, s);
      WitnessMatches(glob, s, so, so);
    }
    forall hw: Hardware | SizeMatches(glob, s, hw) && SizeMatches(glob, so, hw) ensures MayCollide(glob, s, so) {
      CollisionMeansMayCollide(glob, s, so, hw);
    }
    if Comparable(s, so) && MayCollide(glob, s, so) {
      MayCollideWhenComparable(glob, s, so);
    }
  }

  // ---------- the guard ----------

  /** Of two sizes that match the same hardware the guard misses exactly those that look different to it. */
  lemma MatchingSizesOverlap(glob: Glob, s: Size, so: Size, hw: Hardware)
    requires SizeMatches(glob, s, hw) && SizeMatches(glob, so, hw)
    ensures SizesOverlap(s, so) <==> !LooksDifferent(s, so)
  {
    MemoryIsConstrained(glob, s, hw);
    MemoryIsConstrained(glob, so, hw);
    if !LooksDifferent(s, so) {
      CollisionMeansMayCollide(glob, s, so, hw);
      AlikeIsComparable(s, so);
      MayCollideWhenComparable(glob, s, so);
      CompatibleSizesOverlap(glob, s, so);
    }
  }

  lemma AlikeIsComparable(s: Size, so: Size)
    requires !LooksDifferent(s, so)
    ensures Comparable(s, so)
  {
    forall t: ConstraintType | Shared(s, so, t)
      ensures OneIdentifier(s.constraints, t) && OneIdentifier(so.constraints, t)
    {
      var c0 :| c0 in s.constraints && c0.typ == t;
      var d0 :| d0 in so.constraints && d0.typ == t;
      assert forall c | c in s.constraints && c.typ == t :: c.identifier == d0.identifier;
      assert forall d | d in so.constraints && d.typ == t :: c0.identifier == d.identifier;
    }
  }

  /** A size with two identifiers for one type overlaps no constrained size, not even itself. */
  lemma TwoIdentifiersNeverOverlap(s: Size, so: Size, t: ConstraintType)
    requires !OneIdentifier(s.constraints, t) && so.constraints != []
    ensures !SizesOverlap(s, so) && !SizesOverlap(so, s)
  {
    var c, d :| c in s.constraints && d in s.constraints && c.typ == d.typ == t && c.identifier != d.identifier;
    if SizesOverlap(s, so) {
      assert Mentions(s, t) && Mentions(so, t);
      var e :| e in so.constraints && e.typ == t;
      assert false;
    }
    OverlapIsSymmetric(s, so);
  }

  lemma CompatibleSizesOverlap(glob: Glob, s: Size, so: Size)
    requires Compatible(glob, s, so)
    ensures SizesOverlap(s, so) <==> !LooksDifferent(s, so)
  {
    var all := s.constraints + so.constraints;
    var m :| m in s.constraints && m.typ == Memory;
    var n :| n in so.constraints && n.typ == Memory;
    if !LooksDifferent(s, so) {
      forall c, d | c in s.constraints && d in so.constraints && c.typ == d.typ ensures ConstraintsOverlap(c, d) {
        assert Shared(s, so, c.typ) && TypeCompatible(glob, all, c.typ);
        assert c in all && d in all && c.min <= d.max && d.min <= c.max;
      }
    }
  }

  predicate PairsOverlapInType(s: Size, so: Size, t: ConstraintType) {
    forall c, d | c in s.constraints && d in so.constraints && c.typ == d.typ == t :: ConstraintsOverlap(c, d)
  }

  lemma RangesOverlap(s: Size, so: Size, t: ConstraintType)
    requires AllRangesMeet(s.constraints, t) && AllRangesMeet(so.constraints, t) && PairsOverlapInType(s, so, t)
    ensures AllRangesMeet(s.constraints + so.constraints, t)
  {
  }

  lemma IdentifiersAgree(s: Size, so: Size, t: ConstraintType)
    requires Shared(s, so, t) && PairsOverlapInType(s, so, t)
    ensures OneIdentifier(s.constraints + so.constraints, t)
  {
    var c0 :| c0 in s.constraints && c0.typ == t;
    var d0 :| d0 in so.constraints && d0.typ == t;
    assert forall c | c in s.constraints && c.typ == t :: ConstraintsOverlap(c, d0);
    assert forall d | d in so.constraints && d.typ == t :: ConstraintsOverlap(c0, d);
  }

  lemma TypeOverlap(glob: Glob, s: Size, so: Size, t: ConstraintType)
    requires TypeCompatible(glob, s.constraints, t) && TypeCompatible(glob, so.constraints, t)
    requires Shared(s, so, t) && PairsOverlapInType(s, so, t)
    ensures TypeCompatible(glob, s.constraints + so.constraints, t)
  {
    var all := s.constraints + so.constraints;
    RangesOverlap(s, so, t);
    IdentifiersAgree(s, so, t);
    hide AllRangesMeet, PairsOverlapInType;
    if !NothingNeeded(all, t) {
      var c :| c in all && c.typ == t && c.min != 0;
      var own := if c in s.constraints then s.constraints else so.constraints;
      assert c in own && !NothingNeeded(own, t);
      var model :| AdmittedByAll(glob, own, t, model);
      assert AdmittedByAll(glob, all, t, model);
    }
  }

  /** An overlap means common hardware, if there is hardware for each of the two sizes at all. */
  lemma OverlapMeansCollision(glob: Glob, s: Size, so: Size)
    requires SizesOverlap(s, so)
    ensures Collide(glob, s, so) <==> Matchable(glob, s) && Matchable(glob, so)
  {
    if Matchable(glob, s) && Matchable(glob, so) {
      ConstraintsOfOverlapping(glob, s, so);
      forall t: ConstraintType | Shared(s, so, t)
        ensures OneIdentifier(s.constraints, t) && OneIdentifier(so.constraints, t) {
        IdentifiersAgree(s, so, t);
      }
      OwnTypesAreCompatible(glob, s, so);
      OwnTypesAreCompatible(glob, so, s);
      OverlapOfMatchable(glob, s, so);
      CollisionExactly(glob, s, so);
    }
  }

  lemma ConstraintsOfOverlapping(glob: Glob, s: Size, so: Size)
    requires Matchable(glob, s) && Matchable(glob, so) && SizesOverlap(s, so)
    ensures forall t: ConstraintType :: (Mentions(s, t) <==> Mentions(so, t)) && PairsOverlapInType(s, so, t)
    ensures Shared(s, so, Memory)
  {
    var hw :| SizeMatches(glob, s, hw);
    var hwo :| SizeMatches(glob, so, hwo);
    MemoryIsConstrained(glob, s, hw);
    MemoryIsConstrained(glob, so, hwo);
  }

  /** A size that matches something is compatible with itself wherever it has one identifier only. */
  lemma OwnTypesAreCompatible(glob: Glob, s: Size, so: Size)
    requires Matchable(glob, s) && (forall t: ConstraintType :: Mentions(s, t) <==> Mentions(so, t))
             && Comparable(s, so)
    ensures forall t: ConstraintType | Mentions(s, t) :: TypeCompatible(glob, s.constraints, t)
    ensures AdmittedByAll(glob, s.constraints, Memory, "")
  {
    var hw :| SizeMatches(glob, s, hw);
    MemoryIsConstrained(glob, s, hw);
    assert s.constraints + [] == s.constraints;
    forall t: ConstraintType | Mentions(s, t)
      ensures TypeCompatible(glob, s.constraints, t)
      ensures t.Memory? ==> AdmittedByAll(glob, s.constraints, t, "")
    {
      assert Shared(s, so, t);
      OwnTypeIsCompatible(glob, s, hw, t);
    }
  }

  lemma OwnTypeIsCompatible(glob: Glob, s: Size, hw: Hardware, t: ConstraintType)
    requires SizeMatches(glob, s, hw) && OneIdentifier(s.constraints, t)
    ensures TypeCompatible(glob, s.constraints, t)
    ensures t.Memory? ==> AdmittedByAll(glob, s.constraints, t, "")
  {
    var twice := s.constraints + s.constraints;
    SharedTypeIsCompatible(glob, s, s, hw, t);
    assert Part("", hw.memory) in Parts(hw, Memory);
    assert forall c :: c in twice <==> c in s.constraints;
    if model :| AdmittedByAll(glob, twice, t, model) {
      assert AdmittedByAll(glob, s.constraints, t, model);
    }
  }

  lemma OverlapOfMatchable(glob: Glob, s: Size, so: Size)
    requires forall t: ConstraintType :: (Mentions(s, t) <==> Mentions(so, t)) && PairsOverlapInType(s, so, t)
    requires forall t: ConstraintType | Mentions(s, t) ::
             TypeCompatible(glob, s.constraints, t) && TypeCompatible(glob, so.constraints, t)
    requires Shared(s, so, Memory) && AdmittedByAll(glob, s.constraints, Memory, "")
             && AdmittedByAll(glob, so.constraints, Memory, "")
    ensures Compatible(glob, s, so)
  {
    var all := s.constraints + so.constraints;
    forall t: ConstraintType ensures if Shared(s, so, t) then TypeCompatible(glob, all, t) else NothingNeeded(all, t) {
      if Mentions(s, t) {
        TypeOverlap(glob, s, so, t);
      }
    }
  }

  /**
   What the guard lets pass: compatible sizes among them collide, all that collide look different, and
   for comparable ones being compatible is all it takes.
   */
  lemma GuardIsExact(glob: Glob, s: Size, so: Size)
    requires !SizesOverlap(s, so)
    ensures Compatible(glob, s, so) ==> Collide(glob, s, so)
    ensures Collide(glob, s, so) ==> MayCollide(glob, s, so) && LooksDifferent(s, so)
    ensures Comparable(s, so) ==> (MayCollide(glob, s, so) ==> Compatible(glob, s, so))
  {
    CollisionExactly(glob, s, so);
    if hw: Hardware :| SizeMatches(glob, s, hw) && SizeMatches(glob, so, hw) {
      MatchingSizesOverlap(glob, s, so, hw);
    }
  }
}
